/**
 * The tracker's in-memory state: the list of tasks loaded at start-up and the
 * id counter, updated in place by the four mutating operations.
 */
module Repository {
  import opened Tasks

  class TaskList {
    /** The task list, in insertion order. */
    var tasks: seq<Task>
    /** The id the next added task receives. */
    var counter: nat

    /** Every id present is below the counter, so the counter is never a duplicate. */
    ghost predicate Valid()
      reads this
    {
      counter >= 1 && forall i :: 0 <= i < |tasks| ==> tasks[i].id < counter
    }

    /** Start-up: the loaded list and a counter one above its largest id. */
    constructor (loaded: seq<Task>)
      ensures Valid()
      ensures tasks == loaded && counter == NextId(loaded)
    {
      tasks := loaded;
      counter := NextId(loaded);
    }

    /** Appends a new `todo` task carrying the counter's id and increments the counter. */
    method AddTask(description: string, now: string) returns (t: Task)
      requires Valid()
      modifies this
      ensures Valid()
      ensures t == Task(old(counter), description, Todo, now, now)
      ensures tasks == old(tasks) + [t]
      ensures counter == old(counter) + 1
      ensures forall i :: 0 <= i < |old(tasks)| ==> old(tasks)[i].id < t.id
      ensures UniqueIds(old(tasks)) ==> UniqueIds(tasks)
    {
      t := Task(counter, description, Todo, now, now);
      counter := counter + 1;
      tasks := tasks + [t];
    }

    /** Replaces the description of the first task with `id`; reports whether there was one. */
    method UpdateTask(id: nat, description: string, now: string) returns (found: bool)
      requires Valid()
      modifies this
      ensures Valid() && counter == old(counter)
      ensures found <==> exists i :: 0 <= i < |old(tasks)| && old(tasks)[i].id == id
      ensures tasks == UpdateDescription(old(tasks), id, description, now)
    {
      var index := FindIndex(tasks, id);
      if index.Some? {
        var k := index.value;
        tasks := tasks[k := tasks[k].(description := description, updatedAt := now)];
        found := true;
      } else {
        found := false;
      }
    }

    /** Removes the first task with `id` and returns it; `None` when there is none. */
    method DeleteTask(id: nat) returns (removed: Option<Task>)
      requires Valid()
      modifies this
      ensures Valid() && counter == old(counter)
      ensures removed.None? <==> forall i :: 0 <= i < |old(tasks)| ==> old(tasks)[i].id != id
      ensures removed.Some? ==> removed.value == old(tasks)[FindIndex(old(tasks), id).value]
      ensures tasks == RemoveFirst(old(tasks), id)
    {
      var index := FindIndex(tasks, id);
      if index.Some? {
        var k := index.value;
        removed := Some(tasks[k]);
        tasks := tasks[..k] + tasks[k + 1..];
      } else {
        removed := None;
      }
    }

    /** Sets the status of the first task with `id` and returns that task as changed; `None` when there is none. */
    method ChangeTaskStatus(id: nat, status: Status, now: string) returns (changed: Option<Task>)
      requires Valid()
      modifies this
      ensures Valid() && counter == old(counter)
      ensures changed.None? <==> forall i :: 0 <= i < |old(tasks)| ==> old(tasks)[i].id != id
      ensures tasks == SetStatus(old(tasks), id, status, now)
      ensures changed.Some? ==> changed.value == tasks[FindIndex(old(tasks), id).value]
    {
      var index := FindIndex(tasks, id);
      if index.Some? {
        var k := index.value;
        tasks := tasks[k := tasks[k].(status := status, updatedAt := now)];
        changed := Some(tasks[k]);
      } else {
        changed := None;
      }
    }

    /** The tasks a `list` command shows: all of them, or those with the requested status. */
    method ShowTaskList(filter: Option<Status>) returns (shown: seq<Task>)
      ensures filter.None? ==> shown == tasks
      ensures filter.Some? ==> shown == Filter(tasks, filter.value)
    {
      if filter.None? {
        shown := tasks;
      } else {
        shown := Filter(tasks, filter.value);
      }
    }
  }
}
