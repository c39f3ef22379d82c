/**
 * One invocation of the tracker: the command name and payload are turned into
 * a typed command, the command is carried out on the task list, and the
 * outcome is reported.  `Apply` states the effect of a command on the list's
 * value; `Dispatch` and `Run` carry it out through the `TaskList` object.
 */
module Commands {
  import opened Tasks
  import opened Cli
  import opened Repository

  /** A parsed invocation. */
  datatype Command =
    | Add(description: string)
    | Update(id: nat, description: string)
    | Delete(id: nat)
    | Mark(id: nat, status: Status)
    | List(filter: Option<Status>)
    | Help
    | Invalid(name: string)  // a known command whose arguments do not have the required shape
    | Unknown

  /** What an invocation reports (the printed messages carry these values). */
  datatype Outcome =
    | Added(task: Task)
    | Updated(id: nat, description: string)
    | Deleted(task: Task)
    | Marked(task: Task)
    | NotFound(id: nat)
    | Listed(shown: seq<Task>)
    | HelpShown
    | InvalidFormat(name: string)
    | UnknownCommand

  /** A `mark-*` command: the payload must be an id, and the command then sets `status` on it. */
  function MarkCommand(name: string, payload: string, status: Status): (c: Command)
    ensures c.Mark? || c.Invalid?
    ensures c.Mark? <==> payload != [] && AllDigits(payload)
    ensures c.Mark? ==> c.id == DecimalValue(payload) && c.status == status
    ensures c.Invalid? ==> c.name == name
  {
    match ParseId(payload)
    case Some(id) => Mark(id, status)
    case None => Invalid(name)
  }

  /** The command a command name and its payload stand for. */
  function ParseCommand(name: string, payload: string): (c: Command)
    ensures c.Add? ==> c.description == payload != []
    ensures c.Update? ==> c.description != [] && NoLineTerminator(c.description)
    ensures c.Update? ==> payload != [] && (!IsSpace(payload[|payload| - 1]) ==> !IsSpace(c.description[0]))
    ensures c.Invalid? ==> c.name == name
  {
    if name == "add" then
      if payload != [] then Add(payload) else Invalid(name)
    else if name == "update" then
      UpdateOnTrimmedPayload(payload);
      (match ParseUpdate(payload)
       case Some((id, description)) => Update(id, description)
       case None => Invalid(name))
    else if name == "delete" then
      (match ParseId(payload)
       case Some(id) => Delete(id)
       case None => Invalid(name))
    else if name == "mark-in-progress" then MarkCommand(name, payload, InProgress)
    else if name == "mark-todo" then MarkCommand(name, payload, Todo)
    else if name == "mark-done" then MarkCommand(name, payload, Done)
    else if name == "list" then
      if payload == [] then List(None)
      else
        (match ParseStatus(payload)
         case Some(status) => List(Some(status))
         case None => Invalid(name))
    else if name == "help" then Help
    else Unknown
  }

  /** The command an argument list (the arguments after the program name) stands for. */
  function Parse(args: seq<string>): (c: Command)
    ensures c.Add? ==> c.description != [] && !IsSpace(c.description[0]) && !IsSpace(c.description[|c.description| - 1])
    ensures c.Update? ==> c.description != [] && !IsSpace(c.description[0])
    ensures c.Invalid? ==> |args| > 0 && c.name == args[0]
  {
    if |args| == 0 then Unknown
    else
      var payload := Payload(args);
      assert Trimmed(payload);
      ParseCommand(args[0], payload)
  }

  /** Only the eight command names are recognised. */
  lemma OnlyKnownNames(name: string, payload: string)
    ensures ParseCommand(name, payload).Unknown? <==>
              name !in {"add", "update", "delete", "mark-in-progress", "mark-todo", "mark-done", "list", "help"}
  {
  }

  /** The state after a command: the outcome, the task list and the id counter. */
  datatype Step = Step(outcome: Outcome, tasks: seq<Task>, counter: nat)

  /**
   * The outcomes after which the program writes the list back to its file:
   * an add, and an update, delete or status change whose id is present.
   */
  predicate Writes(o: Outcome)
  {
    o.Added? || o.Updated? || o.Deleted? || o.Marked?
  }

  /**
   * The effect of a command on a task list whose counter is `counter`: an add
   * grows the list by one, a delete shrinks it by one, and an outcome that is
   * not written back leaves list and counter as they were.
   */
  function Apply(ts: seq<Task>, counter: nat, cmd: Command, now: string): (r: Step)
    ensures |r.tasks| == |ts| + (if r.outcome.Added? then 1 else 0) - (if r.outcome.Deleted? then 1 else 0)
    ensures !Writes(r.outcome) ==> r.tasks == ts && r.counter == counter
  {
    match cmd
    case Add(description) =>
      var t := Task(counter, description, Todo, now, now);
      Step(Added(t), ts + [t], counter + 1)
    case Update(id, description) =>
      if FindIndex(ts, id).Some? then Step(Updated(id, description), UpdateDescription(ts, id, description, now), counter)
      else Step(NotFound(id), ts, counter)
    case Delete(id) =>
      (match FindIndex(ts, id)
       case Some(k) => Step(Deleted(ts[k]), RemoveFirst(ts, id), counter)
       case None => Step(NotFound(id), ts, counter))
    case Mark(id, status) =>
      (match FindIndex(ts, id)
       case Some(k) => Step(Marked(SetStatus(ts, id, status, now)[k]), SetStatus(ts, id, status, now), counter)
       case None => Step(NotFound(id), ts, counter))
    case List(filter) =>
      Step(Listed(if filter.None? then ts else Filter(ts, filter.value)), ts, counter)
    case Help => Step(HelpShown, ts, counter)
    case Invalid(name) => Step(InvalidFormat(name), ts, counter)
    case Unknown => Step(UnknownCommand, ts, counter)
  }

  /**
   * One run of the program on the loaded task list: the counter starts at the
   * next id, and after the run it is still at or above the next id of the list,
   * whose ids stay distinct if they were.
   */
  function Invocation(loaded: seq<Task>, args: seq<string>, now: string): (r: Step)
    ensures r.counter >= NextId(r.tasks)
    ensures UniqueIds(loaded) ==> UniqueIds(r.tasks)
  {
    ApplyPreservesIds(loaded, NextId(loaded), Parse(args), now);
    Apply(loaded, NextId(loaded), Parse(args), now)
  }

  /** Carries out a command on the task list object. */
  method Dispatch(repo: TaskList, cmd: Command, now: string) returns (o: Outcome)
    requires repo.Valid()
    modifies repo
    ensures repo.Valid()
    ensures Step(o, repo.tasks, repo.counter) == Apply(old(repo.tasks), old(repo.counter), cmd, now)
  {
    match cmd
    case Add(description) =>
      var t := repo.AddTask(description, now);
      o := Added(t);
    case Update(id, description) =>
      var found := repo.UpdateTask(id, description, now);
      o := if found then Updated(id, description) else NotFound(id);
    case Delete(id) =>
      var removed := repo.DeleteTask(id);
      o := if removed.Some? then Deleted(removed.value) else NotFound(id);
    case Mark(id, status) =>
      var changed := repo.ChangeTaskStatus(id, status, now);
      o := if changed.Some? then Marked(changed.value) else NotFound(id);
    case List(filter) =>
      var shown := repo.ShowTaskList(filter);
      o := Listed(shown);
    case Help =>
      o := HelpShown;
    case Invalid(name) =>
      o := InvalidFormat(name);
    case Unknown =>
      o := UnknownCommand;
  }

  /**
   * The program: build the task list from the loaded tasks, parse the
   * arguments, dispatch; `saved` is the list written back to the file, and
   * `None` when the run writes nothing.
   */
  method Run(loaded: seq<Task>, args: seq<string>, now: string) returns (o: Outcome, saved: Option<seq<Task>>)
    ensures o == Invocation(loaded, args, now).outcome
    ensures saved == if Writes(o) then Some(Invocation(loaded, args, now).tasks) else None
  {
    var repo := new TaskList(loaded);
    var cmd := Parse(args);
    o := Dispatch(repo, cmd, now);
    saved := if Writes(o) then Some(repo.tasks) else None;
  }

  // ---------------------------------------------------------------------------
  // Argument acceptance

  /** The command that sets a status. */
  function MarkName(s: Status): string
  {
    match s
    case Todo => "mark-todo"
    case InProgress => "mark-in-progress"
    case Done => "mark-done"
  }

  /** Each `mark-*` name stands for a status change to its status. */
  lemma MarkOfStatus(status: Status, payload: string)
    ensures ParseCommand(MarkName(status), payload) == MarkCommand(MarkName(status), payload, status)
  {
    match status
    case Todo =>
    case InProgress =>
    case Done =>
  }

  /** `add` is accepted exactly when some argument after it is not all white space; the description is the payload. */
  lemma AddAccepts(args: seq<string>)
    requires |args| > 0 && args[0] == "add"
    ensures Parse(args).Add? <==> exists k :: 1 <= k < |args| && !AllSpace(args[k])
    ensures Parse(args).Invalid? <==> !Parse(args).Add?
    ensures Parse(args).Add? ==> Parse(args).description == Payload(args)
  {
    PayloadEmpty(args);
  }

  /** `delete` and `mark-*` are accepted exactly when the payload is a non-empty run of digits, whose value is the id. */
  lemma IdCommandAccepts(name: string, payload: string)
    requires name in {"delete", "mark-in-progress", "mark-todo", "mark-done"}
    ensures var c := ParseCommand(name, payload);
            && (c.Delete? || c.Mark? || c.Invalid?)
            && (!c.Invalid? <==> payload != [] && AllDigits(payload))
            && (!c.Invalid? ==> c.id == DecimalValue(payload))
            && (c.Delete? <==> name == "delete" && !c.Invalid?)
            && (c.Mark? ==> MarkName(c.status) == name)
  {
    if name != "delete" {
      var status := if name == "mark-todo" then Todo else if name == "mark-in-progress" then InProgress else Done;
      assert MarkName(status) == name;
      MarkOfStatus(status, payload);
    }
  }

  /** `update` is accepted exactly when its pattern matches the payload, and carries the pattern's captures. */
  lemma UpdateAccepts(payload: string)
    ensures var c := ParseCommand("update", payload);
            && (c.Update? || c.Invalid?)
            && (c.Update? <==> exists i, j :: UpdateShape(payload, i, j))
            && (c.Update? ==>
                  exists i, j :: && UpdateShape(payload, i, j)
                                 && c.id == DecimalValue(payload[..i])
                                 && c.description == payload[j..]
                                 && forall i', j' :: UpdateShape(payload, i', j') ==> i' == i && j' <= j)
  {
    UpdateMatchesPattern(payload);
  }

  /** `list` alone lists everything; with a payload it must be exactly one status name. */
  lemma ListAccepts(payload: string)
    ensures var c := ParseCommand("list", payload);
            && (c.List? || c.Invalid?)
            && (c == List(None) <==> payload == [])
            && (c.Invalid? <==> payload != [] && forall s :: StatusName(s) != payload)
            && (c.List? && c.filter.Some? ==> StatusName(c.filter.value) == payload)
  {
  }

  // ---------------------------------------------------------------------------
  // Effects of a command

  /**
   * The list changes only through an accepted add, or an update, delete or
   * status change whose id is present; a missing id is reported as not found.
   */
  lemma ChangesOnlyWhenFound(ts: seq<Task>, counter: nat, cmd: Command, now: string)
    ensures var s := Apply(ts, counter, cmd, now);
            && (s.tasks != ts ==> cmd.Add? || ((cmd.Update? || cmd.Delete? || cmd.Mark?) && FindIndex(ts, cmd.id).Some?))
            && (s.counter != counter <==> cmd.Add?)
            && (s.outcome.NotFound? <==>
                  (cmd.Update? || cmd.Delete? || cmd.Mark?) && forall i :: 0 <= i < |ts| ==> ts[i].id != cmd.id)
            && (s.outcome.NotFound? ==> s.tasks == ts)
            && (Writes(s.outcome) <==> cmd.Add? || ((cmd.Update? || cmd.Delete? || cmd.Mark?) && FindIndex(ts, cmd.id).Some?))
  {
  }

  /** Every command keeps the counter above all ids, and keeps ids distinct if they were. */
  lemma ApplyPreservesIds(ts: seq<Task>, counter: nat, cmd: Command, now: string)
    requires counter >= 1 && forall i :: 0 <= i < |ts| ==> ts[i].id < counter
    ensures var s := Apply(ts, counter, cmd, now);
            && s.counter >= NextId(s.tasks)
            && (UniqueIds(ts) ==> UniqueIds(s.tasks))
  {
    var s := Apply(ts, counter, cmd, now);
    if s.tasks != [] {
      var i :| 0 <= i < |s.tasks| && s.tasks[i].id == NextId(s.tasks) - 1;
      if cmd.Delete? && FindIndex(ts, cmd.id).Some? {
        var k := FindIndex(ts, cmd.id).value;
        assert i < k ==> s.tasks[i] == ts[i];
        assert i >= k ==> s.tasks[i] == ts[i + 1];
      }
    }
  }

  /** A command whose own description is non-empty leaves no task with an empty description. */
  lemma ApplyKeepsDescriptions(ts: seq<Task>, counter: nat, cmd: Command, now: string)
    requires forall i :: 0 <= i < |ts| ==> ts[i].description != []
    requires (cmd.Add? || cmd.Update?) ==> cmd.description != []
    ensures var r := Apply(ts, counter, cmd, now).tasks;
            forall i :: 0 <= i < |r| ==> r[i].description != []
  {
    var r := Apply(ts, counter, cmd, now).tasks;
    match cmd
    case Add(description) =>
      assert forall i :: 0 <= i < |ts| ==> r[i] == ts[i];
    case Delete(id) =>
      if FindIndex(ts, id).Some? {
        var k := FindIndex(ts, id).value;
        assert forall i :: 0 <= i < |r| ==> r[i] == ts[if i < k then i else i + 1];
      }
    case _ =>
  }

  /** No run leaves a task with an empty description when the loaded list had none. */
  lemma DescriptionsStayNonEmpty(loaded: seq<Task>, args: seq<string>, now: string)
    requires forall i :: 0 <= i < |loaded| ==> loaded[i].description != []
    ensures var r := Invocation(loaded, args, now).tasks;
            forall i :: 0 <= i < |r| ==> r[i].description != []
  {
    ApplyKeepsDescriptions(loaded, NextId(loaded), Parse(args), now);
  }

  /** In one run an accepted add receives the next id of the loaded list, and the next id then moves up by one. */
  lemma AddAssignsNextId(loaded: seq<Task>, args: seq<string>, now: string)
    requires Parse(args).Add?
    ensures Invocation(loaded, args, now).outcome.task.id == NextId(loaded)
    ensures NextId(Invocation(loaded, args, now).tasks) == NextId(loaded) + 1
    ensures Invocation(loaded, args, now).tasks == loaded + [Invocation(loaded, args, now).outcome.task]
  {
    NextIdAfterAdd(loaded, Invocation(loaded, args, now).outcome.task);
  }

  // ---------------------------------------------------------------------------
  // Runs on a one-task list

  /** A command followed by one trimmed word is parsed with that word as its payload. */
  lemma ParseOfWord(name: string, word: string)
    requires Trimmed(word)
    ensures Parse([name, word]) == ParseCommand(name, word)
  {
    assert [name, word][1..] == [word];
    TrimUnchanged(word);
  }

  /** A run whose arguments are a command name and one trimmed word applies that word's command to the loaded list. */
  lemma InvocationOfWord(loaded: seq<Task>, name: string, word: string, now: string)
    requires Trimmed(word)
    ensures Invocation(loaded, [name, word], now) == Apply(loaded, NextId(loaded), ParseCommand(name, word), now)
  {
    ParseOfWord(name, word);
  }

  /** `add <description>` on an empty list creates task 1, `todo`, with both timestamps set to the clock reading. */
  lemma AddToEmpty(description: string, now: string)
    requires description != [] && Trimmed(description)
    ensures var t := Task(1, description, Todo, now, now);
            Invocation([], ["add", description], now) == Step(Added(t), [t], 2)
  {
    InvocationOfWord([], "add", description, now);
  }

  /** `mark-<status> <id>` for the only task sets its status and update time and reports the changed task. */
  lemma MarkOnlyTask(t: Task, status: Status, now: string)
    ensures var marked := t.(status := status, updatedAt := now);
            Invocation([t], [MarkName(status), DecimalString(t.id)], now) == Step(Marked(marked), [marked], t.id + 1)
  {
    var word := DecimalString(t.id);
    var marked := t.(status := status, updatedAt := now);
    DecimalStringTrimmed(t.id);
    InvocationOfWord([t], MarkName(status), word, now);
    assert ParseCommand(MarkName(status), word) == Mark(t.id, status) by {
      MarkOfStatus(status, word);
      ParseIdRoundTrip(t.id);
    }
    assert NextId([t]) == t.id + 1;
    assert FindIndex([t], t.id) == Some(0);
    assert SetStatus([t], t.id, status, now) == [marked];
  }

  /** A status name is a trimmed word, and `list` reads it back as that status. */
  lemma ListOfStatusName(status: Status)
    ensures Trimmed(StatusName(status))
    ensures ParseCommand("list", StatusName(status)) == List(Some(status))
  {
    match status
    case Todo =>
    case InProgress =>
    case Done =>
  }

  /** Listing a one-task list by status shows the task exactly when it has that status. */
  lemma ListOfOneTask(t: Task, status: Status, now: string)
    ensures Apply([t], NextId([t]), List(Some(status)), now) ==
            Step(Listed(if t.status == status then [t] else []), [t], t.id + 1)
  {
    assert NextId([t]) == t.id + 1;
    FilterSingle(t, status);
  }

  /** `list <status>` on a one-task list shows the task exactly when it has that status. */
  lemma ListOnlyTask(t: Task, status: Status, now: string)
    ensures Invocation([t], ["list", StatusName(status)], now) ==
            Step(Listed(if t.status == status then [t] else []), [t], t.id + 1)
  {
    ListOfStatusName(status);
    InvocationOfWord([t], "list", StatusName(status), now);
    ListOfOneTask(t, status, now);
  }

  /** Two words after the command name, the first without leading and the second without trailing white space, are joined by one space. */
  lemma PayloadOfTwoWords(name: string, first: string, second: string)
    requires first != [] && !IsSpace(first[0])
    requires second != [] && !IsSpace(second[|second| - 1])
    ensures Payload([name, first, second]) == first + " " + second
  {
    var args := [name, first, second];
    assert args[1..] == [first, second];
    assert args[1..][1..] == [second];
    TrimUnchanged(first + " " + second);
  }

  /** `update <id> <description>`, as two words, is read as that id and description. */
  lemma ParseUpdateWords(id: nat, description: string)
    requires description != [] && Trimmed(description) && NoLineTerminator(description)
    ensures Parse(["update", DecimalString(id), description]) == Update(id, description)
  {
    PayloadOfTwoWords("update", DecimalString(id), description);
    UpdateRoundTrip(id, description);
  }

  /** An update of a one-task list changes that task when the id is its id, and is reported as not found otherwise. */
  lemma UpdateOfOneTask(t: Task, id: nat, description: string, now: string)
    ensures Apply([t], NextId([t]), Update(id, description), now) ==
            if id == t.id then Step(Updated(id, description), [t.(description := description, updatedAt := now)], t.id + 1)
            else Step(NotFound(id), [t], t.id + 1)
  {
    assert NextId([t]) == t.id + 1;
    if id == t.id {
      assert FindIndex([t], id) == Some(0);
      assert UpdateDescription([t], id, description, now) == [t.(description := description, updatedAt := now)];
    } else {
      assert FindIndex([t], id) == None;
    }
  }

  /** `update <id> <description>` updates the only task when the id is its id, and otherwise reports the id as not found. */
  lemma UpdateOnlyTask(t: Task, id: nat, description: string, now: string)
    requires description != [] && Trimmed(description) && NoLineTerminator(description)
    ensures Invocation([t], ["update", DecimalString(id), description], now) ==
            if id == t.id then Step(Updated(id, description), [t.(description := description, updatedAt := now)], t.id + 1)
            else Step(NotFound(id), [t], t.id + 1)
  {
    ParseUpdateWords(id, description);
    UpdateOfOneTask(t, id, description, now);
  }

  /** `delete <id>` for the only task empties the list and reports the deleted task. */
  lemma DeleteOnlyTask(t: Task, now: string)
    ensures Invocation([t], ["delete", DecimalString(t.id)], now) == Step(Deleted(t), [], t.id + 1)
  {
    var word := DecimalString(t.id);
    DecimalStringTrimmed(t.id);
    InvocationOfWord([t], "delete", word, now);
    assert ParseCommand("delete", word) == Delete(t.id) by {
      ParseIdRoundTrip(t.id);
    }
    assert NextId([t]) == t.id + 1;
    assert FindIndex([t], t.id) == Some(0);
  }

  /** Once the only task is deleted, the next run's add is given id 1 again: ids are reissued across runs. */
  lemma IdReissuedAfterDelete(t: Task, description: string, now: string, later: string)
    requires description != [] && Trimmed(description)
    ensures var emptied := Invocation([t], ["delete", DecimalString(t.id)], now).tasks;
            Invocation(emptied, ["add", description], later).outcome == Added(Task(1, description, Todo, later, later))
  {
    DeleteOnlyTask(t, now);
    AddToEmpty(description, later);
  }
}
