/**
 * The task records of the tracker and the rules by which the collection of
 * tasks changes, stated as functions on the collection's value.  The class in
 * repository.dfy performs these changes in place and is proved against them.
 */
module Tasks {

  datatype Option<T> = None | Some(value: T)

  /** Lifecycle state of a task. */
  datatype Status = Todo | InProgress | Done

  /** The text under which a status is stored and accepted on the command line. */
  function StatusName(s: Status): string
  {
    match s
    case Todo => "todo"
    case InProgress => "in-progress"
    case Done => "done"
  }

  /** Recognises exactly the three status names (the alternation `done|todo|in-progress`). */
  function ParseStatus(name: string): (r: Option<Status>)
    ensures r.Some? ==> StatusName(r.value) == name
    ensures forall s :: StatusName(s) == name ==> r == Some(s)
  {
    if name == "todo" then Some(Todo)
    else if name == "in-progress" then Some(InProgress)
    else if name == "done" then Some(Done)
    else None
  }

  /** A task record; the timestamps are clock readings kept as opaque text. */
  datatype Task = Task(id: nat, description: string, status: Status, createdAt: string, updatedAt: string)

  ghost predicate UniqueIds(ts: seq<Task>)
  {
    forall i, j :: 0 <= i < j < |ts| ==> ts[i].id != ts[j].id
  }

  /** `Math.max` over the ids of a non-empty collection. */
  function MaxId(ts: seq<Task>): (m: nat)
    requires |ts| > 0
    ensures forall i :: 0 <= i < |ts| ==> ts[i].id <= m
    ensures exists i :: 0 <= i < |ts| && ts[i].id == m
  {
    if |ts| == 1 then ts[0].id
    else
      var rest := MaxId(ts[1..]);
      assert forall i :: 1 <= i < |ts| ==> ts[i] == ts[1..][i - 1];
      if ts[0].id >= rest then ts[0].id else rest
  }

  /** The id the next added task receives: 1 for an empty collection, else one above the largest id. */
  function NextId(ts: seq<Task>): (n: nat)
    ensures n >= 1
    ensures forall i :: 0 <= i < |ts| ==> ts[i].id < n
    ensures ts == [] ==> n == 1
    ensures ts != [] ==> exists i :: 0 <= i < |ts| && ts[i].id == n - 1
  {
    if |ts| == 0 then 1 else MaxId(ts) + 1
  }

  /** Position of the first task carrying `id` (`findIndex`, with `None` for -1). */
  function FindIndex(ts: seq<Task>, id: nat): (r: Option<nat>)
    ensures r.None? <==> forall i :: 0 <= i < |ts| ==> ts[i].id != id
    ensures r.Some? ==> r.value < |ts| && ts[r.value].id == id
    ensures r.Some? ==> forall i :: 0 <= i < r.value ==> ts[i].id != id
  {
    if |ts| == 0 then None
    else if ts[0].id == id then Some(0)
    else
      assert forall i :: 1 <= i < |ts| ==> ts[i] == ts[1..][i - 1];
      match FindIndex(ts[1..], id)
      case None => None
      case Some(k) => Some(k + 1)
  }

  /** The collection after `update`: the first task with `id` gets a new description and update time. */
  function UpdateDescription(ts: seq<Task>, id: nat, description: string, now: string): (r: seq<Task>)
    ensures |r| == |ts|
    ensures forall i :: 0 <= i < |ts| && r[i] != ts[i] ==> FindIndex(ts, id) == Some(i)
    ensures FindIndex(ts, id).Some? ==>
              r[FindIndex(ts, id).value].description == description &&
              r[FindIndex(ts, id).value].updatedAt == now
    ensures forall i :: 0 <= i < |ts| ==>
              r[i].id == ts[i].id && r[i].status == ts[i].status && r[i].createdAt == ts[i].createdAt
    ensures UniqueIds(ts) ==> UniqueIds(r)
  {
    match FindIndex(ts, id)
    case None => ts
    case Some(k) => ts[k := ts[k].(description := description, updatedAt := now)]
  }

  /** The collection after a `mark-*` command: the first task with `id` gets the status and update time. */
  function SetStatus(ts: seq<Task>, id: nat, status: Status, now: string): (r: seq<Task>)
    ensures |r| == |ts|
    ensures forall i :: 0 <= i < |ts| && r[i] != ts[i] ==> FindIndex(ts, id) == Some(i)
    ensures FindIndex(ts, id).Some? ==>
              r[FindIndex(ts, id).value].status == status &&
              r[FindIndex(ts, id).value].updatedAt == now
    ensures forall i :: 0 <= i < |ts| ==>
              r[i].id == ts[i].id && r[i].description == ts[i].description && r[i].createdAt == ts[i].createdAt
    ensures UniqueIds(ts) ==> UniqueIds(r)
  {
    match FindIndex(ts, id)
    case None => ts
    case Some(k) => ts[k := ts[k].(status := status, updatedAt := now)]
  }

  /** The collection after `delete`: the first task with `id` is taken out, the rest keep their order. */
  function RemoveFirst(ts: seq<Task>, id: nat): (r: seq<Task>)
    ensures FindIndex(ts, id).None? ==> r == ts
    ensures FindIndex(ts, id).Some? ==>
              var k := FindIndex(ts, id).value;
              && |r| == |ts| - 1
              && (forall i :: 0 <= i < k ==> r[i] == ts[i])
              && (forall i :: k <= i < |r| ==> r[i] == ts[i + 1])
    ensures FindIndex(ts, id).Some? ==> multiset(r) + multiset{ts[FindIndex(ts, id).value]} == multiset(ts)
    ensures UniqueIds(ts) ==> UniqueIds(r) && forall i :: 0 <= i < |r| ==> r[i].id != id
  {
    match FindIndex(ts, id)
    case None => ts
    case Some(k) =>
      assert ts == ts[..k] + [ts[k]] + ts[k + 1..];
      ts[..k] + ts[k + 1..]
  }

  /** The tasks whose status is `status` (`tasks.filter(task => task.status === ...)`). */
  function Filter(ts: seq<Task>, status: Status): (r: seq<Task>)
    ensures |r| <= |ts|
    ensures forall k :: 0 <= k < |r| ==> r[k].status == status
  {
    if ts == [] then []
    else
      var init := ts[..|ts| - 1];
      assert ts == init + [ts[|ts| - 1]];
      Filter(init, status) + (if ts[|ts| - 1].status == status then [ts[|ts| - 1]] else [])
  }

  /** The positions of the tasks whose status is `status`, in increasing order. */
  ghost function MatchingPositions(ts: seq<Task>, status: Status): seq<nat>
  {
    if ts == [] then []
    else
      MatchingPositions(ts[..|ts| - 1], status) + (if ts[|ts| - 1].status == status then [|ts| - 1] else [])
  }

  /** A one-task collection is listed when its task has the status, and is empty otherwise. */
  lemma FilterSingle(t: Task, status: Status)
    ensures Filter([t], status) == if t.status == status then [t] else []
  {
    assert [t][..0] == [];
  }

  /** The matching positions are in range, strictly increasing, and are exactly the positions whose task has the status. */
  lemma {:induction false} MatchingPositionsExact(ts: seq<Task>, status: Status)
    ensures var p := MatchingPositions(ts, status);
            && (forall k :: 0 <= k < |p| ==> p[k] < |ts|)
            && (forall k, l :: 0 <= k < l < |p| ==> p[k] < p[l])
            && (forall i :: 0 <= i < |ts| ==> (ts[i].status == status <==> i in p))
  {
    if ts != [] {
      var n := |ts| - 1;
      var init := ts[..n];
      MatchingPositionsExact(init, status);
      assert forall i :: 0 <= i < n ==> ts[i] == init[i];
    }
  }

  /** Filtering is exactly picking the tasks at the matching positions, in their original order. */
  lemma {:induction false} FilterPicksMatchingPositions(ts: seq<Task>, status: Status)
    ensures var r, p := Filter(ts, status), MatchingPositions(ts, status);
            && |p| == |r|
            && (forall k :: 0 <= k < |p| ==> p[k] < |ts| && ts[p[k]] == r[k])
  {
    if ts != [] {
      var n := |ts| - 1;
      var init := ts[..n];
      FilterPicksMatchingPositions(init, status);
      var r0, p0 := Filter(init, status), MatchingPositions(init, status);
      assert forall k :: 0 <= k < |p0| ==> ts[p0[k]] == init[p0[k]];
      if ts[n].status == status {
        assert Filter(ts, status) == r0 + [ts[n]];
        assert MatchingPositions(ts, status) == p0 + [n];
      } else {
        assert Filter(ts, status) == r0;
        assert MatchingPositions(ts, status) == p0;
      }
    }
  }

  /** Filtering distributes over concatenation: relative order is kept. */
  lemma {:induction false} FilterAppend(a: seq<Task>, b: seq<Task>, status: Status)
    ensures Filter(a + b, status) == Filter(a, status) + Filter(b, status)
  {
    if b == [] {
      assert a + b == a;
    } else {
      var n := |b| - 1;
      var ab := a + b;
      var last: seq<Task> := if b[n].status == status then [b[n]] else [];
      assert ab[..|ab| - 1] == a + b[..n];
      assert ab[|ab| - 1] == b[n];
      assert Filter(ab, status) == Filter(a + b[..n], status) + last;
      FilterAppend(a, b[..n], status);
      assert Filter(b, status) == Filter(b[..n], status) + last;
    }
  }

  /** A task is listed exactly when it is in the collection and has the status. */
  lemma {:induction false} FilterMembers(ts: seq<Task>, status: Status, t: Task)
    ensures t in Filter(ts, status) <==> t in ts && t.status == status
  {
    if ts != [] {
      var n := |ts| - 1;
      FilterMembers(ts[..n], status, t);
      assert ts == ts[..n] + [ts[n]];
    }
  }

  /** Each task occurs in the filtered list as often as in the collection if it matches, else never. */
  lemma {:induction false} FilterCounts(ts: seq<Task>, status: Status, t: Task)
    ensures multiset(Filter(ts, status))[t] == if t.status == status then multiset(ts)[t] else 0
  {
    if ts != [] {
      var n := |ts| - 1;
      FilterCounts(ts[..n], status, t);
      assert ts == ts[..n] + [ts[n]];
    }
  }

  /** After an add whose id is the next id, the next id is one higher: successive adds count up. */
  lemma NextIdAfterAdd(ts: seq<Task>, t: Task)
    requires t.id == NextId(ts)
    ensures NextId(ts + [t]) == t.id + 1
  {
    var us := ts + [t];
    assert us[|ts|] == t;
    assert forall i :: 0 <= i < |ts| ==> us[i] == ts[i];
  }

  /** The next id depends on the ids alone; update and status changes leave it as it was. */
  lemma NextIdDependsOnIds(ts: seq<Task>, us: seq<Task>)
    requires |ts| == |us|
    requires forall i :: 0 <= i < |ts| ==> ts[i].id == us[i].id
    ensures NextId(ts) == NextId(us)
  {
    if ts != [] {
      var m, n := NextId(ts), NextId(us);
      var i :| 0 <= i < |ts| && ts[i].id == m - 1;
      var j :| 0 <= j < |us| && us[j].id == n - 1;
      assert us[i].id < n && ts[j].id < m;
    }
  }

  /** Deleting never raises the next id; once the largest id is deleted the next id may fall back to it. */
  lemma NextIdAfterRemove(ts: seq<Task>, id: nat)
    ensures NextId(RemoveFirst(ts, id)) <= NextId(ts)
  {
    var r := RemoveFirst(ts, id);
    if r != [] {
      var i :| 0 <= i < |r| && r[i].id == NextId(r) - 1;
      assert r[i] in multiset(r);
      if FindIndex(ts, id).Some? {
        assert r[i] in multiset(ts);
      }
      assert r[i] in ts;
    }
  }
}
