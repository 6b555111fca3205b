/** The in-memory store behind the handlers: the task list and the id counter,
    with each mutating handler written as a pure transition on the pair. */
module TaskStore {
  import opened Wrappers
  import opened Tasks

  /** The process-wide state: tasks in insertion order and the next id to hand out. */
  datatype Store = Store(tasks: seq<Task>, nextId: int)

  /** The store invariant: ids are positive, strictly increasing in list
      order (hence distinct) and all below the counter. */
  predicate Valid(s: Store) {
    && 1 <= s.nextId
    && IdsWithin(s.tasks, 1, s.nextId)
    && IdsIncreasing(s.tasks)
  }

  /** The state at process start: no tasks, counter at 1. */
  function Init(): (s: Store)
    ensures Valid(s)
    ensures forall id :: !HasId(s.tasks, id)
    ensures s.nextId == 1
  {
    Store([], 1)
  }

  /** Array `find` on ids: the position of the first task carrying `id`. */
  function FindIndex(ts: seq<Task>, id: int): (r: Option<nat>)
    ensures r.Some? <==> HasId(ts, id)
    ensures r.Some? ==> r.value < |ts| && ts[r.value].id == id
    ensures r.Some? ==> forall j :: 0 <= j < r.value ==> ts[j].id != id
    decreases |ts|
  {
    if |ts| == 0 then None
    else if ts[0].id == id then Some(0)
    else
      match FindIndex(ts[1..], id)
      case None => assert !HasId(ts, id) by {
          forall i | 0 <= i < |ts| ensures ts[i].id != id {
            if i > 0 { assert ts[i] == ts[1..][i - 1]; }
          }
        }
        None
      case Some(k) => assert ts[1..][k] == ts[k + 1]; Some(k + 1)
  }

  /** With increasing ids the first match for a stored id is its only position. */
  lemma FindIndexUnique(ts: seq<Task>, i: int)
    requires IdsIncreasing(ts)
    requires 0 <= i < |ts|
    ensures FindIndex(ts, ts[i].id) == Some(i)
  {
    var r := FindIndex(ts, ts[i].id);
    assert r.Some?;
    var k := r.value;
    assert k <= i;
  }

  /** GET /tasks/:id: the first task with the id, or NotFound. */
  function Find(s: Store, id: int): (r: Result<Task, Error>)
    ensures r.Ok? <==> HasId(s.tasks, id)
    ensures r.Ok? ==> r.value.id == id && r.value in s.tasks
    ensures r.Err? ==> r.error == NotFound
    ensures Valid(s) ==> forall i :: 0 <= i < |s.tasks| && s.tasks[i].id == id ==> r == Ok(s.tasks[i])
  {
    match FindIndex(s.tasks, id)
    case None => Err(NotFound)
    case Some(i) =>
      assert Valid(s) ==> forall j :: 0 <= j < |s.tasks| && s.tasks[j].id == id ==> j == i by {
        if Valid(s) {
          forall j | 0 <= j < |s.tasks| && s.tasks[j].id == id ensures j == i {
            FindIndexUnique(s.tasks, j);
          }
        }
      }
      Ok(s.tasks[i])
  }

  /** Two valid stores that hold the same tasks with a given id answer a
      lookup of that id alike. */
  lemma SameLookup(s: Store, s': Store, id: int)
    requires Valid(s) && Valid(s')
    requires forall t: Task :: t.id == id ==> (t in s.tasks <==> t in s'.tasks)
    ensures Find(s, id) == Find(s', id)
  {
    if HasId(s.tasks, id) {
      var i :| 0 <= i < |s.tasks| && s.tasks[i].id == id;
      assert s.tasks[i] in s'.tasks;
    } else {
      assert forall k :: 0 <= k < |s'.tasks| ==> s'.tasks[k].id != id by {
        forall k | 0 <= k < |s'.tasks| ensures s'.tasks[k].id != id {
          var t := s'.tasks[k];
          assert t in s'.tasks;
        }
      }
    }
  }

  /** POST /tasks. A missing or empty title is rejected before the counter
      moves; otherwise the new task takes the counter's value, gets the
      description and status defaults, and goes to the end of the list. */
  function Create(s: Store, title: Option<string>, description: Option<string>, status: Option<string>)
    : (r: (Result<Task, Error>, Store))
    ensures r.0.Err? <==> !Truthy(title)
    ensures r.0.Err? ==> r.0.error == TitleRequired && r.1 == s
    ensures r.0.Ok? ==>
      && r.0.value == Task(s.nextId, title.value, Or(description, ""), Or(status, Todo))
      && r.1.tasks == s.tasks + [r.0.value]
      && r.1.nextId == s.nextId + 1
    ensures Valid(s) ==> Valid(r.1)
  {
    if !Truthy(title) then (Err(TitleRequired), s)
    else
      var t := Task(s.nextId, title.value, Or(description, ""), Or(status, Todo));
      (Ok(t), Store(s.tasks + [t], s.nextId + 1))
  }

  /** The field-wise merge of PUT: each field is replaced by the supplied value
      when that value is truthy and kept otherwise; the id never changes. */
  predicate MergedFrom(t: Task, t': Task, title: Option<string>, description: Option<string>, status: Option<string>) {
    && t'.id == t.id
    && (if Truthy(title) then t'.title == title.value else t'.title == t.title)
    && (if Truthy(description) then t'.description == description.value else t'.description == t.description)
    && (if Truthy(status) then t'.status == status.value else t'.status == t.status)
  }

  /** Replacing one task by one with the same id keeps the id invariant. */
  lemma ReplaceKeepsValid(s: Store, i: int, t: Task)
    requires Valid(s)
    requires 0 <= i < |s.tasks| && t.id == s.tasks[i].id
    ensures Valid(Store(s.tasks[i := t], s.nextId))
  {
    var ts := s.tasks[i := t];
    assert forall k :: 0 <= k < |ts| ==> ts[k].id == s.tasks[k].id;
  }

  /** PUT /tasks/:id. NotFound leaves the store alone; otherwise only the first
      task with the id is rewritten, field by field. */
  function Update(s: Store, id: int, title: Option<string>, description: Option<string>, status: Option<string>)
    : (r: (Result<Task, Error>, Store))
    ensures r.0.Err? <==> !HasId(s.tasks, id)
    ensures r.0.Err? ==> r.0.error == NotFound && r.1 == s
    ensures r.0.Ok? ==>
      var i := FindIndex(s.tasks, id).value;
      && MergedFrom(s.tasks[i], r.0.value, title, description, status)
      && r.1.tasks == s.tasks[i := r.0.value]
      && r.1.nextId == s.nextId
    ensures Valid(s) ==> Valid(r.1)
  {
    match FindIndex(s.tasks, id)
    case None => (Err(NotFound), s)
    case Some(i) =>
      var t := s.tasks[i];
      var t' := t.(title := Or(title, t.title), description := Or(description, t.description),
                   status := Or(status, t.status));
      var s' := Store(s.tasks[i := t'], s.nextId);
      assert Valid(s) ==> Valid(s') by {
        if Valid(s) { ReplaceKeepsValid(s, i, t'); }
      }
      (Ok(t'), s')
  }

  /** PATCH /tasks/:id/status. Existence is checked first, then the status
      against todo/doing/done; only the status field of that task changes. */
  function ChangeStatus(s: Store, id: int, status: Option<string>): (r: (Result<Task, Error>, Store))
    ensures r.0 == Err(NotFound) <==> !HasId(s.tasks, id)
    ensures r.0 == Err(InvalidStatus) <==> HasId(s.tasks, id) && !(status.Some? && ValidStatus(status.value))
    ensures r.0.Ok? <==> HasId(s.tasks, id) && status.Some? && ValidStatus(status.value)
    ensures r.0.Err? ==> r.1 == s
    ensures r.0.Ok? ==>
      var i := FindIndex(s.tasks, id).value;
      && status.Some? && ValidStatus(status.value)
      && r.0.value == s.tasks[i].(status := status.value)
      && r.1.tasks == s.tasks[i := r.0.value]
      && r.1.nextId == s.nextId
    ensures Valid(s) ==> Valid(r.1)
    ensures StatusesValid(s.tasks) ==> StatusesValid(r.1.tasks)
  {
    match FindIndex(s.tasks, id)
    case None => (Err(NotFound), s)
    case Some(i) =>
      if !(status.Some? && ValidStatus(status.value)) then (Err(InvalidStatus), s)
      else
        var t' := s.tasks[i].(status := status.value);
        var s' := Store(s.tasks[i := t'], s.nextId);
        assert Valid(s) ==> Valid(s') by {
          if Valid(s) { ReplaceKeepsValid(s, i, t'); }
        }
        (Ok(t'), s')
  }

  /** Array `filter` dropping every task that carries `id`. */
  function Without(ts: seq<Task>, id: int): (r: seq<Task>)
    ensures |r| <= |ts|
    ensures |r| == |ts| <==> !HasId(ts, id)
    ensures !HasId(ts, id) ==> r == ts
    ensures !HasId(r, id)
    ensures forall k :: 0 <= k < |r| ==> r[k] in ts
    ensures forall t :: t in ts && t.id != id ==> t in r
    decreases |ts|
  {
    if |ts| == 0 then []
    else
      var rest := Without(ts[1..], id);
      HasIdFront(ts[0], ts[1..], id);
      assert ts == [ts[0]] + ts[1..];
      if ts[0].id == id then rest
      else
        HasIdFront(ts[0], rest, id);
        FrontIndex(ts[0], rest);
        [ts[0]] + rest
  }

  /** A list with a task in front has an id iff the front task or the rest does. */
  lemma HasIdFront(t: Task, ts: seq<Task>, id: int)
    ensures HasId([t] + ts, id) <==> t.id == id || HasId(ts, id)
  {
    var r := [t] + ts;
    if t.id == id {
      assert r[0] == t;
    }
    if HasId(ts, id) {
      var i :| 0 <= i < |ts| && ts[i].id == id;
      assert r[i + 1] == ts[i];
    }
    if HasId(r, id) && t.id != id {
      var i :| 0 <= i < |r| && r[i].id == id;
      assert r[i] == ts[i - 1];
    }
  }

  /** Positions after the front of `[t] + ts` are the positions of `ts`. */
  lemma FrontIndex<T>(t: T, ts: seq<T>)
    ensures forall k :: 0 < k < |[t] + ts| ==> ([t] + ts)[k] == ts[k - 1]
  {
    forall k | 0 < k < |[t] + ts| ensures ([t] + ts)[k] == ts[k - 1] {
    }
  }

  /** Dropping ids keeps the remaining ids increasing. */
  lemma {:induction false} WithoutKeepsIncreasing(ts: seq<Task>, id: int)
    requires IdsIncreasing(ts)
    ensures IdsIncreasing(Without(ts, id))
    decreases |ts|
  {
    if |ts| > 0 {
      IncreasingTail(ts);
      WithoutKeepsIncreasing(ts[1..], id);
      if ts[0].id != id {
        var rest := Without(ts[1..], id);
        assert Without(ts, id) == [ts[0]] + rest;
        forall k | 0 <= k < |rest| ensures ts[0].id < rest[k].id {
          HeadBelowTail(ts, rest[k]);
        }
        ConsIncreasing(ts[0], rest);
      }
    }
  }

  /** In an increasing list the head's id is below the id of any later task. */
  lemma HeadBelowTail(ts: seq<Task>, t: Task)
    requires IdsIncreasing(ts) && |ts| > 0 && t in ts[1..]
    ensures ts[0].id < t.id
  {
    var m :| 0 <= m < |ts[1..]| && ts[1..][m] == t;
    assert ts[m + 1] == t;
  }

  /** A task whose id is below every id of an increasing list can go in front. */
  lemma ConsIncreasing(t: Task, rest: seq<Task>)
    requires IdsIncreasing(rest)
    requires forall k :: 0 <= k < |rest| ==> t.id < rest[k].id
    ensures IdsIncreasing([t] + rest)
  {
    var r := [t] + rest;
    forall a, b | 0 <= a < b < |r| ensures r[a].id < r[b].id {
      assert r[b] == rest[b - 1];
      if a > 0 { assert r[a] == rest[a - 1]; }
    }
  }

  /** With increasing ids, dropping the id at position `i` removes exactly that position. */
  lemma {:induction false} WithoutAt(ts: seq<Task>, i: int)
    requires IdsIncreasing(ts)
    requires 0 <= i < |ts|
    ensures Without(ts, ts[i].id) == ts[..i] + ts[i + 1..]
    decreases |ts|
  {
    var id := ts[i].id;
    IncreasingTail(ts);
    if i == 0 {
      assert !HasId(ts[1..], id) by {
        forall k | 0 <= k < |ts[1..]| ensures ts[1..][k].id != id {
          assert ts[1..][k] == ts[k + 1];
        }
      }
      assert ts[..0] + ts[1..] == ts[1..];
    } else {
      var tail := ts[1..];
      assert tail[i - 1] == ts[i];
      assert ts[0].id != id;
      WithoutAt(tail, i - 1);
      assert Without(ts, id) == [ts[0]] + Without(tail, id);
      ConsSkip(ts, i);
    }
  }

  /** Removing position `i > 0` is keeping the head and removing `i - 1` from the tail. */
  lemma ConsSkip<T>(ts: seq<T>, i: int)
    requires 0 < i < |ts|
    ensures [ts[0]] + (ts[1..][..i - 1] + ts[1..][i..]) == ts[..i] + ts[i + 1..]
  {
    assert ts[1..][..i - 1] == ts[1..i];
    assert ts[1..][i..] == ts[i + 1..];
    assert ts[..i] == [ts[0]] + ts[1..i];
  }

  /** Dropping the head keeps ids increasing. */
  lemma IncreasingTail(ts: seq<Task>)
    requires IdsIncreasing(ts) && |ts| > 0
    ensures IdsIncreasing(ts[1..])
  {
    forall a, b | 0 <= a < b < |ts[1..]| ensures ts[1..][a].id < ts[1..][b].id {
      assert ts[1..][a] == ts[a + 1] && ts[1..][b] == ts[b + 1];
    }
  }

  /** DELETE /tasks/:id. The list is filtered and NotFound is reported when its
      length did not change; the counter never moves, so ids are not reused. */
  function Delete(s: Store, id: int): (r: (Result<(), Error>, Store))
    ensures r.0.Err? <==> !HasId(s.tasks, id)
    ensures r.0.Err? ==> r.0.error == NotFound && r.1 == s
    ensures r.1.nextId == s.nextId
    ensures !HasId(r.1.tasks, id)
    ensures forall t :: t in s.tasks && t.id != id ==> t in r.1.tasks
    ensures forall t :: t in r.1.tasks ==> t in s.tasks
    ensures Valid(s) ==> Valid(r.1)
    ensures Valid(s) && r.0.Ok? ==>
      var i := FindIndex(s.tasks, id).value;
      && r.1.tasks == s.tasks[..i] + s.tasks[i + 1..]
      && |r.1.tasks| == |s.tasks| - 1
  {
    var kept := Without(s.tasks, id);
    var s' := Store(kept, s.nextId);
    assert Valid(s) ==> Valid(s') by {
      if Valid(s) { WithoutKeepsIncreasing(s.tasks, id); }
    }
    if |kept| == |s.tasks| then
      (Err(NotFound), s')
    else
      assert Valid(s) ==> kept == s.tasks[..FindIndex(s.tasks, id).value] + s.tasks[FindIndex(s.tasks, id).value + 1..] by {
        if Valid(s) { WithoutAt(s.tasks, FindIndex(s.tasks, id).value); }
      }
      (Ok(()), s')
  }
}
