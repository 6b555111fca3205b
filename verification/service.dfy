/** The handlers as one request/response state machine over the store, and
    what holds along any sequence of requests. */
module TaskService {
  import opened Wrappers
  import opened Tasks
  import opened TaskStore
  import opened TaskViews

  /** One request per route, with the path id already parsed and body fields
      absent (`None`) when the client did not send them. */
  datatype Request =
    | ListTasks
    | GetTask(id: int)
    | CreateTask(title: Option<string>, description: Option<string>, status: Option<string>)
    | UpdateTask(id: int, title: Option<string>, description: Option<string>, status: Option<string>)
    | ChangeTaskStatus(id: int, status: Option<string>)
    | DeleteTask(id: int)
    | GetSummary

  /** What a handler sends back; `Created` is the 201 reply, the others succeed with 200. */
  datatype Response =
    | Grouped(groups: Groups)
    | Found(task: Task)
    | Created(task: Task)
    | Deleted
    | Counted(summary: Summary)
    | Failed(error: Error)
  {
    function Code(): (code: int) {
      match this
      case Created(_) => 201
      case Failed(e) => e.Code()
      case _ => 200
    }
  }

  /** The reply of a handler that answers with one task or an error. */
  function Reply(res: Result<Task, Error>): (r: Response) {
    match res
    case Ok(t) => Found(t)
    case Err(e) => Failed(e)
  }

  /** One request handled against the store. Every handler keeps the store
      invariant, the read-only routes leave the store as it was, and only a
      successful create moves the id counter, by exactly one. */
  function Handle(s: Store, req: Request): (r: (Response, Store))
    ensures Valid(s) ==> Valid(r.1)
    ensures req.ListTasks? || req.GetTask? || req.GetSummary? ==> r.1 == s
    ensures r.0.Created? <==> req.CreateTask? && Truthy(req.title)
    ensures r.1.nextId == if r.0.Created? then s.nextId + 1 else s.nextId
    ensures r.0.Created? ==> r.0.task.id == s.nextId && r.1.tasks == s.tasks + [r.0.task]
    ensures r.0.Failed? ==> r.1 == s
  {
    match req
    case ListTasks => (Grouped(Group(s)), s)
    case GetTask(id) => (Reply(Find(s, id)), s)
    case CreateTask(title, description, status) =>
      var (res, s') := Create(s, title, description, status);
      (if res.Ok? then Created(res.value) else Failed(res.error), s')
    case UpdateTask(id, title, description, status) =>
      var (res, s') := Update(s, id, title, description, status);
      (Reply(res), s')
    case ChangeTaskStatus(id, status) =>
      var (res, s') := ChangeStatus(s, id, status);
      (Reply(res), s')
    case DeleteTask(id) =>
      var (res, s') := Delete(s, id);
      (if res.Ok? then Deleted else Failed(res.error), s')
    case GetSummary => (Counted(Summarize(s)), s)
  }

  /** A sequence of requests handled one after another from `s`. Every id a
      create hands out lies between the starting and the final counter, and
      ids are never reused: a later create always gets a larger id than an
      earlier one, whatever was deleted in between. */
  function Run(s: Store, reqs: seq<Request>): (r: (seq<Response>, Store))
    ensures |r.0| == |reqs|
    ensures Valid(s) ==> Valid(r.1)
    ensures s.nextId <= r.1.nextId
    ensures forall k :: 0 <= k < |r.0| && r.0[k].Created? ==> s.nextId <= r.0[k].task.id < r.1.nextId
    ensures forall i, j :: 0 <= i < j < |r.0| && r.0[i].Created? && r.0[j].Created? ==> r.0[i].task.id < r.0[j].task.id
    decreases |reqs|
  {
    if |reqs| == 0 then ([], s)
    else
      var (first, s1) := Handle(s, reqs[0]);
      var (rest, s2) := Run(s1, reqs[1..]);
      FrontIndex(first, rest);
      ([first] + rest, s2)
  }

  /** Running a request then a sequence is handling the first and running the rest. */
  lemma RunCons(s: Store, req: Request, reqs: seq<Request>)
    ensures var (r, s1) := Handle(s, req);
      Run(s, [req] + reqs) == ([r] + Run(s1, reqs).0, Run(s1, reqs).1)
  {
    assert ([req] + reqs)[1..] == reqs;
  }

  /** Asking for the same id twice with nothing in between gives the same reply
      and leaves the store untouched. */
  lemma GetIsIdempotent(s: Store, id: int)
    ensures var (r1, s1) := Handle(s, GetTask(id));
      var (r2, s2) := Handle(s1, GetTask(id));
      r1 == r2 && s2 == s
  {
  }

  /** A created task can be fetched by its id, and every other lookup answers
      as before. */
  lemma FindAfterCreate(s: Store, title: Option<string>, description: Option<string>,
                                         status: Option<string>, id: int)
    requires Valid(s) && Truthy(title)
    ensures var (res, s') := Create(s, title, description, status);
      && Find(s', s.nextId) == res
      && (id != s.nextId ==> Find(s', id) == Find(s, id))
  {
    var (res, s') := Create(s, title, description, status);
    assert s'.tasks[|s.tasks|] == res.value;
    if id != s.nextId {
      if HasId(s.tasks, id) {
        var i :| 0 <= i < |s.tasks| && s.tasks[i].id == id;
        assert s'.tasks[i] == s.tasks[i];
      } else {
        assert !HasId(s'.tasks, id) by {
          forall k | 0 <= k < |s'.tasks| ensures s'.tasks[k].id != id {
            if k < |s.tasks| { assert s'.tasks[k] == s.tasks[k]; }
          }
        }
      }
    }
  }

  /** After a delete the id is gone for good and every other lookup answers as
      before. */
  lemma FindAfterDelete(s: Store, id: int, other: int)
    requires Valid(s) && other != id
    ensures Find(Delete(s, id).1, id) == Err(NotFound)
    ensures Find(Delete(s, id).1, other) == Find(s, other)
  {
    SameLookup(s, Delete(s, id).1, other);
  }

  /** Creating a task and deleting it at once restores the list but not the
      counter: the deleted id is never handed out again. */
  lemma CreateThenDelete(s: Store, title: Option<string>, description: Option<string>, status: Option<string>)
    requires Valid(s) && Truthy(title)
    ensures var s1 := Create(s, title, description, status).1;
      Delete(s1, s.nextId) == (Ok(()), Store(s.tasks, s.nextId + 1))
  {
    var s1 := Create(s, title, description, status).1;
    assert s1.tasks[|s.tasks|].id == s.nextId;
    FindIndexUnique(s1.tasks, |s.tasks|);
    assert HasId(s1.tasks, s.nextId);
    var d := Delete(s1, s.nextId);
    assert d.1.tasks == s1.tasks[..|s.tasks|] + s1.tasks[|s.tasks| + 1..];
    assert s1.tasks[..|s.tasks|] == s.tasks;
    assert s1.tasks[|s.tasks| + 1..] == [];
    assert d.0.Ok?;
    assert d.0 == Ok(());
    assert d.1 == Store(s.tasks, s.nextId + 1);
  }

  /** A rewritten or re-statused task is what a later lookup returns. */
  lemma FindAfterUpdate(s: Store, id: int, title: Option<string>, description: Option<string>,
                                           status: Option<string>)
    requires Valid(s)
    ensures var (res, s') := Update(s, id, title, description, status);
      Find(s', id) == res
    ensures var (res, s') := ChangeStatus(s, id, status);
      res.Ok? ==> Find(s', id) == res
  {
    var (res, s') := Update(s, id, title, description, status);
    if res.Ok? {
      var i := FindIndex(s.tasks, id).value;
      assert s'.tasks[i] == res.value && res.value.id == id;
      assert Valid(s');
    }
    var (res2, s2) := ChangeStatus(s, id, status);
    if res2.Ok? {
      var i := FindIndex(s.tasks, id).value;
      assert s2.tasks[i] == res2.value && res2.value.id == id;
      assert Valid(s2);
    }
  }

  /** Changing to the same valid status twice is the same as changing it once. */
  lemma ChangeStatusIdempotent(s: Store, id: int, status: Option<string>)
    ensures var (r1, s1) := ChangeStatus(s, id, status);
      var (r2, s2) := ChangeStatus(s1, id, status);
      r2 == r1 && s2 == s1
  {
    var (r1, s1) := ChangeStatus(s, id, status);
    if r1.Ok? {
      var i := FindIndex(s.tasks, id).value;
      assert s1.tasks[i].id == id;
      assert FindIndex(s1.tasks, id) == Some(i) by {
        var j := FindIndex(s1.tasks, id);
        assert forall k :: 0 <= k < |s1.tasks| && k != i ==> s1.tasks[k] == s.tasks[k];
      }
    }
  }
}
