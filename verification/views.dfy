/** The two read-only views of the store: tasks grouped by status (GET /tasks)
    and per-status counts (GET /tasks/summary). */
module TaskViews {
  import opened Wrappers
  import opened Tasks
  import opened TaskStore

  datatype Groups = Groups(todo: seq<Task>, doing: seq<Task>, done: seq<Task>)

  datatype Summary = Summary(todo: nat, doing: nat, done: nat, total: nat)

  /** Array `filter` keeping the tasks whose status is exactly `st`. */
  function WithStatus(ts: seq<Task>, st: string): (r: seq<Task>)
    ensures |r| <= |ts|
    ensures forall k :: 0 <= k < |r| ==> r[k].status == st && r[k] in ts
    ensures forall t :: t in ts && t.status == st ==> t in r
    ensures (forall k :: 0 <= k < |ts| ==> ts[k].status == st) ==> r == ts
    decreases |ts|
  {
    if |ts| == 0 then []
    else
      var rest := WithStatus(ts[1..], st);
      assert ts == [ts[0]] + ts[1..];
      if ts[0].status == st then
        assert forall k :: 0 < k < |[ts[0]] + rest| ==> ([ts[0]] + rest)[k] == rest[k - 1];
        [ts[0]] + rest
      else rest
  }

  /** The filter is order-preserving: it distributes over concatenation. */
  lemma {:induction false} WithStatusAppend(a: seq<Task>, b: seq<Task>, st: string)
    ensures WithStatus(a + b, st) == WithStatus(a, st) + WithStatus(b, st)
    decreases |a|
  {
    if |a| == 0 {
      assert a + b == b;
    } else {
      assert (a + b)[1..] == a[1..] + b;
      assert (a + b)[0] == a[0];
      WithStatusAppend(a[1..], b, st);
    }
  }

  /** Filtering a list with a task in front keeps that task iff its status matches. */
  lemma WithStatusCons(t: Task, ts: seq<Task>, st: string)
    ensures WithStatus([t] + ts, st) == (if t.status == st then [t] else []) + WithStatus(ts, st)
  {
    assert ([t] + ts)[1..] == ts;
  }

  /** How many tasks carry one of the three valid statuses. */
  function CountValid(ts: seq<Task>): (n: nat)
    ensures n <= |ts|
    ensures n == |ts| <==> StatusesValid(ts)
    decreases |ts|
  {
    if |ts| == 0 then 0
    else
      var rest := CountValid(ts[1..]);
      assert StatusesValid(ts) <==> ValidStatus(ts[0].status) && StatusesValid(ts[1..]) by {
        if ValidStatus(ts[0].status) && StatusesValid(ts[1..]) {
          forall k | 0 < k < |ts| ensures ValidStatus(ts[k].status) {
            assert ts[k] == ts[1..][k - 1];
          }
        }
        if StatusesValid(ts) {
          forall k | 0 <= k < |ts[1..]| ensures ValidStatus(ts[1..][k].status) {
            assert ts[1..][k] == ts[k + 1];
          }
        }
      }
      (if ValidStatus(ts[0].status) then 1 else 0) + rest
  }

  /** The three status filters split exactly the validly-statused tasks. */
  lemma {:induction false} GroupSizes(ts: seq<Task>)
    ensures |WithStatus(ts, Todo)| + |WithStatus(ts, Doing)| + |WithStatus(ts, Done)| == CountValid(ts)
    decreases |ts|
  {
    if |ts| > 0 {
      GroupSizes(ts[1..]);
    }
  }

  /** GET /tasks: for each status, the tasks carrying it. A task with a status
      outside the three appears in no group. The contract states membership
      only; that each group keeps list order is carried by `WithStatusAppend`
      and `WithStatusCons`, and `GroupAfterCreate` states it for a create,
      which puts the new task at the end of its group. */
  function Group(s: Store): (g: Groups)
    ensures forall t :: t in g.todo <==> t in s.tasks && t.status == Todo
    ensures forall t :: t in g.doing <==> t in s.tasks && t.status == Doing
    ensures forall t :: t in g.done <==> t in s.tasks && t.status == Done
    ensures |g.todo| + |g.doing| + |g.done| == |s.tasks| <==> StatusesValid(s.tasks)
  {
    GroupSizes(s.tasks);
    Groups(WithStatus(s.tasks, Todo), WithStatus(s.tasks, Doing), WithStatus(s.tasks, Done))
  }

  /** After a successful create the new task is appended to the end of the
      group of its status, and the other groups are unchanged. */
  lemma GroupAfterCreate(s: Store, title: Option<string>, description: Option<string>, status: Option<string>)
    requires Truthy(title)
    ensures var (res, s') := Create(s, title, description, status);
      var t := res.value;
      && Group(s').todo == Group(s).todo + (if t.status == Todo then [t] else [])
      && Group(s').doing == Group(s).doing + (if t.status == Doing then [t] else [])
      && Group(s').done == Group(s).done + (if t.status == Done then [t] else [])
  {
    var (res, s') := Create(s, title, description, status);
    var t := res.value;
    assert [t] == [t] + [];
    WithStatusCons(t, [], Todo);
    WithStatusCons(t, [], Doing);
    WithStatusCons(t, [], Done);
    WithStatusAppend(s.tasks, [t], Todo);
    WithStatusAppend(s.tasks, [t], Doing);
    WithStatusAppend(s.tasks, [t], Done);
  }

  /** GET /tasks/summary: the group sizes and the list length. The three
      counts add up to the total exactly when every stored status is valid. */
  function Summarize(s: Store): (c: Summary)
    ensures c.todo == |Group(s).todo| && c.doing == |Group(s).doing| && c.done == |Group(s).done|
    ensures c.total == |s.tasks|
    ensures c.todo + c.doing + c.done == c.total <==> StatusesValid(s.tasks)
  {
    Summary(|WithStatus(s.tasks, Todo)|, |WithStatus(s.tasks, Doing)|, |WithStatus(s.tasks, Done)|, |s.tasks|)
  }
}
