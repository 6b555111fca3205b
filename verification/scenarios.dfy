/** Concrete request sequences: defaults on create, grouping and counting four
    tasks, a refused status change, a description-only update, deletes of a
    missing and a stored id, and a store whose statuses stop being valid. */
module TaskScenarios {
  import opened Wrappers
  import opened Tasks
  import opened TaskStore
  import opened TaskViews
  import opened TaskService

  /** A create request with a title and a status and no description. */
  function New(title: string, status: string): (req: Request) {
    CreateTask(Some(title), None, Some(status))
  }

  /** A bare create gets the empty description, the todo status, the counter's
      id and the 201 reply. */
  lemma CreateDefaults(s: Store)
    ensures var (r, s') := Handle(s, CreateTask(Some("Buy milk"), None, None));
      && r == Created(Task(s.nextId, "Buy milk", "", Todo))
      && r.Code() == 201
      && s'.nextId == s.nextId + 1
  {
  }

  /** Four creates with statuses todo, doing, doing, done group as 1, 2, 1 and
      summarise as 1, 2, 1 out of 4. */
  lemma GroupAndSummaryExample()
    ensures var s := Run(Init(), [New("a", Todo), New("b", Doing), New("c", Doing), New("d", Done)]).1;
      && |Group(s).todo| == 1 && |Group(s).doing| == 2 && |Group(s).done| == 1
      && Summarize(s) == Summary(1, 2, 1, 4)
  {
    var a, b, c, d := Task(1, "a", "", Todo), Task(2, "b", "", Doing), Task(3, "c", "", Doing), Task(4, "d", "", Done);
    FourCreates();
    FourGroups(a, b, c, d);
  }

  /** The four creates of the example, one store at a time. */
  lemma FourCreates()
    ensures Run(Init(), [New("a", Todo), New("b", Doing), New("c", Doing), New("d", Done)]).1
         == Store([Task(1, "a", "", Todo), Task(2, "b", "", Doing), Task(3, "c", "", Doing), Task(4, "d", "", Done)], 5)
  {
    var a, b, c, d := Task(1, "a", "", Todo), Task(2, "b", "", Doing), Task(3, "c", "", Doing), Task(4, "d", "", Done);
    var s1, s2, s3 := Store([a], 2), Store([a, b], 3), Store([a, b, c], 4);
    CreateStep(Init(), "a", Todo);
    assert [] + [a] == [a];
    CreateStep(s1, "b", Doing);
    assert [a] + [b] == [a, b];
    CreateStep(s2, "c", Doing);
    assert [a, b] + [c] == [a, b, c];
    CreateStep(s3, "d", Done);
    assert [a, b, c] + [d] == [a, b, c, d];
    RunCons(s3, New("d", Done), []);
    RunCons(s2, New("c", Doing), [New("d", Done)]);
    RunCons(s1, New("b", Doing), [New("c", Doing), New("d", Done)]);
    RunCons(Init(), New("a", Todo), [New("b", Doing), New("c", Doing), New("d", Done)]);
  }

  /** Grouping and counting any four tasks with statuses todo, doing, doing, done. */
  lemma FourGroups(a: Task, b: Task, c: Task, d: Task)
    requires a.status == Todo && b.status == Doing && c.status == Doing && d.status == Done
    ensures var s := Store([a, b, c, d], 5);
      && |Group(s).todo| == 1 && |Group(s).doing| == 2 && |Group(s).done| == 1
      && Summarize(s) == Summary(1, 2, 1, 4)
  {
    assert [a, b, c, d] == [a] + [b, c, d];
    assert [b, c, d] == [b] + [c, d];
    assert [c, d] == [c] + [d];
    assert [d] == [d] + [];
    FourFiltered(a, b, c, d, Todo);
    FourFiltered(a, b, c, d, Doing);
    FourFiltered(a, b, c, d, Done);
  }

  /** The status filter over a four-element list, one task at a time. */
  lemma FourFiltered(a: Task, b: Task, c: Task, d: Task, st: string)
    ensures |WithStatus([a] + ([b] + ([c] + ([d] + []))), st)|
         == (if a.status == st then 1 else 0) + (if b.status == st then 1 else 0)
          + (if c.status == st then 1 else 0) + (if d.status == st then 1 else 0)
  {
    WithStatusCons(d, [], st);
    WithStatusCons(c, [d] + [], st);
    WithStatusCons(b, [c] + ([d] + []), st);
    WithStatusCons(a, [b] + ([c] + ([d] + [])), st);
  }

  /** Create stores an unchecked status: one task with status "blocked" sits in
      no group, so the three counts no longer add up to the total. */
  lemma UncheckedStatusOnCreate()
    ensures var (r, s) := Handle(Init(), New("x", "blocked"));
      && r.Created? && r.task.status == "blocked"
      && !StatusesValid(s.tasks)
      && Summarize(s) == Summary(0, 0, 0, 1)
  {
    OneCreate("blocked");
    var s := Store([Task(1, "x", "", "blocked")], 2);
    assert !ValidStatus(s.tasks[0].status);
  }

  /** An invalid status on an existing task is refused with 400 and changes
      nothing; on a missing task the 404 wins. */
  lemma PatchInvalidStatus()
    ensures var s := Handle(Init(), New("x", Doing)).1;
      && Handle(s, ChangeTaskStatus(1, Some("blocked"))) == (Failed(InvalidStatus), s)
      && Handle(s, ChangeTaskStatus(1, Some("blocked"))).0.Code() == 400
      && Handle(s, ChangeTaskStatus(1, Some("blocked"))).0.error.Message() == "Invalid status"
      && Handle(s, ChangeTaskStatus(2, Some("blocked"))).0.Code() == 404
  {
    OneCreate(Doing);
    var s := Store([Task(1, "x", "", Doing)], 2);
    assert s.tasks[0].id == 1;
    assert !HasId(s.tasks, 2);
  }

  /** A PUT carrying only a description leaves title and status alone, and an
      empty title in a PUT does not clear the stored one. */
  lemma UpdateDescriptionOnly()
    ensures var s := Handle(Init(), New("x", Doing)).1;
      Handle(s, UpdateTask(1, Some(""), Some("new desc"), None)).0 == Found(Task(1, "x", "new desc", Doing))
  {
    OneCreate(Doing);
    var s := Store([Task(1, "x", "", Doing)], 2);
    assert s.tasks[0].id == 1;
    var res := Update(s, 1, Some(""), Some("new desc"), None).0;
    assert res.Ok?;
    assert FindIndex(s.tasks, 1) == Some(0);
    var t := res.value;
    assert t.id == 1 && t.title == "x" && t.description == "new desc" && t.status == Doing;
  }

  /** One create from the initial store gives id 1 and moves the counter to 2. */
  lemma OneCreate(status: string)
    requires status != ""
    ensures Handle(Init(), New("x", status)) == (Created(Task(1, "x", "", status)), Store([Task(1, "x", "", status)], 2))
  {
    CreateStep(Init(), "x", status);
    assert [] + [Task(1, "x", "", status)] == [Task(1, "x", "", status)];
  }

  /** A create with a title and a status appends the task under the counter's id. */
  lemma CreateStep(s: Store, title: string, status: string)
    requires title != "" && status != ""
    ensures var t := Task(s.nextId, title, "", status);
      Handle(s, New(title, status)) == (Created(t), Store(s.tasks + [t], s.nextId + 1))
  {
  }

  /** Deleting a missing id is a 404 that keeps the size; deleting an existing
      one drops the size by one and a later lookup is a 404. */
  lemma DeleteExample()
    ensures var s := Run(Init(), [New("a", Todo), New("b", Doing)]).1;
      && Handle(s, DeleteTask(7)) == (Failed(NotFound), s)
      && Handle(s, DeleteTask(7)).0.error.Message() == "Task not found"
      && |Handle(s, DeleteTask(1)).1.tasks| == |s.tasks| - 1
      && Handle(Handle(s, DeleteTask(1)).1, GetTask(1)).0.Code() == 404
  {
    TwoCreates();
    var s := Store([Task(1, "a", "", Todo), Task(2, "b", "", Doing)], 3);
    assert Valid(s);
    assert !HasId(s.tasks, 7);
    DeleteMissing(s, 7);
    assert s.tasks[0].id == 1;
    DeleteThenGet(s, 1);
  }

  /** A DELETE of an id no task has is a 404 that keeps the store. */
  lemma DeleteMissing(s: Store, id: int)
    requires !HasId(s.tasks, id)
    ensures Handle(s, DeleteTask(id)) == (Failed(NotFound), s)
  {
  }

  /** A DELETE of a stored id drops one task, and a later GET of it is a 404. */
  lemma DeleteThenGet(s: Store, id: int)
    requires Valid(s) && HasId(s.tasks, id)
    ensures |Handle(s, DeleteTask(id)).1.tasks| == |s.tasks| - 1
    ensures Handle(Handle(s, DeleteTask(id)).1, GetTask(id)).0.Code() == 404
  {
  }

  /** Two creates from the initial store give ids 1 and 2, with the counter at 3. */
  lemma TwoCreates()
    ensures Run(Init(), [New("a", Todo), New("b", Doing)]).1
         == Store([Task(1, "a", "", Todo), Task(2, "b", "", Doing)], 3)
  {
    var s1 := Store([Task(1, "a", "", Todo)], 2);
    OneCreate(Todo);
    CreateStep(s1, "b", Doing);
    assert [Task(1, "a", "", Todo)] + [Task(2, "b", "", Doing)] == [Task(1, "a", "", Todo), Task(2, "b", "", Doing)];
    RunCons(s1, New("b", Doing), []);
    RunCons(Init(), New("a", Todo), [New("b", Doing)]);
  }
}
