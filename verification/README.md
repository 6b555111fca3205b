# task-man task store, modelled in Dafny

The task-man server keeps every task in process memory. It holds a list of
task records `{id, title, description, status}` and an id counter `nextId`, and
its Express handlers list, fetch, create, update, re-status, delete and count
those tasks. This project models that store with the HTTP layer stripped
away. Each handler becomes a pure transition on a `Store(tasks, nextId)` value.
The transition returns either a reply or one of the two errors the service
reports: `NotFound` (404) or `BadRequest` (400).

Layout, one module per concern:

- `wrappers.dfy` (`Wrappers`): `Option` for request fields, `Result` for handler replies.
- `tasks.dfy` (`Tasks`): the `Task` record and the status vocabulary. It also
  holds JavaScript truthiness of a request field (`Truthy`: present and not
  `""`), `a || b` (`Or`), the `Error` type, and predicates over task lists.
- `store.dfy` (`TaskStore`): the store, its invariant `Valid`, and the
  find/create/update/change-status/delete handlers.
- `views.dfy` (`TaskViews`): grouping by status and the summary counts.
- `service.dfy` (`TaskService`): every handler as one `Request -> Response`
  step, runs of many requests, and the properties that relate operations.
- `scenarios.dfy` (`TaskScenarios`): concrete request sequences. They cover
  the defaults on create, grouping and counting tasks with statuses
  todo/doing/doing/done as 1/2/1 of 4, a refused status change, a
  description-only update, and deletes of a missing and of a stored id.

The store invariant `Valid`: ids are positive and strictly increasing in list
order, so they are pairwise distinct. Every id is also below `nextId`. Every
operation preserves it (with the counter as an unbounded integer; see
"## Left out").

Stored statuses are deliberately NOT part of the invariant. Create
(`task-man/server/index.js:44`) and update (`task-man/server/index.js:59`)
store any non-empty status without checking it. Only the status-change
handler validates. So a stored status need not be one of todo/doing/done, and
the model follows the code in this. `TaskScenarios.UncheckedStatusOnCreate` shows a store holding
`"blocked"`. `TaskViews.Summarize` proves that the three counts add up to the
total exactly when every stored status is valid.

Path ids are modelled as already-parsed integers. Request body fields are
`Option<string>`. A JavaScript-falsy field is either `None` or `Some("")`.

## Model

| member | source | states |
|---|---|---|
| TaskStore.Init | task-man/server/index.js:15-16 | the process starts with no tasks and counter 1, a state that satisfies the store invariant |
| TaskStore.FindIndex | task-man/server/index.js:30 | `find` on ids: returns a position iff some task has the id; that task has the id and no earlier task does |
| TaskStore.FindIndexUnique | task-man/server/index.js:30 | under increasing ids, the lookup of a stored task's id lands exactly on that task |
| TaskStore.Find | task-man/server/index.js:29-33 | GET by id succeeds iff some task has the id, and the returned task is stored with that id; otherwise NotFound. Under the invariant it is the unique task with that id |
| TaskStore.SameLookup | task-man/server/index.js:30 | two valid stores holding the same tasks with a given id answer a lookup of that id alike |
| TaskStore.Create | task-man/server/index.js:36-49 | a missing or empty title gives "Title is required" with tasks and counter unchanged. Otherwise the new task has id = old counter, description defaulting to "" and status to "todo", and is appended after the untouched old tasks; the counter grows by one; the invariant is kept |
| TaskStore.ReplaceKeepsValid | task-man/server/index.js:57-59 | rewriting a task in place without touching its id keeps the store invariant |
| TaskStore.Update | task-man/server/index.js:52-62 | NotFound iff no task has the id, and then the store is unchanged. Otherwise only the first matching task is rewritten. Each of title, description and status is replaced iff the supplied value is truthy, else kept. The id, every other task, the order and the counter stay the same; the invariant is kept |
| TaskStore.ChangeStatus | task-man/server/index.js:65-76 | existence is checked first: NotFound iff no task has the id, even if the status is also invalid. "Invalid status" iff the task exists and the status is not todo/doing/done, with the store unchanged. It succeeds iff the task exists and the status is one of the three, and then only that task's status changes. Keeps the invariant and keeps all-statuses-valid |
| TaskStore.Without | task-man/server/index.js:81 | the filter never grows the list and keeps its length iff no task has the id (then it returns the list unchanged). No task with the id survives, no foreign task appears, and every task with another id is kept |
| TaskStore.WithoutKeepsIncreasing | task-man/server/index.js:81 | filtering out an id keeps the remaining ids strictly increasing |
| TaskStore.WithoutAt | task-man/server/index.js:80-87 | under increasing ids, filtering out a stored id removes exactly that one position and keeps the others in order |
| TaskStore.Delete | task-man/server/index.js:79-88 | NotFound iff no task has the id, and then the store is unchanged. The id is gone afterwards, every task with another id remains, and the counter never moves. Under the invariant a successful delete removes exactly one task and keeps the rest in order; the invariant is kept |
| TaskViews.WithStatus | task-man/server/index.js:20-24 | the status filter holds exactly the tasks of that status, drawn from the list, never longer than it, and all of the list when every task has the status |
| TaskViews.WithStatusAppend | task-man/server/index.js:21-23 | the status filter preserves order: filtering a concatenation concatenates the filtered parts |
| TaskViews.WithStatusCons | task-man/server/index.js:21-23 | filtering a list with a task in front keeps that task iff its status matches, then filters the rest |
| TaskViews.CountValid | task-man/server/index.js:92-96 | the number of tasks with a valid status is at most the list length, and equals it iff every status is valid |
| TaskViews.GroupSizes | task-man/server/index.js:93-95 | the todo, doing and done filters together hold exactly the tasks with a valid status |
| TaskViews.Group | task-man/server/index.js:19-26 | each group holds exactly the stored tasks of its status. The group sizes add up to the list length iff every stored status is valid |
| TaskViews.GroupAfterCreate | task-man/server/index.js:20-24 | after a successful create (truthy title) the new task sits at the end of its status's group, behind the earlier tasks in list order, and the other groups are unchanged |
| TaskViews.Summarize | task-man/server/index.js:91-99 | the counts equal the group sizes and total equals the list length. The three counts sum to total iff every stored status is valid |
| TaskService.Handle | task-man/server/index.js:19-99 | every route keeps the store invariant. List, get and summary leave the store unchanged, and so does every failure. Only a successful create (the 201 reply) moves the counter, by exactly one, and appends a task carrying the old counter value |
| TaskService.Run | task-man/server/index.js:15-16 | along any request sequence the invariant is kept and the counter never decreases. Every id a create hands out lies between the starting and final counter. Ids are never reused: with any deletes in between, a later create gets a strictly larger id than an earlier one |
| TaskService.GetIsIdempotent | task-man/server/index.js:29-33 | two GETs of one id with nothing in between give the same reply and leave the store unchanged |
| TaskService.FindAfterCreate | task-man/server/index.js:40-47 | a created task can be fetched by its new id, and every other lookup answers as before |
| TaskService.FindAfterDelete | task-man/server/index.js:79-88 | after a delete, fetching that id is NotFound and every other lookup answers as before |
| TaskService.CreateThenDelete | task-man/server/index.js:41-47 | creating then deleting a task restores the task list but leaves the counter advanced, so the id is not handed out again |
| TaskService.FindAfterUpdate | task-man/server/index.js:52-76 | after PUT, fetching the id returns the PUT's reply. After a successful PATCH, fetching the id returns the re-statused task |
| TaskService.ChangeStatusIdempotent | task-man/server/index.js:65-76 | applying the same status change twice equals applying it once |
| TaskScenarios.CreateDefaults | task-man/server/index.js:40-48 | creating "Buy milk" with nothing else gives description "", status "todo", the counter's id and a 201 reply |
| TaskScenarios.CreateStep | task-man/server/index.js:40-47 | on any store, a create with a title and a status appends the task under the counter's id, with description "", and moves the counter by one |
| TaskScenarios.OneCreate | task-man/server/index.js:40-47 | the first create from the initial store gets id 1 and leaves the counter at 2 |
| TaskScenarios.GroupAndSummaryExample | task-man/server/index.js:91-99 | creates with statuses todo, doing, doing, done group as 1/2/1 and summarise as {1, 2, 1, 4} |
| TaskScenarios.FourCreates | task-man/server/index.js:40-47 | four creates from the initial store give ids 1 to 4 in order, with the counter at 5 |
| TaskScenarios.FourGroups | task-man/server/index.js:20-24 | tasks with statuses todo, doing, doing, done group as 1/2/1 and summarise as {1, 2, 1, 4} |
| TaskScenarios.FourFiltered | task-man/server/index.js:20-24 | the status filter over four tasks keeps exactly those whose status matches |
| TaskScenarios.UncheckedStatusOnCreate | task-man/server/index.js:44 | create stores the status "blocked" unchecked; that task lands in no group, and the counts sum to 0 while total is 1 |
| TaskScenarios.PatchInvalidStatus | task-man/server/index.js:66-72 | PATCH with "blocked" on an existing task is a 400 that changes nothing, with the message "Invalid status"; on a missing task the 404 wins |
| TaskScenarios.UpdateDescriptionOnly | task-man/server/index.js:56-59 | a PUT that sends only a description keeps title and status, and an empty title does not clear the stored one |
| TaskScenarios.DeleteExample | task-man/server/index.js:80-87 | deleting a missing id is a 404 "Task not found" that keeps the store; deleting an existing id drops one task, and a later GET of it is a 404 |
| TaskScenarios.TwoCreates | task-man/server/index.js:40-47 | two creates from the initial store give ids 1 and 2 in order, with the counter at 3 |
| TaskScenarios.DeleteMissing | task-man/server/index.js:83-85 | on any store, a DELETE of an id no task has is a 404 that keeps the store |
| TaskScenarios.DeleteThenGet | task-man/server/index.js:79-88 | on any valid store, a DELETE of a stored id drops exactly one task, and a later GET of that id is a 404 |

## Left out

- Express setup, `cors()`, `express.json()` body parsing and JSON serialisation (`task-man/server/index.js:9-12`) are library plumbing. Replies are the `Response` datatype. Error tags stand for 404 and 400, and `Created` stands for the 201 reply.
- `app.listen`, the `PORT` environment variable and the start-up log line (`task-man/server/index.js:101-104`) are I/O.
- The unused `path`/`fileURLToPath`/`__dirname` setup (`task-man/server/index.js:2-7`) has no behaviour.
- Route matching and registration order are not modelled. `/tasks/:id` is registered before `/tasks/summary`, so Express hands `GET /tasks/summary` to the by-id handler. There `t.id == "summary"` never holds, so the running server answers that path with 404. `TaskService.Handle` does not model that 404: its `GetSummary` request stands for the summary handler's body (`TaskViews.Summarize`), not for the path, as if the handler were reachable.
- JavaScript loose equality between the path text and a numeric id is abstracted. The path id is an already-parsed `int`. A path that is not a number never matches a stored id, which the model covers by any id no task has (0, for one).
- Non-string truthy body values (numbers, booleans, objects) are not modelled. Body fields are `Option<string>`, and only `None` and `""` are falsy.
- TaskService.Run and TaskStore.Create: the source's counter `nextId++` (`task-man/server/index.js:41`) is a JavaScript number, a double that stops being exact at 2^53, after which the increment no longer moves it and ids would repeat. The model's counter is an unbounded integer, so its fresh-id and never-reused promises assume fewer than 2^53 creates over the process's life.
- Object identity is not modelled. Handlers return live references to stored task objects, and the model returns task values.
