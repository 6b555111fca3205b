/** The task record, its status vocabulary, and the two JavaScript idioms the
    handlers lean on: truthiness of a request field and `a || b`. */
module Tasks {
  import opened Wrappers

  const Todo: string := "todo"
  const Doing: string := "doing"
  const Done: string := "done"

  /** The only statuses the status-change handler accepts. */
  predicate ValidStatus(st: string) {
    st == Todo || st == Doing || st == Done
  }

  /** One stored task. `status` is a free string: create and update store any
      non-empty value, only the status-change handler checks it. */
  datatype Task = Task(id: int, title: string, description: string, status: string)

  /** A string request field that JavaScript treats as true: present and not "". */
  predicate Truthy(f: Option<string>) {
    f.Some? && f.value != ""
  }

  /** JavaScript's `f || fallback` on a string request field. */
  function Or(f: Option<string>, fallback: string): (r: string) {
    if Truthy(f) then f.value else fallback
  }

  /** The two failures a handler reports; they stand for HTTP 404 and 400. */
  datatype Error = NotFound | BadRequest(message: string) {

    function Code(): (code: int) {
      if NotFound? then 404 else 400
    }

    /** The text of the JSON `message` field sent with the error. */
    function Message(): (text: string) {
      if NotFound? then "Task not found" else message
    }
  }

  const TitleRequired: Error := BadRequest("Title is required")
  const InvalidStatus: Error := BadRequest("Invalid status")

  /** Some task in `ts` carries `id`. */
  predicate HasId(ts: seq<Task>, id: int) {
    exists i :: 0 <= i < |ts| && ts[i].id == id
  }

  /** Ids strictly increase along the list (so they are pairwise distinct). */
  predicate IdsIncreasing(ts: seq<Task>) {
    forall i, j :: 0 <= i < j < |ts| ==> ts[i].id < ts[j].id
  }

  /** Every id lies in `[lo, hi)`. */
  predicate IdsWithin(ts: seq<Task>, lo: int, hi: int) {
    forall i :: 0 <= i < |ts| ==> lo <= ts[i].id < hi
  }

  /** Every stored status is one of todo, doing, done. */
  predicate StatusesValid(ts: seq<Task>) {
    forall i :: 0 <= i < |ts| ==> ValidStatus(ts[i].status)
  }
}
