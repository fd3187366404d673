/**
 * The task records of the Go API: the stored row (`model.Task`) and the
 * JSON projection sent to the browser (`model.TaskResponse`), which is also
 * the browser's `Task` type. Timestamps are opaque integers.
 */
module TaskModel {

  /** A row of the tasks table, owned by the user `userId`. */
  datatype Task = Task(id: nat, title: string, createdAt: int, updatedAt: int, userId: nat)

  /** What the API returns for a task: the row without its owner. */
  datatype TaskResponse = TaskResponse(id: nat, title: string, createdAt: int, updatedAt: int)

  /** Go's zero `model.Task{}`; timestamp 0 stands for the zero `time.Time`. */
  const ZeroTask := Task(0, "", 0, 0, 0)

  /** Go's zero `model.TaskResponse{}`, returned beside every error. */
  const ZeroResponse := TaskResponse(0, "", 0, 0)

  /** The field-by-field projection the use case performs. */
  function ToResponse(t: Task): (r: TaskResponse)
    ensures r.id == t.id && r.title == t.title
    ensures r.createdAt == t.createdAt && r.updatedAt == t.updatedAt
  {
    TaskResponse(t.id, t.title, t.createdAt, t.updatedAt)
  }

  /** The primary-key constraint: no two rows share an id. */
  ghost predicate UniqueIds(rows: seq<Task>)
  {
    forall i, j :: 0 <= i < |rows| && 0 <= j < |rows| && rows[i].id == rows[j].id ==> i == j
  }
}
