/**
 * The task use case: validate, call the repository, and project the stored
 * row to the response field by field. Every error comes back beside Go's
 * zero response.
 */
module TaskUsecase {
  import opened Wrappers
  import opened Seqs
  import opened TaskModel
  import opened Validation
  import opened TaskValidator
  import opened TaskRepository

  /** The two kinds of error the use case passes on. */
  datatype Error = Invalid(fields: Errors) | DbError(message: string)

  /** The list `GetAllTasks` answers for `userId`: the user's rows, oldest first, projected. */
  function TaskList(rows: seq<Task>, userId: nat): (r: seq<TaskResponse>)
    ensures |r| == |Owned(rows, userId)|
    ensures forall i, j :: 0 <= i < j < |r| ==> r[i].createdAt <= r[j].createdAt
  {
    var sorted := OwnedSorted(rows, userId);
    assert SortedByCreated(sorted);
    Map(sorted, ToResponse)
  }

  /** The answer holds one response per row of the user and nothing else. */
  lemma TaskListMembers(rows: seq<Task>, userId: nat)
    ensures forall r :: r in TaskList(rows, userId) ==>
      exists t :: t in rows && t.userId == userId && r == ToResponse(t)
    ensures forall t :: t in rows && t.userId == userId ==> ToResponse(t) in TaskList(rows, userId)
  {
    var sorted := OwnedSorted(rows, userId);
    OwnedSortedMembers(rows, userId);
    MapMembers(sorted, ToResponse);
    assert TaskList(rows, userId) == Map(sorted, ToResponse);
  }

  /** The `for ... range tasks` loop that builds the response list. */
  method Project(tasks: seq<Task>) returns (resTasks: seq<TaskResponse>)
    ensures resTasks == Map(tasks, ToResponse)
  {
    resTasks := [];
    for i := 0 to |tasks|
      invariant |resTasks| == i
      invariant forall j :: 0 <= j < i ==> resTasks[j] == ToResponse(tasks[j])
    {
      var next := resTasks + [ToResponse(tasks[i])];
      assert forall j :: 0 <= j < i ==> next[j] == resTasks[j];
      resTasks := next;
    }
    MapAgrees(tasks, ToResponse, resTasks);
  }

  /** `taskUsecase`, holding the repository it delegates to. */
  class Usecase {
    const tr: Repository

    constructor (tr: Repository)
      ensures this.tr == tr
    {
      this.tr := tr;
    }

    method GetAllTasks(userId: nat, fault: Option<string>) returns (res: Result<seq<TaskResponse>, Error>)
      ensures fault.Some? ==> res == Failure(DbError(fault.value))
      ensures fault.None? ==> res == Success(TaskList(tr.rows, userId))
    {
      var tasks, err := tr.GetAllTasks(userId, fault);
      if err.Some? {
        return Failure(DbError(err.value));
      }
      var resTasks := Project(tasks);
      return Success(resTasks);
    }

    method GetTaskById(userId: nat, taskId: nat, fault: Option<string>) returns (res: TaskResponse, err: Option<Error>)
      ensures fault.Some? ==> err == Some(DbError(fault.value))
      ensures fault.None? ==> (err.None? <==> exists t :: t in tr.rows && t.id == taskId && t.userId == userId)
      ensures fault.None? && err.Some? ==> err == Some(DbError(RecordNotFound))
      ensures err.Some? ==> res == ZeroResponse
      ensures err.None? ==> exists t :: t in tr.rows && t.id == taskId && t.userId == userId && res == ToResponse(t)
    {
      var task, e := tr.GetTaskById(userId, taskId, fault);
      if e.Some? {
        return ZeroResponse, Some(DbError(e.value));
      }
      res, err := ToResponse(task), None;
    }

    method CreateTask(task: Task, now: int, fault: Option<string>) returns (res: TaskResponse, err: Option<Error>)
      requires tr.Valid()
      modifies tr
      ensures tr.Valid()
      ensures TaskValidate(task) != map[] ==>
        err == Some(Invalid(TaskValidate(task))) && res == ZeroResponse && tr.rows == old(tr.rows) && tr.nextId == old(tr.nextId)
      ensures TaskValidate(task) == map[] && fault.Some? ==>
        err == Some(DbError(fault.value)) && res == ZeroResponse && tr.rows == old(tr.rows) && tr.nextId == old(tr.nextId)
      ensures TaskValidate(task) == map[] && fault.None? ==>
        var row := Task(old(tr.nextId), task.title, now, now, task.userId);
        err.None? && res == ToResponse(row) && tr.rows == old(tr.rows) + [row]
    {
      var errs := TaskValidate(task);
      if errs != map[] {
        return ZeroResponse, Some(Invalid(errs));
      }
      var written, e := tr.CreateTask(task, now, fault);
      if e.Some? {
        return ZeroResponse, Some(DbError(e.value));
      }
      res, err := ToResponse(written), None;
    }

    method UpdateTask(task: Task, userId: nat, taskId: nat, now: int, fault: Option<string>)
      returns (res: TaskResponse, err: Option<Error>)
      requires tr.Valid()
      modifies tr
      ensures tr.Valid()
      ensures TaskValidate(task) != map[] ==>
        err == Some(Invalid(TaskValidate(task))) && res == ZeroResponse && tr.rows == old(tr.rows) && tr.nextId == old(tr.nextId)
      ensures TaskValidate(task) == map[] && fault.Some? ==>
        err == Some(DbError(fault.value)) && res == ZeroResponse && tr.rows == old(tr.rows) && tr.nextId == old(tr.nextId)
      ensures TaskValidate(task) == map[] && fault.None? && !Matches(old(tr.rows), userId, taskId, task.id) ==>
        err == Some(DbError(ObjectDoesNotExist)) && res == ZeroResponse && tr.rows == old(tr.rows) && tr.nextId == old(tr.nextId)
      ensures TaskValidate(task) == map[] && fault.None? && Matches(old(tr.rows), userId, taskId, task.id) ==>
        && err.None?
        && tr.rows == Retitled(old(tr.rows), userId, taskId, task.id, task.title, now)
        && res == ToResponse(Retitle(Lookup(old(tr.rows), userId, taskId).value, task.title, now))
    {
      var errs := TaskValidate(task);
      if errs != map[] {
        return ZeroResponse, Some(Invalid(errs));
      }
      var written, e := tr.UpdateTask(task, userId, taskId, now, fault);
      if e.Some? {
        return ZeroResponse, Some(DbError(e.value));
      }
      res, err := ToResponse(written), None;
    }

    method DeleteTask(userId: nat, taskId: nat, fault: Option<string>) returns (err: Option<Error>)
      requires tr.Valid()
      modifies tr
      ensures tr.Valid()
      ensures fault.Some? ==> err == Some(DbError(fault.value)) && tr.rows == old(tr.rows) && tr.nextId == old(tr.nextId)
      ensures fault.None? && Lookup(old(tr.rows), userId, taskId).None? ==>
        err == Some(DbError(ObjectDoesNotExist)) && tr.rows == old(tr.rows) && tr.nextId == old(tr.nextId)
      ensures fault.None? && Lookup(old(tr.rows), userId, taskId).Some? ==>
        err.None? && tr.rows == Deleted(old(tr.rows), userId, taskId)
    {
      var e := tr.DeleteTask(userId, taskId, fault);
      if e.Some? {
        return Some(DbError(e.value));
      }
      return None;
    }
  }
}
