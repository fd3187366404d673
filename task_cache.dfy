/**
 * The task mutations of the browser and the cache patches they apply. The
 * cached task list (key `['tasks']`) is patched only after the server
 * confirms: create appends the returned task, update replaces the entries
 * with the submitted id, delete filters them out; every success resets the
 * edit draft, and every failure goes to the error handler and leaves the
 * cache alone.
 */
module TaskCache {
  import opened Wrappers
  import opened Seqs
  import TaskModel
  import opened Store
  import opened ErrorHandling

  /** The browser's `Task`: exactly the JSON the API sends. */
  type Task = TaskModel.TaskResponse

  /** No two cached tasks share an id. */
  ghost predicate UniqueTaskIds(s: seq<Task>)
  {
    forall i, j :: 0 <= i < |s| && 0 <= j < |s| && s[i].id == s[j].id ==> i == j
  }

  // ----- requests -----

  /** The variables each mutation is called with. */
  datatype Mutation = CreateTask(title: string) | UpdateTask(task: EditedTask) | DeleteTask(id: int)

  datatype Verb = Post | Put | Delete
  /** `/tasks` or `/tasks/{id}`. */
  datatype Endpoint = Tasks | TaskAt(id: int)
  /** The JSON body `{title}`: the only field either write sends. */
  datatype Body = TitleBody(title: string)
  datatype Request = Request(verb: Verb, endpoint: Endpoint, body: Option<Body>)

  /** The HTTP request each mutation issues: creation posts to the
      collection, the others address one task; an id travels only in the path
      and a body, when there is one, holds only the title. */
  function MutationRequest(m: Mutation): (r: Request)
    ensures r.verb == Post <==> m.CreateTask?
    ensures r.verb == Delete <==> m.DeleteTask?
    ensures r.endpoint == Tasks <==> m.CreateTask?
    ensures m.UpdateTask? ==> r.endpoint == TaskAt(m.task.id)
    ensures m.DeleteTask? ==> r.endpoint == TaskAt(m.id)
    ensures r.body.Some? <==> !m.DeleteTask?
    ensures m.CreateTask? ==> r.body == Some(TitleBody(m.title))
    ensures m.UpdateTask? ==> r.body == Some(TitleBody(m.task.title))
  {
    match m
    case CreateTask(title) => Request(Post, Tasks, Some(TitleBody(title)))
    case UpdateTask(task) => Request(Put, TaskAt(task.id), Some(TitleBody(task.title)))
    case DeleteTask(id) => Request(Delete, TaskAt(id), None)
  }

  // ----- cache patches -----

  function ReplaceIf(id: int, res: Task): Task -> Task
  {
    (t: Task) => if t.id == id then res else t
  }

  /** `previousTasks.map(task => task.id === id ? res : task)` */
  function ReplaceById(prev: seq<Task>, id: int, res: Task): (r: seq<Task>)
    ensures |r| == |prev|
    ensures forall i :: 0 <= i < |prev| ==> r[i] == if prev[i].id == id then res else prev[i]
  {
    Map(prev, ReplaceIf(id, res))
  }

  function IdIsNot(id: int): Task -> bool
  {
    (t: Task) => t.id != id
  }

  /** `previousTasks.filter(task => task.id !== id)` */
  function RemoveById(prev: seq<Task>, id: int): (r: seq<Task>)
    ensures |r| <= |prev|
  {
    Filter(prev, IdIsNot(id))
  }

  /** Deleting keeps exactly the entries with another id. */
  lemma RemoveByIdMembers(prev: seq<Task>, id: int)
    ensures forall t :: t in RemoveById(prev, id) <==> t in prev && t.id != id
  {
    var r := RemoveById(prev, id);
    forall t | t in prev && t.id != id ensures t in r {
      var j :| 0 <= j < |prev| && prev[j] == t;
    }
    forall t | t in r ensures t in prev && t.id != id {
      var j :| 0 <= j < |r| && r[j] == t;
    }
  }

  /** Deleting keeps the survivors' relative order: it distributes over concatenation. */
  lemma RemoveByIdKeepsOrder(a: seq<Task>, b: seq<Task>, id: int)
    ensures RemoveById(a + b, id) == RemoveById(a, id) + RemoveById(b, id)
  {
    FilterConcat(a, b, IdIsNot(id));
  }

  /** Deleting an id that is not cached changes nothing. */
  lemma RemoveAbsentId(prev: seq<Task>, id: int)
    requires forall t :: t in prev ==> t.id != id
    ensures RemoveById(prev, id) == prev
  {
    FilterAll(prev, IdIsNot(id));
  }

  /** With unique ids, deleting a cached id shortens the list by exactly one. */
  lemma RemovePresentId(prev: seq<Task>, id: int, i: nat)
    requires UniqueTaskIds(prev) && i < |prev| && prev[i].id == id
    ensures |RemoveById(prev, id)| == |prev| - 1
  {
    FilterDropsOne(prev, IdIsNot(id), i);
  }

  // ----- failures -----

  /** `err.response.data`: a JSON string, or an object that may carry `message`. */
  datatype ErrorData = Text(body: string) | Json(message: Option<string>)

  /** How JavaScript shows an object passed where a string was expected. */
  const ObjectText := "[object Object]"

  /**
   * The message `onError` hands to the error handler: `data.message` when it
   * is a non-empty string, otherwise `data` itself. A string has no
   * `message`, so it is passed as it is; an object without a message never
   * equals a known message and is alerted in its string form.
   */
  function ErrorMessage(d: ErrorData): (r: string)
    ensures d.Text? ==> r == d.body
    ensures d.Json? && d.message.Some? && d.message.value != "" ==> r == d.message.value
    ensures d.Json? && (d.message.None? || d.message.value == "") ==> r == ObjectText
    ensures r in AlertTable ==> d == Text(r) || d == Json(Some(r))
  {
    match d
    case Text(body) => body
    case Json(Some(m)) => if m != "" then m else ObjectText
    case Json(None) => ObjectText
  }

  /** An error object whose message is missing or empty only ever produces the default alert. */
  lemma MessagelessErrorAlertsOnly(d: ErrorData)
    requires d.Json? && (d.message.None? || d.message.value == "")
    ensures SwitchErrorHandling(ErrorMessage(d)) == Effect(ObjectText, false, false, None)
  {
  }

  /** The `['tasks']` entry of the react-query cache; None when absent. */
  class QueryCache {
    var tasks: Option<seq<Task>>

    constructor (tasks: Option<seq<Task>>)
      ensures this.tasks == tasks
    {
      this.tasks := tasks;
    }

    /** `createTaskMutation`'s `onSuccess`. */
    method OnCreateSuccess(res: Task, store: DraftStore)
      modifies this, store
      ensures old(tasks).Some? ==> tasks == Some(old(tasks).value + [res])
      ensures old(tasks).Some? ==> |tasks.value| == |old(tasks).value| + 1
      ensures old(tasks).None? ==> tasks.None?
      ensures store.editedTask == Initial
    {
      var previousTasks := tasks;
      if previousTasks.Some? {
        tasks := Some(previousTasks.value + [res]);
      }
      store.ResetEditedTask();
    }

    /** `updateTaskMutation`'s `onSuccess`, called with the submitted draft. */
    method OnUpdateSuccess(res: Task, variables: EditedTask, store: DraftStore)
      modifies this, store
      ensures tasks == if old(tasks).Some? then Some(ReplaceById(old(tasks).value, variables.id, res)) else None
      ensures store.editedTask == Initial
    {
      var previousTasks := tasks;
      if previousTasks.Some? {
        tasks := Some(ReplaceById(previousTasks.value, variables.id, res));
      }
      store.ResetEditedTask();
    }

    /** `deleteTaskMutation`'s `onSuccess`, called with the deleted id. */
    method OnDeleteSuccess(variables: int, store: DraftStore)
      modifies this, store
      ensures tasks == if old(tasks).Some? then Some(RemoveById(old(tasks).value, variables)) else None
      ensures store.editedTask == Initial
    {
      var previousTasks := tasks;
      if previousTasks.Some? {
        tasks := Some(RemoveById(previousTasks.value, variables));
      }
      store.ResetEditedTask();
    }

    /** The `onError` of all three mutations. */
    method OnError(data: ErrorData, page: Page, store: DraftStore)
      modifies page, store
      ensures tasks == old(tasks)
      ensures page.alerts == old(page.alerts) + [SwitchErrorHandling(ErrorMessage(data)).alert]
      ensures store.editedTask ==
        if SwitchErrorHandling(ErrorMessage(data)).resetDraft then Initial else old(store.editedTask)
      ensures page.location ==
        if SwitchErrorHandling(ErrorMessage(data)).navigate.Some? then EntryPoint else old(page.location)
      ensures page.headers == old(page.headers)
      ensures page.pendingCsrfFetches ==
        old(page.pendingCsrfFetches) + if ErrorMessage(data) == InvalidCsrf then 1 else 0
    {
      page.HandleError(ErrorMessage(data), store);
    }
  }
}
