/**
 * The task form: submitting creates when the draft's id is 0 and updates
 * otherwise; the button is disabled while the title is empty and labelled
 * by the same id test; logging out drops the cached task list once the
 * server has confirmed.
 */
module Todo {
  import opened Wrappers
  import opened Store
  import opened TaskCache
  import TaskModel
  import TaskValidator

  /** The mutation `submitTaskHandler` starts for the current draft. */
  function SubmitTaskHandler(draft: EditedTask): (m: Mutation)
    ensures m.CreateTask? <==> draft.id == 0
    ensures m.UpdateTask? <==> draft.id != 0
    ensures m.CreateTask? ==> m.title == draft.title
    ensures m.UpdateTask? ==> m.task == draft
  {
    if draft.id == 0 then CreateTask(draft.title) else UpdateTask(draft)
  }

  /** `disabled={!editedTask.title}`: the button is off exactly when the
      server's validator would reject the title as missing, and a title it
      would reject as too long can still be submitted. */
  predicate SubmitDisabled(draft: EditedTask): (r: bool)
    ensures r <==> (
      var errs := TaskValidator.TaskValidate(TaskModel.Task(0, draft.title, 0, 0, 0));
      "title" in errs && errs["title"] == TaskValidator.TitleRequired)
  {
    draft.title == ""
  }

  /** The submit button's text announces the mutation a submit will start. */
  function ButtonLabel(draft: EditedTask): (r: string)
    ensures r == "Create" <==> SubmitTaskHandler(draft).CreateTask?
    ensures r == "Update" <==> SubmitTaskHandler(draft).UpdateTask?
  {
    if draft.id == 0 then "Create" else "Update"
  }

  /** A submit sends POST /tasks for a new draft and PUT /tasks/{id} otherwise,
      and in both cases a body holding the title alone. */
  lemma SubmitRequest(draft: EditedTask)
    ensures MutationRequest(SubmitTaskHandler(draft)).verb == (if draft.id == 0 then Post else Put)
    ensures MutationRequest(SubmitTaskHandler(draft)).endpoint == (if draft.id == 0 then Tasks else TaskAt(draft.id))
    ensures MutationRequest(SubmitTaskHandler(draft)).body == Some(TitleBody(draft.title))
  {
  }

  /** The reset draft offers "Create" with the button disabled. */
  lemma InitialDraftCannotSubmit()
    ensures SubmitDisabled(Initial) && ButtonLabel(Initial) == "Create"
  {
  }

  /** Typing replaces the draft's title and keeps its id. */
  method OnTitleInput(store: DraftStore, value: string)
    modifies store
    ensures store.editedTask == EditedTask(old(store.editedTask.id), value)
  {
    store.UpdateEditedTask(store.editedTask.(title := value));
  }

  /** `logout`: the cache entry is removed only after the logout request succeeded;
      when it fails the awaited call throws and the cache is kept. */
  method Logout(cache: QueryCache, logoutSucceeded: bool)
    modifies cache
    ensures cache.tasks == if logoutSucceeded then None else old(cache.tasks)
  {
    if logoutSucceeded {
      cache.tasks := None;
    }
  }
}
