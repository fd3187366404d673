/**
 * The edit-draft store: one mutable `editedTask`, which `updateEditedTask`
 * overwrites and `resetEditedTask` returns to the sentinel `{id: 0, title: ""}`.
 * Id 0 means "not yet created"; any other id names the task being edited.
 */
module Store {

  datatype EditedTask = EditedTask(id: int, title: string)

  /** The initial draft, and the one every reset restores. */
  const Initial := EditedTask(0, "")

  /** The store's two operations. */
  datatype Action = Update(payload: EditedTask) | Reset

  /** The draft after one operation: each replaces the whole draft. */
  function Apply(draft: EditedTask, a: Action): (next: EditedTask)
    ensures a.Reset? ==> next == Initial
    ensures a.Update? ==> next == a.payload
  {
    match a
    case Update(payload) => payload
    case Reset => Initial
  }

  /** The draft after a history of operations, oldest first. */
  function Replay(draft: EditedTask, history: seq<Action>): (d: EditedTask)
    ensures history == [] ==> d == draft
    ensures history != [] ==> d == Apply(Initial, history[|history| - 1])
    decreases |history|
  {
    if history == [] then draft else Replay(Apply(draft, history[0]), history[1..])
  }

  /** Resetting twice is resetting once. */
  lemma ResetIdempotent(draft: EditedTask)
    ensures Replay(draft, [Reset, Reset]) == Replay(draft, [Reset]) == Initial
  {
  }

  /** The zustand store holding the draft. */
  class DraftStore {
    var editedTask: EditedTask

    constructor ()
      ensures editedTask == Initial
    {
      editedTask := Initial;
    }

    method UpdateEditedTask(payload: EditedTask)
      modifies this
      ensures editedTask == Apply(old(editedTask), Update(payload))
    {
      editedTask := payload;
    }

    method ResetEditedTask()
      modifies this
      ensures editedTask == Apply(old(editedTask), Reset)
    {
      editedTask := Initial;
    }
  }
}
