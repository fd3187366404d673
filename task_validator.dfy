/** `TaskValidate`: a task's title is required and at most 12 runes long. */
module TaskValidator {
  import opened TaskModel
  import opened Validation

  const TitleRequired := "title is required"
  const TitleTooLong := "limited max 12 char"

  /** The title rules, in the order the validator lists them. */
  function TitleRules(): seq<Rule>
  {
    [Required(TitleRequired), RuneLength(1, 12, TitleTooLong)]
  }

  /** Validates a task; only the title is inspected. */
  function TaskValidate(task: Task): (errs: Errors)
    ensures errs == map[] <==> 1 <= |task.title| <= 12
    ensures task.title == [] ==> errs == map["title" := TitleRequired]
    ensures |task.title| > 12 ==> errs == map["title" := TitleTooLong]
  {
    var fields := [Field("title", task.title, TitleRules())];
    assert fields[1..] == [];
    assert |TitleRules()| == 2 && TitleRules()[0].Required? && TitleRules()[1].RuneLength?;
    assert Passes(TitleRules()[0], task.title) <==> task.title != [];
    assert Passes(TitleRules()[1], task.title) <==> |task.title| <= 12;
    assert ValidateStruct(fields) == match Check(task.title, TitleRules())
      case None => map[]
      case Some(m) => map["title" := m];
    assert Check(task.title, TitleRules()).Some? ==> "title" in ValidateStruct(fields);
    ValidateStruct(fields)
  }

  /** Ids, owner and timestamps never change the verdict. */
  lemma OnlyTitleInspected(a: Task, b: Task)
    requires a.title == b.title
    ensures TaskValidate(a) == TaskValidate(b)
  {
  }
}
