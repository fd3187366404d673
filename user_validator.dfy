/**
 * `UserValidate`: an email is required, at most 30 runes and well formed; a
 * password is required and 6 to 30 runes long. The e-mail format check of
 * the library is a parameter, `isEmail`.
 */
module UserValidator {
  import opened Wrappers
  import opened Validation

  /** `model.User` as the validator sees it. */
  datatype User = User(id: nat, email: string, name: string, password: string, createdAt: int, updatedAt: int)

  const EmailRequired := "email is required"
  const EmailTooLong := "limited max 30 char"
  const EmailMalformed := "is not valida email format"
  const PasswordRequired := "password is required"
  const PasswordLength := "limited min 6 max 30 char"

  function EmailRules(isEmail: string -> bool): seq<Rule>
  {
    [Required(EmailRequired), RuneLength(1, 30, EmailTooLong), Format(isEmail, EmailMalformed)]
  }

  function PasswordRules(): seq<Rule>
  {
    [Required(PasswordRequired), RuneLength(6, 30, PasswordLength)]
  }

  /** The email's own verdict: its first failing rule, if any. */
  function EmailError(email: string, isEmail: string -> bool): (r: Option<string>)
    ensures email == [] ==> r == Some(EmailRequired)
    ensures email != [] && |email| > 30 ==> r == Some(EmailTooLong)
    ensures email != [] && |email| <= 30 && !isEmail(email) ==> r == Some(EmailMalformed)
    ensures r == None <==> email != [] && |email| <= 30 && isEmail(email)
  {
    var rules := EmailRules(isEmail);
    assert |rules| == 3 && rules[0].Required? && rules[1].RuneLength? && rules[2].Format?;
    Check(email, rules)
  }

  /** The password's own verdict: its first failing rule, if any. */
  function PasswordError(password: string): (r: Option<string>)
    ensures password == [] ==> r == Some(PasswordRequired)
    ensures password != [] && (|password| < 6 || |password| > 30) ==> r == Some(PasswordLength)
    ensures r == None <==> 6 <= |password| <= 30
  {
    var rules := PasswordRules();
    assert |rules| == 2 && rules[0].Required? && rules[1].RuneLength?;
    Check(password, rules)
  }

  /** Validates a user: email and password each report their own verdict,
      under their own key, and nothing else is reported. */
  function UserValidate(user: User, isEmail: string -> bool): (errs: Errors)
    ensures "email" in errs <==> EmailError(user.email, isEmail).Some?
    ensures "email" in errs ==> errs["email"] == EmailError(user.email, isEmail).value
    ensures "password" in errs <==> PasswordError(user.password).Some?
    ensures "password" in errs ==> errs["password"] == PasswordError(user.password).value
    ensures errs.Keys <= {"email", "password"}
  {
    var fields := UserFields(user, isEmail);
    assert DistinctNames(fields);
    ValidateStructReports(fields);
    assert EmailError(user.email, isEmail) == Check(fields[0].value, fields[0].rules);
    assert PasswordError(user.password) == Check(fields[1].value, fields[1].rules);
    ValidateStruct(fields)
  }

  function UserFields(user: User, isEmail: string -> bool): seq<Field>
  {
    [Field("email", user.email, EmailRules(isEmail)), Field("password", user.password, PasswordRules())]
  }

  /** A user passes exactly when both fields pass. */
  lemma UserValidateAccepts(user: User, isEmail: string -> bool)
    ensures UserValidate(user, isEmail) == map[] <==>
      (user.email != [] && |user.email| <= 30 && isEmail(user.email) && 6 <= |user.password| <= 30)
  {
  }

  /** The name is never inspected. */
  lemma NameNotInspected(a: User, b: User, isEmail: string -> bool)
    requires a.email == b.email && a.password == b.password
    ensures UserValidate(a, isEmail) == UserValidate(b, isEmail)
  {
  }
}
