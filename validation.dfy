/**
 * The part of the ozzo-validation library the validators use: a struct is
 * checked field by field; each field runs its rules in order and reports the
 * first rule that fails; the result maps each failing field's JSON name to
 * that rule's message, and the empty map is Go's nil error.
 */
module Validation {
  import opened Wrappers

  /** Field name to message; the empty map is Go's nil error. */
  type Errors = map<string, string>

  datatype Rule =
    | Required(message: string)
    | RuneLength(min: nat, max: nat, message: string)
    | Format(accepts: string -> bool, message: string)

  /** One `validation.Field(&value, rules...)` argument. */
  datatype Field = Field(name: string, value: string, rules: seq<Rule>)

  /** Whether `value` passes `rule`. As in the library, only `Required`
      rejects an empty value; the other rules let it through. A single zero
      bound of `RuneLength` means "no bound on that side", and two zero bounds
      admit only the empty value. `|value|` counts runes. */
  predicate Passes(rule: Rule, value: string)
  {
    match rule
    case Required(_) => value != []
    case RuneLength(min, max, _) =>
      value == [] || !((min > 0 && |value| < min) || (max > 0 && |value| > max) || (min == 0 && max == 0))
    case Format(accepts, _) => value == [] || accepts(value)
  }

  /** The message of the first rule `value` fails, or None when it passes all. */
  function Check(value: string, rules: seq<Rule>): (r: Option<string>)
    ensures r.None? <==> forall i :: 0 <= i < |rules| ==> Passes(rules[i], value)
    ensures r.Some? ==>
      exists i :: 0 <= i < |rules| && !Passes(rules[i], value) && r.value == rules[i].message
        && (forall j :: 0 <= j < i ==> Passes(rules[j], value))
  {
    if rules == [] then None
    else if !Passes(rules[0], value) then Some(rules[0].message)
    else
      var r := Check(value, rules[1..]);
      assert forall i :: 1 <= i < |rules| ==> rules[i] == rules[1..][i - 1];
      r
  }

  /** No two fields share a name, as no two fields of a Go struct do. */
  predicate DistinctNames(fields: seq<Field>)
  {
    forall i, j :: 0 <= i < j < |fields| ==> fields[i].name != fields[j].name
  }

  /** `errs` holds the verdict on `field`: its first failing rule's message
      under its name, or no entry when it passes. */
  predicate Reported(errs: Errors, field: Field)
  {
    var verdict := Check(field.value, field.rules);
    if verdict.Some? then field.name in errs && errs[field.name] == verdict.value else field.name !in errs
  }

  /** `validation.ValidateStruct`: every field is checked, failures collected by name. */
  function ValidateStruct(fields: seq<Field>): (errs: Errors)
    ensures forall name :: name in errs ==> exists i :: 0 <= i < |fields| && fields[i].name == name
  {
    if fields == [] then map[]
    else
      var rest := ValidateStruct(fields[1..]);
      match Check(fields[0].value, fields[0].rules)
      case None => rest
      case Some(m) => rest[fields[0].name := m]
  }

  /** With distinct field names, each field's verdict is reported under its
      own name and no field's verdict overwrites another's. */
  lemma {:induction false} ValidateStructReports(fields: seq<Field>)
    requires DistinctNames(fields)
    ensures forall i :: 0 <= i < |fields| ==> Reported(ValidateStruct(fields), fields[i])
  {
    if fields != [] {
      var tail := fields[1..];
      assert DistinctNames(tail) by {
        forall i, j | 0 <= i < j < |tail| ensures tail[i].name != tail[j].name {
          assert tail[i] == fields[i + 1] && tail[j] == fields[j + 1];
        }
      }
      ValidateStructReports(tail);
      var rest := ValidateStruct(tail);
      var errs := ValidateStruct(fields);
      var verdict := Check(fields[0].value, fields[0].rules);
      assert errs == if verdict.Some? then rest[fields[0].name := verdict.value] else rest;
      forall i | 1 <= i < |fields| ensures Reported(errs, fields[i]) {
        assert fields[i] == tail[i - 1];
        assert Reported(rest, fields[i]);
        assert fields[i].name != fields[0].name;
      }
    }
  }
}
