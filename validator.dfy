/** The shapes of the `validator` crate that the payload rules produce: a
    `ValidationError` per failed rule, collected per field. Only the fields
    that failed at least one rule appear in the map. */
module Validator {
  import opened Wrappers

  datatype ValidationError = ValidationError(code: string, message: Option<string>)

  /** `ValidationErrors::field_errors()`: field name to the errors of its rules, in rule order. */
  type FieldErrors = map<string, seq<ValidationError>>

  /** Records the errors of one field, leaving the map alone when the field passed every rule. */
  function AddField(errors: FieldErrors, field: string, fieldErrors: seq<ValidationError>): (r: FieldErrors)
    ensures |fieldErrors| == 0 ==> r == errors
    ensures |fieldErrors| > 0 ==> field in r && r[field] == fieldErrors
    ensures forall f :: f != field ==> (f in r <==> f in errors) && (f in r ==> r[f] == errors[f])
  {
    if |fieldErrors| == 0 then errors else errors[field := fieldErrors]
  }

  /** The error of a failed `length(min, max)` rule. */
  const LENGTH: ValidationError := ValidationError("length", None)

  /** The error of a failed `range(min)` rule. */
  const RANGE: ValidationError := ValidationError("range", None)

  /** `length(min, max)`, counting characters. */
  function CheckLength(s: string, min: nat, max: nat): (r: seq<ValidationError>)
    ensures r == [] <==> min <= |s| <= max
    ensures r != [] ==> r == [LENGTH]
  {
    if min <= |s| <= max then [] else [LENGTH]
  }
}
