/** src/errors.rs: the HTTP rendering of errors — the status code of each
    error kind, the JSON bodies, and the handler that turns a failed
    payload or query-string extraction into a response. */
module Errors {
  import opened Wrappers
  import opened Validator

  const BAD_REQUEST: int := 400
  const UNPROCESSABLE_ENTITY: int := 422
  const INTERNAL_SERVER_ERROR: int := 500

  /** `StatusCode::canonical_reason` for the codes this module produces. */
  function CanonicalReason(status: int): Option<string>
  {
    if status == BAD_REQUEST then Some("Bad Request")
    else if status == UNPROCESSABLE_ENTITY then Some("Unprocessable Entity")
    else if status == INTERNAL_SERVER_ERROR then Some("Internal Server Error")
    else None
  }

  /** The error enum of this file; `detail` is the wrapped driver or other
      error, which never reaches the response body. */
  datatype AppError =
    | StaticValidation(message: string)
    | Validation(message: string)
    | DB(detail: string)
    | Unexpected(detail: string)

  /** `{"error": ...}` */
  datatype InternalErrorPayload = InternalErrorPayload(error: string)

  /** `{"error": ..., "field_errors": ...}`, the field errors omitted when absent. */
  datatype ValidationErrorPayload = ValidationErrorPayload(error: string, fieldErrors: Option<FieldErrors>)

  datatype Body = ValidationBody(validation: ValidationErrorPayload) | InternalBody(internal: InternalErrorPayload)

  datatype HttpResponse = HttpResponse(status: int, body: Body)

  /** `ValidationErrorPayload::new`: a message and no field errors. */
  function NewPayload(detail: string): (p: ValidationErrorPayload)
    ensures p.error == detail && p.fieldErrors.None?
  {
    ValidationErrorPayload(detail, None)
  }

  /** The `From<&ValidationErrors>` conversion: the field errors are copied,
      field by field, into a fresh map under the fixed message. */
  method FromValidationErrors(errors: FieldErrors) returns (p: ValidationErrorPayload)
    ensures p.error == "Validation error"
    ensures p.fieldErrors == Some(errors)
  {
    var copied: FieldErrors := map[];
    var pending := errors.Keys;
    while pending != {}
      invariant pending <= errors.Keys
      invariant copied.Keys == errors.Keys - pending
      invariant forall k :: k in copied ==> copied[k] == errors[k]
      decreases pending
    {
      var k :| k in pending;
      copied := copied[k := errors[k]];
      pending := pending - {k};
    }
    assert copied == errors;
    p := ValidationErrorPayload("Validation error", Some(copied));
  }

  /** `status_code`: the two validation kinds are the client's fault (400),
      the driver and unexpected errors the server's (500). */
  function StatusCode(e: AppError): (status: int)
    ensures status == BAD_REQUEST <==> (e.StaticValidation? || e.Validation?)
    ensures status == INTERNAL_SERVER_ERROR <==> (e.DB? || e.Unexpected?)
  {
    match e
    case StaticValidation(_) => BAD_REQUEST
    case Validation(_) => BAD_REQUEST
    case DB(_) => INTERNAL_SERVER_ERROR
    case Unexpected(_) => INTERNAL_SERVER_ERROR
  }

  /** `error_response`: a validation message in a validation payload, a
      static message in an internal payload, and for server-side errors
      only the canonical reason of the status, never the error's detail. */
  function ErrorResponse(e: AppError): (r: HttpResponse)
    ensures r.status == StatusCode(e)
    ensures e.Validation? ==> r.body == ValidationBody(NewPayload(e.message))
    ensures e.StaticValidation? ==> r.body == InternalBody(InternalErrorPayload(e.message))
    ensures (e.DB? || e.Unexpected?) ==> r.body == InternalBody(InternalErrorPayload("Internal Server Error"))
  {
    var status := StatusCode(e);
    match e
    case Validation(message) => HttpResponse(status, ValidationBody(NewPayload(message)))
    case StaticValidation(message) => HttpResponse(status, InternalBody(InternalErrorPayload(message)))
    case _ => HttpResponse(status, InternalBody(InternalErrorPayload(CanonicalReason(status).GetOr("Unknown error"))))
  }

  /** Server-side failures are indistinguishable to the client: whatever
      the wrapped error says, the response is the same. */
  lemma ServerErrorsHideDetail(a: string, b: string)
    ensures ErrorResponse(DB(a)) == ErrorResponse(DB(b)) == ErrorResponse(Unexpected(a))
    ensures ErrorResponse(DB(a)).status == INTERNAL_SERVER_ERROR
  {
  }

  /** The errors of the JSON and query-string extractors: failed field
      rules, a body that is not valid JSON for the type, or any other
      failure; `message` is the error's display text. */
  datatype ExtractorError =
    | Validate(errors: FieldErrors)
    | JsonPayloadError(message: string)
    | OtherError(message: string)

  /** `json_error_handler`: field-rule failures are a 400 with the field
      errors, a malformed body a 422 with its message, anything else a 400
      with its message. */
  method JsonErrorHandler(err: ExtractorError) returns (r: HttpResponse)
    ensures err.Validate? ==>
      r == HttpResponse(BAD_REQUEST, ValidationBody(ValidationErrorPayload("Validation error", Some(err.errors))))
    ensures err.JsonPayloadError? ==> r == HttpResponse(UNPROCESSABLE_ENTITY, ValidationBody(NewPayload(err.message)))
    ensures err.OtherError? ==> r == HttpResponse(BAD_REQUEST, ValidationBody(NewPayload(err.message)))
  {
    match err {
      case Validate(errors) =>
        var payload := FromValidationErrors(errors);
        r := HttpResponse(BAD_REQUEST, ValidationBody(payload));
      case JsonPayloadError(message) =>
        r := HttpResponse(UNPROCESSABLE_ENTITY, ValidationBody(NewPayload(message)));
      case OtherError(message) =>
        r := HttpResponse(BAD_REQUEST, ValidationBody(NewPayload(message)));
    }
  }
}
