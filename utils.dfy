/** src/utils.rs: the reserved-key check on element documents. */
module Utils {
  import opened Wrappers
  import opened Json
  import opened Rest

  /** The key the server sets itself on every element. */
  const CREATED_AT: string := "created_at"

  const RESERVED_CREATED_AT: string := "cannot provide reserved attribute \"created_at\""

  /** `reject_created_at`: a document may not carry the `created_at` key;
      every other document, the empty one included, passes. */
  function RejectCreatedAt(data: JsonObject): (r: Result<(), AppError>)
    ensures r.Failure? <==> CREATED_AT in data
    ensures r.Failure? ==> r.error == StaticValidation(RESERVED_CREATED_AT)
  {
    if CREATED_AT in data then Failure(StaticValidation(RESERVED_CREATED_AT)) else Success(())
  }
}
