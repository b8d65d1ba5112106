/** The error type the repository code returns (`actix_contrib_rest::result::AppError`). */
module Rest {
  import opened Wrappers

  datatype AppError =
    /** A lookup or guard found no row: `resource` with `attribute` equal to `value`. */
    | ResourceNotFound(resource: string, attribute: string, value: string)
    /** A uniqueness pre-check found a row with the same `attribute` value. */
    | ResourceAlreadyExists(resource: string, attribute: string, value: string)
    /** A business-rule violation with an optional machine-readable code. */
    | Validation(code: Option<string>, message: string)
    /** A business-rule violation with a fixed message. */
    | StaticValidation(message: string)
    /** An error reported by the database driver. */
    | DB(detail: string)
}
