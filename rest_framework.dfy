/** The pieces of the web framework that the core's code consults: the
    exceptions its handlers raise, the permission classes, the semantics of a
    serializer `CharField` and of Django's e-mail validator. */
module RestFramework {
  import opened Wrappers

  /** Exceptions raised by request handlers, reported as values. */
  datatype ApiError =
    | WrongArguments(message: string)
    | BadRequest(detail: string)
    | RequestValidationError(errors: seq<string>)
    | NotSupported
    | NotFound
    | PermissionDenied
      /** a write that breaks a `unique=True` column */
    | DatabaseIntegrityError

  datatype PermissionClass = AllowAny | IsAuthenticated | IsTheSameUser

  /** Python truthiness of an optional string: None and "" are false. */
  predicate Falsy(v: Option<string>)
  {
    v.None? || v.value == ""
  }

  /** A serializer `CharField`: a missing value is an error only when the
      field is required; a present value must not be blank
      (`allow_blank` is false by default) and must respect the length bounds.
      `minLength == 0` stands for "no lower bound". */
  predicate CharFieldValid(v: Option<string>, required: bool, minLength: nat, maxLength: Option<nat>)
  {
    match v
    case None => !required
    case Some(s) => s != "" && minLength <= |s| && (maxLength.Some? ==> |s| <= maxLength.value)
  }

  /** Django's `validate_email`: it rejects a value without '@' before
      anything else; the rest of its grammar is the abstract `wellFormed`. */
  predicate ValidEmail(e: string, wellFormed: string -> bool)
  {
    '@' in e && wellFormed(e)
  }
}
