/** HTTP status codes for the registry's errors (web/api/errors.go). */
module ApiErrors {
  import opened Wrappers
  import opened Errors

  const STATUS_BAD_REQUEST := 400
  const STATUS_UNAUTHORIZED := 401
  const STATUS_FORBIDDEN := 403
  const STATUS_NOT_FOUND := 404
  const STATUS_METHOD_NOT_ALLOWED := 405
  const STATUS_CONFLICT := 409
  const STATUS_INTERNAL_SERVER_ERROR := 500

  /** The errors the API reports as a bad request. */
  predicate IsBadRequest(err: Error) {
    err == WrongDataType || err == IDMismatch || err == InstIDChange
    || err == IdentifierChange || err == DecodeCookie
  }

  /** StatusCodeForError: Go compares the error with each sentinel; every
      error that is not one of the listed sentinels falls to 500. */
  function StatusCodeForError(err: Error): (status: int)
    ensures status == STATUS_UNAUTHORIZED <==> err == InvalidLogin
    ensures status == STATUS_FORBIDDEN <==> err == AccountDeactivated || err == PermissionDenied
    ensures status == STATUS_NOT_FOUND <==> err == ParentRecordNotFound
    ensures status == STATUS_BAD_REQUEST <==> IsBadRequest(err)
    ensures status == STATUS_METHOD_NOT_ALLOWED <==> err == NotSupported
    ensures status == STATUS_CONFLICT <==> err == PendingWorkItems
    ensures status == STATUS_INTERNAL_SERVER_ERROR <==>
      !(err == InvalidLogin || err == AccountDeactivated || err == PermissionDenied
        || err == ParentRecordNotFound || IsBadRequest(err) || err == NotSupported
        || err == PendingWorkItems)
  {
    match err
    case InvalidLogin => STATUS_UNAUTHORIZED
    case AccountDeactivated => STATUS_FORBIDDEN
    case PermissionDenied => STATUS_FORBIDDEN
    case ParentRecordNotFound => STATUS_NOT_FOUND
    case WrongDataType => STATUS_BAD_REQUEST
    case IDMismatch => STATUS_BAD_REQUEST
    case InstIDChange => STATUS_BAD_REQUEST
    case IdentifierChange => STATUS_BAD_REQUEST
    case DecodeCookie => STATUS_BAD_REQUEST
    case NotSupported => STATUS_METHOD_NOT_ALLOWED
    case Internal => STATUS_INTERNAL_SERVER_ERROR
    case PendingWorkItems => STATUS_CONFLICT
    case _ => STATUS_INTERNAL_SERVER_ERROR
  }

  /** What AbortIfError does to the request: whether it aborted and, if so,
      the status it answered with. */
  datatype Abort = Continue | Aborted(status: int, err: Error)

  /** AbortIfError aborts exactly when there is an error, answering with the
      error's status code. */
  function AbortIfError(err: Option<Error>): (r: Abort)
    ensures r.Aborted? <==> err.Some?
    ensures r.Aborted? ==> r.err == err.value && r.status == StatusCodeForError(err.value)
  {
    match err
    case None => Continue
    case Some(e) => Aborted(StatusCodeForError(e), e)
  }
}
