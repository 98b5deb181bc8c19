/** Optional values, results, and the error outcomes the store's handlers report. */
module Wrappers {

  datatype Option<+T> = None | Some(value: T) {
    function GetOr(default: T): T {
      match this
      case Some(v) => v
      case None => default
    }
  }

  /** The failures a handler can answer with. The name says what the
      response means; the HTTP status is given by `Status`. */
  datatype ApiError =
    | ValidationError     // a serializer rejected the payload (400)
    | NotAuthenticated    // an anonymous caller hit an authenticated endpoint (401)
    | PermissionDenied    // a permission class refused the caller (403)
    | Forbidden           // the explicit FORBIDDEN answer of `confirm` (403)
    | NotFound            // get_object / get_object_or_404 found nothing visible (404)
    | InvalidStatus       // the explicit INVALID_STATUS answer of `confirm` (400)
    | EmptyCart           // the explicit EMPTY_CART answer of order creation (400)
    | InvalidCredentials  // login could not authenticate (401)
    | StorageRejected     // the database refused the write (a column constraint)
    | ServerError         // an exception escaped the handler logic (500)

  function Status(e: ApiError): (code: int)
    ensures 400 <= code < 600
    ensures code == 500 <==> e == ServerError
    ensures code == 404 <==> e == NotFound
    ensures e == StorageRejected ==> code == 400
  {
    match e
    case ValidationError => 400
    case NotAuthenticated => 401
    case PermissionDenied => 403
    case Forbidden => 403
    case NotFound => 404
    case InvalidStatus => 400
    case EmptyCart => 400
    case InvalidCredentials => 401
    case StorageRejected => 400
    case ServerError => 500
  }

  datatype Result<+T> = Ok(value: T) | Err(error: ApiError) {
    predicate IsFailure() { Err? }

    function PropagateFailure<U>(): Result<U>
      requires Err?
    {
      Err(error)
    }

    function Extract(): T
      requires Ok?
    {
      value
    }
  }
}
