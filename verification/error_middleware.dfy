/**
 * `errorHandler`, the application's error middleware, taken on its own: a thrown `ApiResponse`
 * is sent as it is; a database error is passed to `handleMongoErrors`; anything else is a 500.
 * The application mounts it before its routers, so it is never handed an error a route
 * throws; see README, Left out.
 */
module ErrorMiddleware {
  import opened Wrappers
  import opened Envelope
  import opened MongooseError

  /** What a handler can throw: an `ApiResponse`, or some other error object. */
  datatype Thrown<+T> = ApiThrown(reply: Reply<T>) | Raw(error: ErrorObject)

  predicate IsDatabaseError(e: ErrorObject) {
    IsValidation(e) || IsDuplicate(e) || IsCast(e)
  }

  function ErrorHandler<T>(t: Thrown<T>): (r: Reply<T>)
    ensures t.ApiThrown? ==> r == t.reply
    ensures t.Raw? ==> r == HandleMongoErrors(t.error)
    ensures t.Raw? && !IsDatabaseError(t.error) ==> r == Fail(500, InternalError)
    ensures t.Raw? ==> r.statusCode >= 400 && r.data.None?
  {
    match t
    case ApiThrown(reply) => reply
    case Raw(e) =>
      if IsDatabaseError(e) then HandleMongoErrors(e) else Fail(500, InternalError)
  }
}
