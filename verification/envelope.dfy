/**
 * The response envelope `{statusCode, data, message}` that every handler sends.
 * Throughout the source the HTTP status passed to `res.status` is the same number as the
 * envelope's `statusCode`, so one field stands for both.
 */
module Envelope {
  import opened Wrappers

  datatype Reply<+T> = Reply(statusCode: int, data: Option<T>, message: string)

  /** A reply without payload (`new ApiResponse(code, null, message)`). */
  function Fail<T>(code: int, message: string): Reply<T> {
    Reply(code, None, message)
  }

  /** A reply carrying `data`. */
  function Send<T>(code: int, data: T, message: string): Reply<T> {
    Reply(code, Some(data), message)
  }
}
