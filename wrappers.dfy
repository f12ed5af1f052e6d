/** Option and Result values used for JavaScript's `undefined`/`null` and for
    handler error paths (an HTTP status with a message). */
module Wrappers {

  datatype Option<+T> = None | Some(value: T) {
    function GetOr(default: T): T {
      match this
      case Some(v) => v
      case None => default
    }
  }

  /** An HTTP error response: status code and JSON `message`. */
  datatype HttpError = HttpError(status: int, message: string)

  datatype Result<+T> = Ok(value: T) | Err(error: HttpError)

  /** One failing path of a Mongoose `ValidationError` and its validator's message. */
  datatype PathError = PathError(path: string, message: string)

  /** The `message` of a document's `ValidationError` (`save`, `create`) when
      one path fails. */
  function DocumentFailed(model: string, e: PathError): string {
    model + " validation failed: " + e.path + ": " + e.message
  }

  /** The `message` of an update's `ValidationError` (`runValidators: true`)
      when one path fails. */
  function QueryFailed(e: PathError): string {
    "Validation failed: " + e.path + ": " + e.message
  }

  /** `err.response?.data?.message || fallback`: the server's message when it
      sent one (`""` when it did not), else the fallback. */
  function MessageOr(message: string, fallback: string): (r: string)
    ensures message != "" ==> r == message
    ensures message == "" ==> r == fallback
  {
    if message != "" then message else fallback
  }
}
