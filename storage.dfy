/**
 * What the migration worker sees of the object store. Every storage call is
 * an input to the model: the value it returned, or the exception it raised.
 */
module Storage {
  import opened Wrappers

  /** An exception raised by a storage call: a client error with its error code, or anything else. */
  datatype Error =
    | ClientError(code: Option<string>, message: string)
    | OtherError(message: string)

  /** The outcome of one storage call. */
  datatype Call<+T> = Ok(value: T) | Raise(error: Error)

  /**
   * The response of a head request: the ETag and ContentLength entries when
   * present, and the age in seconds of LastModified (the time elapsed since
   * the object was last modified) when present.
   */
  datatype HeadObject = HeadObject(etag: Option<string>, contentLength: Option<int>, lastModifiedAge: Option<real>)

  /** Error codes that mean "there is no such object". */
  const NotFoundCodes: set<string> := {"404", "NoSuchKey", "NotFound"}

  /** Error codes that mean "slow down and try again". */
  const ThrottleCodes: set<string> := {"429", "503", "Throttling", "TooManyRequests", "SlowDown"}

  /** `e` is a client error whose code is one of `codes`. */
  predicate HasCode(e: Error, codes: set<string>) {
    e.ClientError? && e.code.Some? && e.code.value in codes
  }
}
