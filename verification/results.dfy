/** Failure-carrying datatypes shared by the upload handlers: the Go functions
    return `(value, error)` pairs, modelled here as `Result` and `Outcome`. */
module Results {

  /** A value that may be absent: a nil pointer, a failed lookup, or a
      library call that either yields a value or an error we do not inspect. */
  datatype Option<+T> = None | Some(value: T)

  /** The failures the modelled Go functions report, each tagged with the
      input that caused it. Where the Go code wraps a library error
      (`%w`), the model keeps the input instead of the wrapped error. */
  datatype Error =
    | NotImageType(contentType: string)       // readContentType
    | InvalidMediaType(contentType: string)   // readVideoContentType, parse failure
    | NotMp4(mediaType: string)               // readVideoContentType, wrong type
    | MalformedLocator(url: string)           // dbVideoToSignedVideo, bad split
    | PresignFailed(bucket: string, key: string) // dbVideoToSignedVideo, presigning

  /** A Go `(T, error)` return. */
  datatype Result<+T> = Success(value: T) | Failure(error: Error)

  /** A Go function that returns only an `error`. */
  datatype Outcome = Pass | Fail(error: Error)
}
