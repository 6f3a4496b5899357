/** Optional values, results and the errors the emulated node raises. */
module Common {

  datatype Option<+T> = None | Some(value: T)

  /** What the backend raises instead of returning. */
  datatype Error =
    /** `ProtobuffsFailedRequest` with code `:not_found`: a missing key. */
    | NotFound
    /** `ProtobuffsErrorResponse` carrying an error code and message (missing search index or schema). */
    | ErrorResponse(code: int, message: string)
    /** `ProtobuffsErrorResponse` raised by the CRDT loader for a datatype without a default. */
    | UnsupportedDatatype(name: string)
    /** An exception raised by the Ruby runtime itself (`TypeError`, `NoMethodError`) on ill-typed data. */
    | Fault(message: string)

  datatype Result<+T> = Ok(value: T) | Err(error: Error)
}
