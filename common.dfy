/** Values shared by every part of the booru client model: optional values, the
    outcome of an operation, the error kinds the client raises and the record
    of one public call (the requests it sent, in order, and its outcome). */
module Common {

  datatype Option<+T> = None | Some(value: T)

  /** The outcome of an operation; supports `:-` for early return on failure. */
  datatype Result<+R> = Success(value: R) | Failure(error: Error) {
    predicate IsFailure() { Failure? }

    function PropagateFailure<U>(): Result<U>
      requires Failure?
    {
      Failure(error)
    }

    function Extract(): R
      requires Success?
    {
      value
    }
  }

  /** The exceptions the client lets escape, one constructor per kind. */
  datatype Error =
    | FeatureUnavailable          // the capability gate refused the operation
    | TooManyTags                 // more than two tags on a limited booru, or HTTP 422
    | InvalidTags                 // zero matching posts, or no wiki page with that title
    | AuthentificationRequired    // HTTP 403
    | HttpError(code: int)        // any other non-success HTTP status
    | ArgumentNull                // a null argument, or a null tag element
    | InvalidArgument             // a rating letter outside g/s/q/e; a string key on a JSON array
    | ArgumentOutOfRange          // the random source asked for a negative upper bound
    | NullReference               // a null endpoint, a null Auth, a missing JSON property
    | InvalidCast                 // a JSON token of the wrong shape
    | InvalidOperation            // First() on an object with no property; a key on a JSON value
    | IndexOutOfRange             // an XML attribute that is not there
    | ParseError                  // a response body the JSON/XML parser or a decoder rejects
    | JsonSerialization           // a typed DeserializeObject<T> on a body of another top-level shape

  /** One public operation: the request URLs it sent, in order, and its outcome. */
  datatype Call<+T> = Call(sent: seq<string>, result: Result<T>)

  /** The outcome of an operation that failed before sending anything. */
  function Refused<T>(e: Error): Call<T>
  {
    Call([], Failure(e))
  }
}
