/** Values shared by the whole model: optional values, the ways a request can fail,
    and the JSON scalars that request bodies and stored documents are made of. */
module Common {

  datatype Option<+T> = None | Some(value: T)

  /** How a request ends without doing its work.
      `Unauthorized` is a 401 reply and `Forbidden` a 403 reply; `ServerError` stands for a
      handler or middleware that throws (a TypeError on a missing value, an ObjectId
      constructor rejecting its argument, a duplicate `_id` on insert). */
  datatype Failure = Unauthorized | Forbidden | ServerError

  datatype Result<+T> = Ok(value: T) | Err(failure: Failure)

  /** The outcome of a middleware: `Pass` calls `next()`, `Fail` ends the request. */
  datatype Gate = Pass | Fail(failure: Failure)

  /** A JSON scalar; `JNull` is `null`. Where the model must tell a missing field from a
      `null` one, the field is an `Option<Json>`. */
  datatype Json = JNull | JBool(b: bool) | JNum(n: real) | JStr(s: string)
}
