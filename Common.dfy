/** Values shared by every component: optional values, the errors the
    components raise, and a success-or-error result. */
module Common {

  datatype Option<+T> = None | Some(value: T)

  /** The exceptions the core throws, as values. */
  datatype Error =
    /** `System.ArgumentException(message, paramName)`; the date check raises it without a parameter name. */
    | ArgumentError(message: string, paramName: Option<string>)
    /** The exception the publisher raised while sending the card with this id, rethrown unchanged. */
    | PublishFailed(cardId: int)

  datatype Result<+T> = Ok(value: T) | Err(error: Error)
}
