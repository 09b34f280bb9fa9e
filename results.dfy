/** Two-variant values used throughout the model: an optional value (Python's
    `None` or a value) and the outcome of a step that can fail with a message. */
module Results {

  datatype Option<+T> = None | Some(value: T)

  datatype Result<+T> = Success(value: T) | Failure(error: string)
}
