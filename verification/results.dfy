/** Failure-carrying datatypes used by the codec: an optional value (a C pointer
    that may be NULL) and a result that is either a value or a rejection reason. */
module Results {

  /** An optional value; `None` plays the part of a NULL pointer argument. */
  datatype Option<+T> = None | Some(value: T)

  /** Either a decoded value or the reason the input was refused. */
  datatype Result<+T, +E> = Ok(value: T) | Err(reason: E)
}
