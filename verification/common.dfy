/** Small value types shared by the other modules: an optional value, a
    success-or-error result, and the octet type used for encoded bytes. */
module Common {

  datatype Option<+T> = None | Some(value: T)

  /** The outcome of an operation that may reject with an error message. */
  datatype Result<+T> = Ok(value: T) | Err(message: string)

  /** An octet, as held by a Node.js `Buffer`. */
  type byte = x: int | 0 <= x < 256
}
