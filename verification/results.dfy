/** Failure-carrying results, used where the modelled code raises an exception. */
module Results {

  datatype Option<+T> = None | Some(value: T)

  datatype Result<+T, +E> = Success(value: T) | Failure(error: E)

  /** The Python exceptions the modelled scripts can raise on malformed input. */
  datatype PyError =
    | IndexError                  // indexing an empty list (`a[-1]`)
    | ValueError(text: string)    // `float(text)` on a field that is not a number
    | StructError                 // `struct.unpack` given a byte string of the wrong size
    | ZeroDivisionError           // a division whose divisor is zero
}
