/** Failure-carrying values shared by every module of the GrdPro model. */
module Results {

  /** An optional value, used where a Python builtin either yields a value or raises. */
  datatype Option<+T> = None | Some(value: T) {
    predicate IsFailure() { None? }

    function PropagateFailure<U>(): Option<U>
      requires None?
    {
      None
    }

    function Extract(): T
      requires Some?
    {
      value
    }
  }

  /** The exceptions the Python core can raise, one constructor per kind of raise site. */
  datatype Error =
    | MissingLine(index: nat)                           // IndexError: the file has no line `index`
    | BadNumber(token: string)                          // ValueError from float() or int()
    | FieldCount(line: nat, expected: nat, found: nat)  // ValueError from tuple unpacking
    | ZeroDivision                                      // ZeroDivisionError
    | InvalidGrdLength                                  // ValueError "Invalid grd data length."
    | ReshapeMismatch                                   // ValueError from numpy.reshape
    | FromPointOutOfRange                               // ValueError "Invalid range of xy_from point."
    | ToPointOutOfRange                                 // ValueError "Invalid range of xy_to point."
    | ZFromOutOfRange                                   // ValueError "Invalid range of z_from value."
    | ZToOutOfRange                                     // ValueError "Invalid range of z_to value."
    | IndexOutOfBounds                                  // IndexError from numpy indexing
    | NotIterable                                       // TypeError from sum() of a non-iterable

  /** Either the value an operation returns or the exception it raises. */
  datatype Result<+T> = Ok(value: T) | Err(error: Error) {
    predicate IsFailure() { Err? }

    function PropagateFailure<U>(): Result<U>
      requires Err?
    {
      Err(error)
    }

    function Extract(): T
      requires Ok?
    {
      value
    }
  }
}
