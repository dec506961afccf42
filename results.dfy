/** Failure-compatible result type and the run's error kinds.
    Every place where the program terminates the process with a message becomes an `Err`. */
module Results {

  /** The input errors that abort the whole run. */
  datatype Error =
    | InvalidAzimuth                     // the window orientation is neither a compass label nor an angle in (-180, 180]
    | InvalidSubdivisionCount(ndt: int)  // the number of sub-hour steps is neither 1 nor an even number >= 2
    | MissingDimension(field: string)    // a required window dimension (X2 or Y2) was not given
    | InvalidDimension(field: string, value: real)  // a dimension with an inadmissible value

  datatype Result<+T> = Ok(value: T) | Err(error: Error) {
    predicate IsFailure() { Err? }

    function PropagateFailure<U>(): Result<U>
      requires Err?
    {
      Err(error)
    }

    function Extract(): T
      requires Ok?
    {
      value
    }
  }
}
