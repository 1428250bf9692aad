/** Failure values of the analysis chain and a failure-compatible result type. */
module Errors {

  /** What can go wrong in the chain, named after what the library calls would do. */
  datatype Error =
    | EmptyInput          // np.convolve or np.max given an empty array (ValueError)
    | FlatOnsetFunction   // the maximum of the onset detection function is 0: division by zero
    | InvalidDistance     // find_peaks given a distance below 1 (ValueError)
    | EmptyLagWindow      // np.argmax over an empty slice of the autocorrelation (ValueError)
    | ZeroDelay           // the winning lag is 0 samples: 60 / 0 seconds is an infinite tempo

  datatype Result<T> = Ok(value: T) | Err(error: Error) {

    predicate IsFailure() {
      Err?
    }

    function PropagateFailure<U>(): Result<U>
      requires Err?
    {
      Err(error)
    }

    function Extract(): T
      requires Ok?
    {
      value
    }
  }
}
