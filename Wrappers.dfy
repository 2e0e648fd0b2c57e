/** Option and Result values standing for Rust's `Option` and `Result`. Every parse error
    type in the solvers is a unit struct, so `Err` carries nothing. */
module Wrappers {

  datatype Option<+T> = None | Some(value: T)

  datatype Result<+T> = Ok(value: T) | Err

  /** The outcome of a loop that the source runs without bound, run here with a budget:
      either it finished with a value or the budget ran out first. */
  datatype Fuelled<+T> = Finished(value: T) | OutOfFuel
}
