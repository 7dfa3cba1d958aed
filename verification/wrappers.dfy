/** Optional values and results with an error, for the dashboard's missing
    cells (pandas NaN/NaT) and for the operations that raise. */
module Wrappers {

  /** A possibly missing cell: `None` stands for NaN/NaT after coercion. */
  datatype Option<+T> = None | Some(value: T)

  /** The outcome of an operation that may raise in the dashboard script. */
  datatype Result<+R, +E> = Success(value: R) | Failure(error: E)
}
