/**
 Failure-carrying results used by the sampler model.
 */
module Outcomes {

  /** An optional value: the lookup scan either found a bucket or it did not. */
  datatype Option<+T> = None | Some(value: T)

  /** The one run-time failure of the sampler: rescaling counts whose maximum is zero. */
  datatype Error = DivisionByZero

  /** Either a value or the error that prevented computing it. */
  datatype Result<+T> = Ok(value: T) | Err(error: Error)
}
