/** Failure-carrying results shared by the models. */
module Wrappers {
  datatype Option<+T> = None | Some(value: T)

  /** A value, or the (positive) errno the source reports as `-errno`. */
  datatype Result<+T> = Ok(value: T) | Err(errno: nat)

  const ENOENT: int := 2
  const EINVAL: nat := 22
  const EOVERFLOW: nat := 75
}
