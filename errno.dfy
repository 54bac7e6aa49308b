/**
 * Kernel error numbers returned (negated) by the write handlers, and the
 * result type of the steps of the write path that can fail.
 */
module Errno {

  /** Bad address: copy_from_user could not copy every byte. */
  const EFAULT: int := 14
  /** Invalid argument: the text is not a decimal integer. */
  const EINVAL: int := 22
  /** Result too large: the integer does not fit in a long. */
  const ERANGE: int := 34

  /** Either a value, or the negative error code the handler returns. */
  datatype Result<T> = Ok(value: T) | Err(code: int)
}
