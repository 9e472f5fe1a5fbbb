/** The result of an operation that may throw. */
module JsonResult {
  // The kinds of exception the library throws.
  datatype Error = DomainError | OutOfRange | InvalidArgument | BadAllocation | AssertionFailed

  datatype Option<+T> = None | Some(value: T)

  datatype Result<+T> = Ok(value: T) | Err(error: Error)
}
