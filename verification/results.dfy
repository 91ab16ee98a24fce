/** Shared result type for the operations of the core that can fail. */
module Results {
  datatype Result<T, E> = Ok(value: T) | Err(error: E)
}
