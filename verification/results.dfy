/** Optional values and success-or-error results, for the operations that can refuse their input. */
module Results {

  datatype Option<T> = None | Some(value: T)

  datatype Result<T, E> = Ok(value: T) | Err(error: E)
}
