/** Optional values and results for the system's error paths: Python's `None`
    and the exceptions the components raise or catch. */
module Results {

  datatype Option<T> = None | Some(value: T)

  /** `Err` carries the text Python's `str(e)` would give for the exception. */
  datatype Result<T> = Ok(value: T) | Err(error: string)
}
