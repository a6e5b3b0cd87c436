/** Optional values and failure-carrying results, standing in for Java's
    null returns and thrown exceptions. */
module Results {

  datatype Option<+T> = None | Some(value: T)

  datatype Result<+T, +E> = Ok(value: T) | Fail(error: E)
}
