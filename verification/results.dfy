/** Optional values and error-carrying results, shared by every module of the model.
    Swift's `T?` becomes `Option<T>`; a call that the source force-unwraps or that
    reports an error through a completion handler becomes a `Result`. */
module Results {

  datatype Option<+T> = None | Some(value: T)

  datatype Result<+T, +E> = Ok(value: T) | Err(error: E)
}
