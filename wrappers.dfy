/** Optional values and success-or-error results, used for C# nullable references,
    TypeScript `undefined`, and operations that throw. */
module Wrappers {

  datatype Option<+T> = None | Some(value: T)

  /** The outcome of an operation that either returns a value or throws `error`. */
  datatype Result<+T, +E> = Ok(value: T) | Err(error: E)
}
