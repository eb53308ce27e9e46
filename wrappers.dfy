/** Optional values (Java's nullable references) and success-or-error results
    (the service's thrown ResponseStatusException, made explicit). */
module Wrappers {

  datatype Option<+T> = None | Some(value: T)

  datatype Result<+R, +E> = Success(value: R) | Failure(error: E)
}
