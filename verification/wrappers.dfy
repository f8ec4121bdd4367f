/** Optional values and success-or-error results, used for every lookup that
    can miss and every operation that can throw in the kiosk server. */
module Wrappers {

  datatype Option<+T> = None | Some(value: T)

  datatype Result<+T, +E> = Success(value: T) | Failure(error: E)
}
