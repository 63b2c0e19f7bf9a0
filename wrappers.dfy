/** Failure-carrying values shared by the modules of this model: an operation of
    the source that returns null or throws is modelled as returning one of these. */
module Wrappers {

  datatype Option<+T> = None | Some(value: T)

  datatype Result<+R, +E> = Success(value: R) | Failure(error: E)
}
