/** Failure-carrying values used by the model. The Go source signals an
    absent error with `nil`; here that is `None`. */
module Wrappers {

  datatype Option<+T> = None | Some(value: T)
}
