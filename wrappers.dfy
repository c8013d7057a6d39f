/** Optional values, used for the certificate subject and the signing time a validation may
    lack, for a regular-expression search that may find nothing, and for the error text a
    report may carry. */
module Wrappers {

  datatype Option<+T> = None | Some(value: T) {

    /** The value if there is one, `default` otherwise. */
    function GetOr(default: T): T {
      match this
      case Some(v) => v
      case None => default
    }
  }
}
