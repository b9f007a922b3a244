/** Optional values: the model's stand-in for java.util.Optional and for nullable references. */
module Wrappers {

  datatype Option<+T> = None | Some(value: T) {

    /** Optional.orElse: the value when present, otherwise the default. */
    function GetOr(default: T): T {
      match this
      case Some(v) => v
      case None => default
    }
  }
}
