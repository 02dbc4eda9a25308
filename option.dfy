/** The optional value used wherever the source has `None` or a missing key. */
module Opt {

  datatype Option<T> = None | Some(value: T) {

    /** `d.get(key, default)`: the value when present, otherwise the default. */
    function GetOr(default: T): T {
      match this
      case Some(v) => v
      case None => default
    }
  }
}
