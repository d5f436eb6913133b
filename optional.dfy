/** The usual Some/None datatype, used for Python values that may be absent. */
module Optional {
  datatype Option<T> = None | Some(value: T) {
    function GetOr(default: T): T {
      match this
      case Some(v) => v
      case None => default
    }
  }
}
