/** A value that may be absent: the `bool *ok` out-parameter of Qt's number
    conversions and the "not found" answer of a lookup. */
module Optional {

  datatype Option<+T> = None | Some(value: T) {

    function GetOr(default: T): T
    {
      match this
      case Some(v) => v
      case None => default
    }
  }
}
