/** The value that may be absent: a nullable column, a missing dictionary key. */
module Options {

  datatype Option<+T> = None | Some(value: T) {

    /** Python's `value or default` when the value is a nullable string column. */
    function Or(default: T): T {
      match this
      case Some(v) => v
      case None => default
    }
  }
}
