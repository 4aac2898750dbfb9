/** A value that may be absent: JavaScript's `undefined`, `null` or `NaN`. */
module Options {

  datatype Option<T> = None | Some(value: T) {

    /** The value, or `default` when absent (the `??` and `||` fallbacks of the source). */
    function GetOr(default: T): T {
      match this
      case Some(v) => v
      case None => default
    }
  }
}
