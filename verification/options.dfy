/** The one optional-value type the model needs: JavaScript's `undefined`
    result of a failed lookup becomes `None`. */
module Options {

  datatype Option<+T> = None | Some(value: T) {

    /** The carried value, or `default` when there is none. */
    function GetOr(default: T): T {
      match this
      case Some(v) => v
      case None => default
    }
  }
}
