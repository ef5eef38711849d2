/** The optional-value datatype used wherever the source returns null or
    "nothing" (a null texture, an absent dictionary key, a failed parse). */
module Optional {

  datatype Option<+T> = None | Some(value: T) {

    /** The value, or `default` when there is none. */
    function GetOr(default: T): T
    {
      match this
      case Some(v) => v
      case None => default
    }
  }
}
