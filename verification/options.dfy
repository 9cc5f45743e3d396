/** An optional value: the shape of a JavaScript property that may be missing
    (`undefined`) on the résumé object the component receives. */
module Options {

  datatype Option<+T> = None | Some(value: T) {

    /** The wrapped value, or `default` when there is none. */
    function GetOr(default: T): T {
      match this
      case Some(v) => v
      case None => default
    }
  }
}
