/** The optional value used for lookups that may find nothing and for
    fields that a stored snapshot may lack. */
module Options {
  datatype Option<+T> = None | Some(value: T) {
    function GetOr(default: T): T {
      match this
      case Some(v) => v
      case None => default
    }
  }
}
