/** An optional value: the model's stand-in for a key that may be absent from
    one of the source's dictionaries, or for a job slot that may be empty. */
module Optional {

  datatype Option<+T> = None | Some(value: T) {

    /** The held value, or `default` when there is none (the source's `dict.get(key, default)`). */
    function GetOr(default: T): T {
      match this
      case Some(v) => v
      case None => default
    }
  }
}
