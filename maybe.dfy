/** Optional values: `None` stands for Python's `None` and JavaScript's `null`. */
module Maybe {

  datatype Option<T> = None | Some(value: T) {

    /** The wrapped value, or `default` when there is none. */
    function GetOr(default: T): T {
      match this
      case Some(v) => v
      case None => default
    }
  }

  /** Outcome of a Django `objects.get(...)`: no row, exactly one row, or several rows. */
  datatype Lookup<T> = NotFound | Found(value: T) | Multiple
}
