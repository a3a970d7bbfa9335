/** The "maybe absent" wrapper used for optional request fields, optional
    document fields and lookups that can miss. */
module Options {

  datatype Option<+T> = None | Some(value: T) {

    /** The wrapped value, or `default` when there is none (JavaScript `x || default`
        once truthiness has been decided by the caller). */
    function GetOr(default: T): T
    {
      if Some? then value else default
    }
  }
}
