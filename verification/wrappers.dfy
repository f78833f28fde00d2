/** The Some/None datatype used for JavaScript's `null`/`undefined` results. */
module Wrappers {

  datatype Option<+T> = None | Some(value: T) {

    /** The value, or `default` for `None`: JavaScript's `v || default` on a
        value that is never falsy when present. */
    function GetOr(default: T): T {
      if this.Some? then value else default
    }
  }
}
