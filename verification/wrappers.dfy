/** The Some/None datatype used wherever the source has a value that may be
    absent (a reply the provider did not give, a database reference that was
    never opened, a dictionary key that is missing). */
module Wrappers {

  datatype Option<+T> = None | Some(value: T) {

    /** The encapsulated value, or `default` when there is none
        (Python's `d.get(key, default)`). */
    function GetOr(default: T): T {
      match this
      case Some(v) => v
      case None => default
    }
  }
}
