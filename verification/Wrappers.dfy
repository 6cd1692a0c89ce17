/** The nullable values of the source. */
module Wrappers {
  datatype Option<T> = None | Some(value: T) {
    /** `this ?? fallback` when the fallback is itself nullable. */
    function Or(fallback: Option<T>): Option<T> {
      if Some? then this else fallback
    }

    /** `this ?? fallback` when the fallback is not nullable. */
    function GetOr(fallback: T): T {
      if Some? then value else fallback
    }
  }
}
