/** Java references that may be null, and Java's rendering of them in string concatenation. */
module Nullable {

  /** A field, parameter or query result that may be `null`. */
  datatype Option<+T> = None | Some(value: T) {
    /** `x != null ? x : fallback` */
    function OrElse(fallback: T): T {
      if Some? then value else fallback
    }

    /** `x != null ? x : other`, keeping the result nullable. */
    function Or(other: Option<T>): Option<T> {
      if Some? then this else other
    }
  }

  /** `"" + s` in Java: a null string is rendered as the four letters "null". */
  function Render(s: Option<string>): (r: string)
    ensures s.Some? ==> r == s.value
    ensures s.None? ==> r == "null"
  {
    if s.Some? then s.value else "null"
  }
}
