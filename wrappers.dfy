/** Values that stand for JavaScript's optional fields and for calls into code outside the model. */
module Wrappers {

  /** An optional value: a TypeScript field typed `T | undefined` (or `T | null`). */
  datatype Option<+T> = None | Some(value: T) {

    /** JavaScript's `value || fallback` for an optional value that cannot itself be falsy. */
    function GetOr(fallback: T): T {
      match this
      case Some(v) => v
      case None => fallback
    }
  }

  /** The outcome of an awaited call into the hosted services: it either threw or returned a value. */
  datatype Outcome<+T> = Threw | Returned(value: T)

  /** JavaScript's `s || fallback` on a string: the empty string is falsy. */
  function OrElse(s: string, fallback: string): (r: string)
    ensures s != "" ==> r == s
    ensures s == "" ==> r == fallback
  {
    if s != "" then s else fallback
  }

  /** JavaScript's `s || fallback` on an optional string: `undefined` and `""` are both falsy. */
  function OptOrElse(s: Option<string>, fallback: string): (r: string)
    ensures s.Some? && s.value != "" ==> r == s.value
    ensures (s.None? || s.value == "") ==> r == fallback
  {
    match s
    case Some(v) => OrElse(v, fallback)
    case None => fallback
  }
}
