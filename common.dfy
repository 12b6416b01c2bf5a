/** Values shared by every edge function: optional values and JavaScript truthiness. */
module Common {

  /** A value that may be `null`/`undefined` in the source. */
  datatype Option<+T> = None | Some(value: T) {
    function GetOr(default: T): T {
      match this
      case Some(v) => v
      case None => default
    }
  }

  /** `!!s` for an optional string: present and not the empty string. */
  predicate Truthy(s: Option<string>) {
    s.Some? && s.value != ""
  }

  /** The farthest a `Date` reaches from the epoch, in ms: beyond it (or for NaN) the date
      is invalid and `toISOString` throws a `RangeError` with this message. */
  const MAX_TIME_MS := 8_640_000_000_000_000
  const INVALID_TIME := "Invalid time value"

  /** `new Date(ms).toISOString()` returns rather than throws. */
  predicate IsoFormattable(ms: int) {
    -MAX_TIME_MS <= ms <= MAX_TIME_MS
  }

  /** `a || b` on optional strings (the first truthy operand, otherwise `b`). */
  function OrElse(a: Option<string>, b: Option<string>): Option<string> {
    if Truthy(a) then a else b
  }
}
