/** The few JavaScript values the dashboard's core passes around. */
module Js {

  /** A value that may be `undefined` (an absent array element or argument). */
  datatype Option<T> = None | Some(value: T)

  /** How a call completes: it returns a value, or it throws a TypeError. */
  datatype Outcome<T> = Returns(value: T) | Throws

  /** A number as unary `+` produces it from a route parameter: an integer or NaN. */
  datatype Num = Finite(value: int) | NaN

  /** `x - k`; NaN stays NaN. */
  function Minus(x: Num, k: int): Num
  {
    match x
    case Finite(v) => Finite(v - k)
    case NaN => NaN
  }
}
