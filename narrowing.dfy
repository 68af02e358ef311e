/**
 * Java's signed integral types and the narrowing primitive conversion between
 * them (section 5.1.3 of the Java Language Specification): a narrowing cast
 * keeps the low-order bits of a long and reads them as two's complement.
 */
module Narrowing {

  datatype Width = Byte | Short | Int | Long

  /** Half the number of values of the type: 2 to the power (bits - 1). */
  function Half(w: Width): int {
    match w
    case Byte => 0x80
    case Short => 0x8000
    case Int => 0x8000_0000
    case Long => 0x8000_0000_0000_0000
  }

  /** The values of the signed type of width `w`. */
  predicate InRange(x: int, w: Width) {
    -Half(w) <= x < Half(w)
  }

  /** The cast `(w) x`: truncate to the width's low-order bits, sign-extend. */
  function Cast(x: int, w: Width): (r: int)
    ensures InRange(r, w)
    ensures InRange(x, w) ==> r == x
    ensures (x - r) % (2 * Half(w)) == 0
  {
    (x + Half(w)) % (2 * Half(w)) - Half(w)
  }

  /**
   * The test `(w) l == l` is a range check: the cast gives its argument back
   * exactly when the argument is a value of the narrower type.
   */
  lemma CastExact(x: int, w: Width)
    ensures Cast(x, w) == x <==> InRange(x, w)
  {
  }

  /**
   * `BigDecimal.longValueExact`: the value as a long when it has no fractional
   * part and lies in the long range, and nothing otherwise.
   */
  function LongValueExact(n: real): (r: Option<int>)
    ensures r.Some? <==> n.Floor as real == n && InRange(n.Floor, Long)
    ensures r.Some? ==> r.value as real == n && InRange(r.value, Long)
  {
    if n.Floor as real == n && InRange(n.Floor, Long) then Some(n.Floor) else None
  }

  datatype Option<+T> = None | Some(value: T)
}
