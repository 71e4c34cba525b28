/** IEEE 754 binary64 values by bit pattern: the comparisons that ignore rounding. */
module Ieee {
  type Bits = n: nat | n < 0x1_0000_0000_0000_0000

  const SIGN: nat := 0x8000_0000_0000_0000
  const INFINITY: nat := 0x7FF0_0000_0000_0000
  const NEG_ZERO: Bits := 0x8000_0000_0000_0000

  /** Exponent and fraction, the sign removed. */
  function Magnitude(b: Bits): nat {
    if b < SIGN then b else b - SIGN
  }

  predicate IsNaN(b: Bits) {
    Magnitude(b) > INFINITY
  }

  predicate IsZero(b: Bits) {
    Magnitude(b) == 0
  }

  /** The order of non-NaN values is the order of these integers. */
  function Ordinal(b: Bits): int {
    if b < SIGN then b else SIGN - b
  }

  /** `==` on floats: NaN equals nothing, and the two zeros are equal. */
  predicate NumEq(a: Bits, b: Bits) {
    !IsNaN(a) && !IsNaN(b) && (a == b || (IsZero(a) && IsZero(b)))
  }
}
