/** The fixed-width integers and the C conversions that the rest of the model needs. */
module Words {
  const TWO32: int := 0x1_0000_0000
  const INT_MIN: int := -0x8000_0000

  type byte = x: int | 0 <= x < 256
  type uint32 = x: int | 0 <= x < TWO32
  type int32 = x: int | INT_MIN <= x < 0x8000_0000

  predicate FitsInt32(x: int) {
    INT_MIN <= x < 0x8000_0000
  }

  /** Unsigned 32-bit arithmetic: the result modulo 2^32. */
  function U32(x: int): uint32 {
    x % TWO32
  }

  /** A 32-bit pattern read as a signed number. */
  function I32(x: int): int32 {
    var u := x % TWO32;
    if u < 0x8000_0000 then u else u - TWO32
  }

  /** Conversion of an integral double to int. C leaves it undefined when the value
      does not fit; the value chosen here is the one x86 produces. */
  function ToInt(x: int): int32 {
    if FitsInt32(x) then x else INT_MIN
  }

  /** The C conversion of a double to an integer, and trunc(): towards zero. */
  function Trunc(r: real): int {
    if r < 0.0 then -((-r).Floor) else r.Floor
  }

  function Abs(x: int): nat {
    if x < 0 then -x else x
  }

  /** Signed reading undoes the wrap exactly on the numbers that fit. */
  lemma SignedOfWrapped(x: int)
    ensures I32(x) == x <==> FitsInt32(x)
  {
  }

  lemma SignedDifference(a: int, b: int)
    ensures I32(U32(a) - U32(b)) == I32(a - b)
  {
    ModDifference(a, b);
  }

  lemma ModDifference(a: int, b: int)
    ensures (a % TWO32 - b % TWO32) % TWO32 == (a - b) % TWO32
  {
    var d := (a / TWO32) - (b / TWO32);
    assert a % TWO32 - b % TWO32 == (a - b) - d * TWO32;
  }

  lemma ModSum(a: int, b: int)
    ensures U32(U32(a) + b) == U32(a + b)
  {
    assert a % TWO32 + b == (a + b) - (a / TWO32) * TWO32;
  }
}
