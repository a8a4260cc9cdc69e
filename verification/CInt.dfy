/** Fixed-width integers and the C operators that differ from Dafny's own. */
module CInt {

  const TWO_63 := 0x8000_0000_0000_0000
  const TWO_64 := 0x1_0000_0000_0000_0000
  const TWO_126 := 0x4000_0000_0000_0000_0000_0000_0000_0000
  const TWO_127 := 0x8000_0000_0000_0000_0000_0000_0000_0000
  const TWO_128 := 0x1_0000_0000_0000_0000_0000_0000_0000_0000

  predicate IsInt32(x: int) { -0x8000_0000 <= x < 0x8000_0000 }

  predicate IsInt64(x: int) { -TWO_63 <= x < TWO_63 }

  predicate IsInt128(x: int) { -TWO_127 <= x < TWO_127 }

  /** Two's complement reduction to 32 bits. */
  function Wrap32(x: int): (r: int)
    ensures IsInt32(r)
    ensures IsInt32(x) ==> r == x
  {
    (x + 0x8000_0000) % 0x1_0000_0000 - 0x8000_0000
  }

  /** Two's complement reduction to 64 bits. */
  function Wrap64(x: int): (r: int)
    ensures IsInt64(r)
    ensures IsInt64(x) ==> r == x
  {
    (x + TWO_63) % TWO_64 - TWO_63
  }

  /** Two's complement reduction to 128 bits. */
  function Wrap128(x: int): (r: int)
    ensures IsInt128(r)
    ensures IsInt128(x) ==> r == x
  {
    (x + TWO_127) % TWO_128 - TWO_127
  }

  function Abs(x: int): nat { if x < 0 then -x else x }

  /** C's `/`: the quotient truncates toward zero. */
  function Div(a: int, b: int): int
    requires b != 0
  {
    if a >= 0 then a / b else -(-a / b)
  }

  /** C's `%`: the remainder takes the sign of the dividend. */
  function Mod(a: int, b: int): int
    requires b != 0
  {
    a - b * Div(a, b)
  }

  function Min(a: int, b: int): int { if a < b then a else b }

  function Max(a: int, b: int): int { if a < b then b else a }

  /** Division by a constant, from a quotient and remainder already in hand. */
  lemma QuotientIs(n: int, b: int, q: int, r: int)
    requires 0 < b && n == b * q + r && 0 <= r < b
    ensures n / b == q
  {
    var k := n / b;
    assert k < q ==> b * k <= b * (q - 1);
    assert k > q ==> b * k >= b * (q + 1);
  }
}
