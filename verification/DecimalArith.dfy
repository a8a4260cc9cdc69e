/**
 The expression engine's decimal arithmetic against exact arithmetic.

 A decimal stands for v / 10^scale. Statements compare decimals by counting both in the
 same small unit 10^-k, so that they are exact statements about integers.
 */
module DecimalArith {
  import opened CInt
  import opened Text

  /** An unscaled 128-bit integer and its number of fraction digits. */
  datatype Dec = Dec(v: int, scale: nat)

  predicate ValidDec(d: Dec) { IsInt128(d.v) && d.scale <= 38 }

  /** How many units of 10^-k the decimal is worth. */
  function Units(d: Dec, k: nat): int
    requires d.scale <= k
  {
    d.v * Pow10(k - d.scale)
  }

  function Fit(x: int): Option<int> { if IsInt128(x) then Some(x) else None }

  /** dec_scale_up: None past 10^38 or on overflow. */
  function ScaleUp(v: int, n: int): Option<int> {
    if n < 0 || n > 38 then None else Fit(v * Pow10(n))
  }

  function CommonScale(a: Dec, b: Dec): nat { if a.scale > b.scale then a.scale else b.scale }

  /** Both operands at the larger scale. */
  function Align(a: Dec, b: Dec): Option<(int, int)> {
    var r := CommonScale(a, b);
    match (ScaleUp(a.v, r - a.scale), ScaleUp(b.v, r - b.scale))
    case (Some(x), Some(y)) => Some((x, y))
    case _ => None
  }

  function Add(a: Dec, b: Dec): Option<Dec> {
    match Align(a, b)
    case None => None
    case Some(p) => if IsInt128(p.0 + p.1) then Some(Dec(p.0 + p.1, CommonScale(a, b))) else None
  }

  function Sub(a: Dec, b: Dec): Option<Dec> {
    match Align(a, b)
    case None => None
    case Some(p) => if IsInt128(p.0 - p.1) then Some(Dec(p.0 - p.1, CommonScale(a, b))) else None
  }

  /** The product, cut toward zero to at most 38 fraction digits. */
  function Mul(a: Dec, b: Dec): Option<Dec> {
    if !IsInt128(a.v * b.v) then None
    else if a.scale + b.scale <= 38 then Some(Dec(a.v * b.v, a.scale + b.scale))
    else PowNonzero(a.scale + b.scale - 38); Some(Dec(CInt.Div(a.v * b.v, Pow10(a.scale + b.scale - 38)), 38))
  }

  function DivScale(a: Dec): nat { if a.scale > 6 then a.scale else 6 }

  /** The quotient step of dec_div on the shifted numerator, with its wrapping doubling. */
  function RoundedQuotient(num: int, b: int): int
    requires b != 0 && IsInt128(b)
  {
    var neg := (num < 0) != (b < 0);
    var anum := if num < 0 then Wrap128(-num) else num;
    var ab := if b < 0 then Wrap128(-b) else b;
    var q := CInt.Div(anum, ab);
    var rem := anum - q * ab;
    var q' := if Wrap128(rem * 2) >= ab then q + 1 else q;
    Wrap128(if neg then -q' else q')
  }

  function Quotient(a: Dec, b: Dec): Option<Dec>
    requires ValidDec(b)
  {
    if b.v == 0 then None
    else
      match ScaleUp(a.v, DivScale(a) + b.scale - a.scale)
      case None => None
      case Some(num) => Some(Dec(RoundedQuotient(num, b.v), DivScale(a)))
  }

  function Remainder(a: Dec, b: Dec): Option<Dec> {
    if b.v == 0 then None
    else
      match Align(a, b)
      case None => None
      case Some(p) => AlignNonzero(a, b); Some(Dec(CInt.Mod(p.0, p.1), CommonScale(a, b)))
  }

  /** compare_decimals. None stands for its fallback to floating point, taken only when the
      scales differ by 38. The scaled operand wraps unchecked. */
  function CompareDec(a: Dec, b: Dec): Option<int> {
    if a.scale == b.scale then Some(Order(a.v, b.v))
    else if Abs(a.scale - b.scale) > 37 then None
    else if a.scale < b.scale then Some(Order(Wrap128(a.v * Pow10(b.scale - a.scale)), b.v))
    else Some(Order(a.v, Wrap128(b.v * Pow10(a.scale - b.scale))))
  }

  lemma {:induction false} PowNonzero(n: nat)
    ensures Pow10(n) >= 1
  {
    if n > 0 { PowNonzero(n - 1); }
  }

  lemma NonzeroProduct(x: int, y: int)
    requires x != 0 && y >= 1
    ensures x * y != 0
  {}

  lemma AlignNonzero(a: Dec, b: Dec)
    requires b.v != 0 && Align(a, b).Some?
    ensures Align(a, b).value.1 != 0
  {
    hide Pow10;
    PowNonzero(CommonScale(a, b) - b.scale);
    NonzeroProduct(b.v, Pow10(CommonScale(a, b) - b.scale));
  }

  // ---------------------------------------------------------------- the loops of dec_mul and dec_pow10

  lemma NatDivision(n: nat, d: int)
    requires d > 0
    ensures n == n / d * d + n % d && n / d >= 0 && 0 <= n % d < d
  {}

  lemma Exchanges(s: int, b: int, a: int)
    ensures s * b * a == a * b * s
  {}

  lemma ScaledBound(a: int, t: int, b: int)
    requires a > 0 && 0 <= t < b
    ensures 0 <= t * a && t * a + a <= a * b
  {
    assert (t + 1) * a <= b * a;
  }

  lemma SplitTwice(m: int, a: int, b: int, q: int, r: int, s: int, t: int)
    requires a > 0 && 0 <= t < b && 0 <= r < a && m == q * a + r && q == s * b + t
    ensures m == (a * b) * s + (t * a + r) && 0 <= t * a + r < a * b
  {
    Distributes(s * b, t, a);
    Exchanges(s, b, a);
    ScaledBound(a, t, b);
  }

  lemma DivNatTwice(m: nat, a: int, b: int)
    requires a > 0 && b > 0
    ensures a * b > 0 && m / a >= 0 && m / a / b == m / (a * b)
  {
    var q, r := m / a, m % a;
    NatDivision(m, a);
    NatDivision(q, b);
    SplitTwice(m, a, b, q, r, q / b, q % b);
    QuotientIs(m, a * b, q / b, (q % b) * a + r);
  }

  lemma DivTwice(p: int, a: int, b: int)
    requires a > 0 && b > 0
    ensures a * b > 0 && CInt.Div(CInt.Div(p, a), b) == CInt.Div(p, a * b)
  {
    var m := Abs(p);
    DivNatTwice(m, a, b);
    assert CInt.Div(p, a) == if p >= 0 then m / a else -(m / a);
    assert CInt.Div(p, a * b) == if p >= 0 then m / (a * b) else -(m / (a * b));
  }

  /** dec_mul: cutting one digit at a time truncates once at the end. */
  method Multiply(a: Dec, b: Dec) returns (r: Option<Dec>)
    requires ValidDec(a) && ValidDec(b)
    ensures r == Mul(a, b)
  {
    var p := Fit(a.v * b.v);
    if p == None { return None; }
    var v, rs := p.value, a.scale + b.scale;
    ghost var cut := 0;
    while rs > 38
      invariant cut >= 0 && rs + cut == a.scale + b.scale && (cut > 0 ==> rs >= 38)
      invariant Pow10(cut) >= 1 && v == CInt.Div(p.value, Pow10(cut))
    {
      DivTwice(p.value, Pow10(cut), 10);
      v := CInt.Div(v, 10);
      rs := rs - 1;
      cut := cut + 1;
    }
    return Some(Dec(v, rs));
  }

  /** dec_pow10 never overflows: 10^38 is below 2^127. */
  method PowerOfTen(n: int) returns (r: Option<int>)
    ensures r == if 0 <= n <= 38 then Some(Pow10(n)) else None
  {
    if n < 0 || n > 38 { return None; }
    var m := 1;
    for i := 0 to n
      invariant m == Pow10(i)
    {
      assert IsInt128(m * 10) by { Pow10Monotone(i + 1, 38); Pow10Large(); }
      m := m * 10;
    }
    return Some(m);
  }

  // ---------------------------------------------------------------- units

  lemma MulAssociates(x: int, y: int, z: int)
    ensures (x * y) * z == x * (y * z)
  {}

  lemma UnitsOfScaled(v: int, scale: nat, n: nat, k: nat)
    requires scale + n <= k
    ensures Units(Dec(v * Pow10(n), scale + n), k) == Units(Dec(v, scale), k)
  {
    hide Pow10;
    Pow10Sum(n, k - scale - n);
    MulAssociates(v, Pow10(n), Pow10(k - scale - n));
  }

  lemma UnitsOfAligned(a: Dec, b: Dec, k: nat)
    requires Align(a, b).Some? && CommonScale(a, b) <= k
    ensures var r := CommonScale(a, b); var p := Align(a, b).value;
            Units(Dec(p.0, r), k) == Units(a, k) && Units(Dec(p.1, r), k) == Units(b, k)
  {
    hide Pow10, Units;
    var r := CommonScale(a, b);
    UnitsOfScaled(a.v, a.scale, r - a.scale, k);
    UnitsOfScaled(b.v, b.scale, r - b.scale, k);
  }

  lemma UnitsAreLinear(x: int, y: int, scale: nat, k: nat)
    requires scale <= k
    ensures Units(Dec(x + y, scale), k) == Units(Dec(x, scale), k) + Units(Dec(y, scale), k)
    ensures Units(Dec(x - y, scale), k) == Units(Dec(x, scale), k) - Units(Dec(y, scale), k)
    ensures Units(Dec(x * y, scale), k) == x * Units(Dec(y, scale), k)
    ensures Order(Units(Dec(x, scale), k), Units(Dec(y, scale), k)) == Order(x, y)
    ensures Abs(x) < Abs(y) ==> Abs(Units(Dec(x, scale), k)) < Abs(Units(Dec(y, scale), k))
    ensures Order(Units(Dec(x, scale), k), 0) == Order(x, 0)
  {
    var p := Pow10(k - scale);
    PowNonzero(k - scale);
    hide Pow10;
    Distributes(x, y, p);
    MulAssociates(x, y, p);
    MulOrder(x, y, p);
    MulOrder(x, 0, p);
    MulMagnitude(x, p);
    MulMagnitude(y, p);
    MulOrder(Abs(x), Abs(y), p);
  }

  lemma Distributes(x: int, y: int, p: int)
    ensures (x + y) * p == x * p + y * p && (x - y) * p == x * p - y * p
  {}

  lemma MulOrder(x: int, y: int, p: int)
    requires p >= 1
    ensures Order(x * p, y * p) == Order(x, y)
  {
    if x < y { assert x * p <= (y - 1) * p == y * p - p; }
    if y < x { assert y * p <= (x - 1) * p == x * p - p; }
  }

  lemma MulMagnitude(x: int, p: int)
    requires p >= 1
    ensures Abs(x * p) == Abs(x) * p
  {
    MulOrder(x, 0, p);
    assert (-x) * p == -(x * p);
  }

  // ---------------------------------------------------------------- sums

  /** A sum or difference that is delivered is exact, and it is refused only when an
      operand or the result does not fit 128 bits at the common scale. */
  lemma AddIsExact(a: Dec, b: Dec, k: nat)
    requires ValidDec(a) && ValidDec(b) && CommonScale(a, b) <= k
    ensures Add(a, b).Some? ==> Units(Add(a, b).value, k) == Units(a, k) + Units(b, k)
    ensures Sub(a, b).Some? ==> Units(Sub(a, b).value, k) == Units(a, k) - Units(b, k)
    ensures var r := CommonScale(a, b); var x, y := Units(a, r), Units(b, r);
            && (Add(a, b).Some? <==> IsInt128(x) && IsInt128(y) && IsInt128(x + y))
            && (Sub(a, b).Some? <==> IsInt128(x) && IsInt128(y) && IsInt128(x - y))
  {
    if Align(a, b).Some? {
      UnitsOfAligned(a, b, k);
      var p := Align(a, b).value;
      UnitsAreLinear(p.0, p.1, CommonScale(a, b), k);
    }
    hide Pow10;
  }

  // ---------------------------------------------------------------- multiplication

  lemma TruncatedParts(p: int, t: int)
    requires t > 0
    ensures var q := CInt.Div(p, t); var e := p - q * t;
            && Abs(e) < t && (p >= 0 ==> e >= 0 && q >= 0) && (p <= 0 ==> e <= 0 && q <= 0)
  {
    NatDivision(Abs(p), t);
    var q := Abs(p) / t;
    assert (-q) * t == -(q * t);
  }

  /** A product that fits is exact up to 38 fraction digits; past that it is cut toward
      zero by less than one unit in the last place. */
  lemma MulIsTruncated(a: Dec, b: Dec)
    requires ValidDec(a) && ValidDec(b)
    ensures Mul(a, b).Some? <==> IsInt128(a.v * b.v)
    ensures Mul(a, b).Some? ==>
              var r, s, exact := Mul(a, b).value, a.scale + b.scale, a.v * b.v;
              && r.scale == Min(s, 38)
              && (s <= 38 ==> Units(r, s) == exact)
              && (s > 38 ==>
                    && Abs(exact - Units(r, s)) < Units(Dec(1, 38), s)
                    && (exact >= 0 ==> 0 <= Units(r, s) <= exact)
                    && (exact <= 0 ==> exact <= Units(r, s) <= 0))
  {
    var p, s := a.v * b.v, a.scale + b.scale;
    if Mul(a, b).Some? {
      if s > 38 {
        var t := Pow10(s - 38);
        PowNonzero(s - 38);
        assert Units(Mul(a, b).value, s) == CInt.Div(p, t) * t;
        assert Units(Dec(1, 38), s) == t;
        hide Pow10, Mul, Units, CInt.Div;
        TruncatedParts(p, t);
        MulOrder(CInt.Div(p, t), 0, t);
      } else {
        assert Pow10(0) == 1;
      }
    }
  }

  // ---------------------------------------------------------------- division

  /** `q` is the integer nearest to num / b, halves going away from zero. */
  predicate Nearest(q: int, num: int, b: int) {
    2 * Abs(q * b - num) <= Abs(b) && (2 * Abs(q * b - num) == Abs(b) ==> Abs(q * b) >= Abs(num))
  }

  /** When dec_div rounds as it should: the most negative numerator survives only the divisor
      one, the most negative divisor needs a numerator of at least 2^126, and otherwise the
      remainder must stay below 2^126 for its doubling not to overflow. */
  predicate RoundsRight(num: int, b: int)
    requires b != 0
  {
    if num == -TWO_127 then b == 1
    else if b == -TWO_127 then Abs(num) >= TWO_126
    else Abs(num) % Abs(b) < TWO_126
  }

  /** The exact condition for the quotient step, for all 128-bit operands. */
  lemma QuotientIsNearest(num: int, b: int)
    requires b != 0 && IsInt128(num) && IsInt128(b)
    ensures Nearest(RoundedQuotient(num, b), num, b) <==> RoundsRight(num, b)
  {
    hide RoundedQuotient, Nearest;
    if num == -TWO_127 {
      MinNumerator(b);
    } else if b == -TWO_127 {
      MinDivisor(num);
    } else {
      OrdinaryQuotient(num, b);
    }
  }

  lemma OrdinaryQuotient(num: int, b: int)
    requires b != 0 && -TWO_127 < num < TWO_127 && -TWO_127 < b < TWO_127
    ensures Nearest(RoundedQuotient(num, b), num, b) <==> Abs(num) % Abs(b) < TWO_126
  {
    var n, d := Abs(num), Abs(b);
    hide RoundedQuotient, Nearest, Wrap128;
    NatDivision(n, d);
    var q, rem := n / d, n % d;
    QuotientBound(n, d, q, rem);
    assert CInt.Div(n, d) == q;
    hide CInt.Div;
    UnfoldQuotient(num, b, q, rem);
    NearestMagnitude(RoundedQuotient(num, b), num, b, q, rem);
  }

  /** Negating the most negative numerator wraps, so the quotient comes out with the sign of
      the divisor. */
  lemma MinNumerator(b: int)
    requires b != 0 && IsInt128(b)
    ensures Nearest(RoundedQuotient(-TWO_127, b), -TWO_127, b) <==> b == 1
    ensures b == 1 ==> RoundedQuotient(-TWO_127, b) == -TWO_127
    ensures b != 1 && b != -TWO_127 ==> RoundedQuotient(-TWO_127, b) * b > 0
  {
    if b == -TWO_127 {
      assert CInt.Div(-TWO_127, -TWO_127) == 1;
    } else {
      var d := Abs(b);
      NatDivision(TWO_127, d);
      var q, rem := TWO_127 / d, TWO_127 % d;
      assert q == 0 ==> q * d == 0;
      assert CInt.Div(-TWO_127, d) == -q;
      assert (-q) * d == -(q * d);
      hide CInt.Div;
      MinQuotient(b, d, q, rem);
      hide RoundedQuotient, Nearest;
      MinMisses(RoundedQuotient(-TWO_127, b), b, d, q, rem);
    }
  }

  lemma MinQuotient(b: int, d: int, q: int, rem: int)
    requires b != 0 && -TWO_127 < b < TWO_127 && d == Abs(b) && q >= 1
    requires CInt.Div(-TWO_127, d) == -q && (-q) * d == -(q * d) && TWO_127 == q * d + rem && 0 <= rem < d
    ensures RoundedQuotient(-TWO_127, b) == if b > 0 then Wrap128(q) else -q
    ensures q <= TWO_127
  {
    hide *;
    ProductBounds(q, d);
    UnfoldMin(b, d, q, q * d, rem);
  }

  lemma ProductBounds(q: int, d: int)
    requires q >= 1 && d >= 1
    ensures q * d >= q && q * d >= d
  {
    assert q * d >= q * 1 && q * d >= 1 * d;
  }

  lemma UnfoldMin(b: int, d: int, q: int, p: int, rem: int)
    requires b != 0 && -TWO_127 < b < TWO_127 && d == Abs(b) && 1 <= q <= TWO_127
    requires CInt.Div(-TWO_127, d) == -q && (-q) * d == -p && TWO_127 == p + rem && 0 <= rem < d <= p
    ensures RoundedQuotient(-TWO_127, b) == if b > 0 then Wrap128(q) else -q
  {
    assert Wrap128(TWO_127) == -TWO_127;
    assert Wrap128((-rem) * 2) == (-rem) * 2;
    WrapsSmall(q);
    WrapsSmall(d);
    hide CInt.Div, Wrap128;
    assert -(-TWO_127) == TWO_127;
    assert -TWO_127 - (-q) * d == -rem;
  }

  lemma WrapsSmall(q: int)
    requires 1 <= q <= TWO_127
    ensures Wrap128(-q) == -q && (-TWO_127 <= q < TWO_127 ==> Wrap128(q) == q)
    ensures Wrap128(-(-q)) == Wrap128(q)
  {}

  /** A product of the other sign is not near the most negative integer. */
  lemma WrongSideIsFar(p: int, b: int)
    requires p >= 0 && -TWO_127 < b < TWO_127
    ensures !(2 * Abs(p - (-TWO_127)) <= Abs(b))
  {}

  lemma MinMisses(r: int, b: int, d: int, q: int, rem: int)
    requires b != 0 && -TWO_127 < b < TWO_127 && d == Abs(b) && 1 <= q <= TWO_127
    requires TWO_127 == q * d + rem && 0 <= rem < d && r == if b > 0 then Wrap128(q) else -q
    ensures Nearest(r, -TWO_127, b) <==> b == 1
    ensures b == 1 ==> r == -TWO_127
    ensures b != 1 ==> r * b > 0
  {
    if b == 1 {
      assert q * d == q;
      MinByOne(r);
    } else {
      RightSize(r, b, d, q, rem);
      WrongSideIsFar(r * b, b);
      hide Wrap128;
    }
  }

  lemma MinByOne(r: int)
    requires r == Wrap128(TWO_127)
    ensures r == -TWO_127 && Nearest(r, -TWO_127, 1)
  {}

  lemma RightSize(r: int, b: int, d: int, q: int, rem: int)
    requires b != 0 && b != 1 && -TWO_127 < b < TWO_127 && d == Abs(b) && 1 <= q <= TWO_127
    requires TWO_127 == q * d + rem && 0 <= rem < d && r == if b > 0 then Wrap128(q) else -q
    ensures r * b == q * d > 0
  {
    assert q * d > 0;
    WrapsSmall(q);
    if b > 0 { assert q * d >= q * 2; }
    hide Wrap128;
    assert (-q) * b == q * (-b);
  }

  lemma MinDivisor(num: int)
    requires -TWO_127 < num < TWO_127
    ensures Nearest(RoundedQuotient(num, -TWO_127), num, -TWO_127) <==> Abs(num) >= TWO_126
  {
    assert CInt.Div(Abs(num), -TWO_127) == 0;
  }

  lemma QuotientBound(n: int, d: int, q: int, rem: int)
    requires 0 <= n < TWO_127 && d > 0 && q >= 0 && 0 <= rem < d && n == q * d + rem
    ensures q < TWO_127 && (rem > 0 ==> q + 1 < TWO_127)
  {
    assert q * d >= q * 1;
  }

  lemma UnfoldQuotient(num: int, b: int, q: int, rem: int)
    requires b != 0 && -TWO_127 < num < TWO_127 && -TWO_127 < b < TWO_127
    requires CInt.Div(Abs(num), Abs(b)) == q && Abs(num) == q * Abs(b) + rem
    requires 0 <= rem < Abs(b) && 0 <= q < TWO_127 && (rem > 0 ==> q + 1 < TWO_127)
    ensures var q' := if Wrap128(rem * 2) >= Abs(b) then q + 1 else q;
            RoundedQuotient(num, b) == if (num < 0) != (b < 0) then -q' else q'
  {
    hide CInt.Div;
    assert rem == 0 ==> Wrap128(rem * 2) == 0;
    var q' := if Wrap128(rem * 2) >= Abs(b) then q + 1 else q;
    assert 0 <= q' < TWO_127;
  }

  lemma NearestMagnitude(r: int, num: int, b: int, q: int, rem: int)
    requires b != 0 && Abs(b) < TWO_127 && q >= 0 && 0 <= rem < Abs(b) && Abs(num) == q * Abs(b) + rem
    requires var q' := if Wrap128(rem * 2) >= Abs(b) then q + 1 else q;
             r == if (num < 0) != (b < 0) then -q' else q'
    ensures Nearest(r, num, b) <==> rem < TWO_126
  {
    hide Nearest;
    MagnitudeIsNearest(Abs(num), Abs(b), q * Abs(b), rem);
    hide Wrap128;
    NextMultiple(q, Abs(b));
    if Wrap128(rem * 2) >= Abs(b) {
      SignedIsNearest(r, num, b, q + 1, q * Abs(b) + Abs(b));
    } else {
      SignedIsNearest(r, num, b, q, q * Abs(b));
    }
  }

  lemma NextMultiple(q: int, d: int)
    requires q >= 0 && d >= 0
    ensures (q + 1) * d == q * d + d && q * d >= 0
  {}

  lemma MagnitudeIsNearest(n: int, d: int, qd: int, rem: int)
    requires n == qd + rem && 0 <= rem < d < TWO_127
    ensures var p := if Wrap128(rem * 2) >= d then qd + d else qd;
            (2 * Abs(p - n) <= d && (2 * Abs(p - n) == d ==> p >= n)) <==> rem < TWO_126
  {
    if rem >= TWO_126 {
      assert Wrap128(rem * 2) == rem * 2 - TWO_128;
    }
  }

  lemma SignedIsNearest(r: int, num: int, b: int, q: int, p: int)
    requires b != 0 && q >= 0 && p == q * Abs(b) && p >= 0 && r == if (num < 0) != (b < 0) then -q else q
    ensures Nearest(r, num, b)
       <==> (2 * Abs(p - Abs(num)) <= Abs(b) && (2 * Abs(p - Abs(num)) == Abs(b) ==> p >= Abs(num)))
  {
    assert (-q) * b == -(q * b) && q * (-b) == -(q * b);
    assert r * b == if num < 0 then -p else p;
  }

  /** The shift of dec_div is never negative, so its digit-dropping branch is dead. */
  lemma ShiftIsUp(a: Dec, b: Dec)
    ensures DivScale(a) + b.scale - a.scale >= b.scale
  {}

  lemma NumeratorNotMin(v: int, n: nat)
    requires v != -TWO_127
    ensures v * Pow10(n) != -TWO_127
  {
    if n == 0 {
      assert Pow10(0) == 1;
    } else {
      var p := Pow10(n - 1);
      assert v * (10 * p) == 5 * (2 * (v * p));
      assert TWO_127 % 5 != 0;
    }
  }

  /** A quotient is delivered exactly when the divisor is not zero and the dividend fits 128
      bits at the product's scale, max(scale of a, 6) + scale of b. It has scale
      max(scale of a, 6), and is the nearest one, ties going away from zero, exactly when
      rounding goes right for the scaled dividend: times the divisor it then misses the
      dividend by at most half the divisor, counted in units of the product's scale. */
  lemma DivIsNearest(a: Dec, b: Dec)
    requires ValidDec(a) && ValidDec(b)
    ensures var num := Units(a, Max(a.scale, 6) + b.scale);
            && (Quotient(a, b).Some? <==> b.v != 0 && Max(a.scale, 6) + b.scale - a.scale <= 38 && IsInt128(num))
            && (Quotient(a, b).Some? ==>
                  var q := Quotient(a, b).value;
                  q.scale == Max(a.scale, 6) && (Nearest(q.v, num, b.v) <==> RoundsRight(num, b.v)))
  {
    var shift := DivScale(a) + b.scale - a.scale;
    var num := Units(a, DivScale(a) + b.scale);
    assert num == a.v * Pow10(shift);
    hide Nearest, RoundedQuotient, RoundsRight, Pow10, Units;
    if b.v != 0 && shift <= 38 && IsInt128(num) { QuotientIsNearest(num, b.v); }
  }

  /** Divisors up to 2^126 and dividends other than the most negative integer always divide
      right. */
  lemma ModestOperandsRoundRight(a: Dec, b: Dec)
    requires ValidDec(a) && ValidDec(b) && 0 < Abs(b.v) <= TWO_126 && a.v != -TWO_127
    ensures RoundsRight(Units(a, Max(a.scale, 6) + b.scale), b.v)
  {
    var shift := DivScale(a) + b.scale - a.scale;
    NumeratorNotMin(a.v, shift);
    assert Units(a, DivScale(a) + b.scale) == a.v * Pow10(shift);
    hide Pow10, Units;
  }

  // ---------------------------------------------------------------- remainder

  /** dec_mod: what is left after taking the divisor away a whole number of times, rounding
      that number toward zero. */
  lemma RemainderIsTruncating(a: Dec, b: Dec, k: nat)
    requires ValidDec(a) && ValidDec(b) && CommonScale(a, b) <= k
    ensures Remainder(a, b).Some? <==> b.v != 0 && Align(a, b).Some?
    ensures Remainder(a, b).Some? ==>
              var r, p := Remainder(a, b).value, Align(a, b).value;
              && p.1 != 0 && r.scale == CommonScale(a, b) && IsInt128(r.v)
              && Units(r, k) == Units(a, k) - CInt.Div(p.0, p.1) * Units(b, k)
              && Abs(Units(r, k)) < Abs(Units(b, k))
              && (Units(a, k) >= 0 ==> Units(r, k) >= 0) && (Units(a, k) <= 0 ==> Units(r, k) <= 0)
  {
    if Remainder(a, b).Some? {
      AlignNonzero(a, b);
      UnitsOfAligned(a, b, k);
      var s, p := CommonScale(a, b), Align(a, b).value;
      RemainderParts(p.0, p.1);
      hide Pow10, Units, CInt.Div, Mod, Align;
      var n, e := CInt.Div(p.0, p.1), Mod(p.0, p.1);
      UnitsAreLinear(p.0, n * p.1, s, k);
      UnitsAreLinear(n, p.1, s, k);
      UnitsAreLinear(e, p.1, s, k);
    }
  }

  lemma RemainderParts(x: int, y: int)
    requires y != 0
    ensures var e := Mod(x, y);
            && e == x - CInt.Div(x, y) * y && Abs(e) < Abs(y) && (x >= 0 ==> e >= 0) && (x <= 0 ==> e <= 0)
  {
    EuclidSign(Abs(x), y);
    var q, k := Abs(x) / y, y * (Abs(x) / y);
    if x >= 0 {
      assert CInt.Div(x, y) == q && Mod(x, y) == x - k;
    } else {
      assert CInt.Div(x, y) == -q;
      assert y * (-q) == -k;
      assert Mod(x, y) == x + k;
    }
  }

  lemma EuclidSign(m: nat, y: int)
    requires y != 0
    ensures 0 <= m - y * (m / y) < Abs(y)
  {
    assert m == y * (m / y) + m % y;
  }

  // ---------------------------------------------------------------- comparison

  /** What compare_decimals makes of a scaled operand compares with the other one as the
      scaled operand itself does: it fits, or the wrapped value happens to fall on the side
      that its sign says. */
  predicate ComparesRight(scaled: int, other: int) {
    IsInt128(scaled) || Order(Wrap128(scaled), other) == Order(scaled, 0)
  }

  /** The scaled operand and the other one, for scales that differ. */
  predicate ScalesRight(a: Dec, b: Dec) {
    if a.scale == b.scale then true
    else if a.scale < b.scale then ComparesRight(a.v * Pow10(b.scale - a.scale), b.v)
    else ComparesRight(b.v * Pow10(a.scale - b.scale), a.v)
  }

  /** Comparison is by integers exactly when the scales differ by at most 37, and then
      follows the exact order exactly when the scaled operand compares right. */
  lemma CompareIsExact(a: Dec, b: Dec, k: nat)
    requires ValidDec(a) && ValidDec(b) && CommonScale(a, b) <= k
    ensures CompareDec(a, b).Some? <==> Abs(a.scale - b.scale) <= 37
    ensures CompareDec(a, b).Some? ==>
              (CompareDec(a, b).value == Order(Units(a, k), Units(b, k)) <==> ScalesRight(a, b))
  {
    if a.scale == b.scale {
      UnitsAreLinear(a.v, b.v, a.scale, k);
    } else if a.scale < b.scale {
      var d := b.scale - a.scale;
      UnitsOfScaled(a.v, a.scale, d, k);
      UnitsAreLinear(a.v * Pow10(d), b.v, b.scale, k);
      WrappedSide(a.v * Pow10(d), b.v);
    } else {
      var d := a.scale - b.scale;
      UnitsOfScaled(b.v, b.scale, d, k);
      UnitsAreLinear(a.v, b.v * Pow10(d), a.scale, k);
      WrappedSide(b.v * Pow10(d), a.v);
    }
    hide Pow10, Units, Wrap128, ComparesRight;
  }

  lemma WrappedSide(scaled: int, other: int)
    requires IsInt128(other)
    ensures Order(Wrap128(scaled), other) == Order(scaled, other) <==> ComparesRight(scaled, other)
    ensures Order(other, Wrap128(scaled)) == Order(other, scaled) <==> ComparesRight(scaled, other)
  {
    hide Wrap128;
    assert IsInt128(scaled) ==> Wrap128(scaled) == scaled;
    assert !IsInt128(scaled) ==> Order(scaled, other) == Order(scaled, 0);
  }

  // ---------------------------------------------------------------- where the bounds bite

  /** Without the bound on the divisor: 1 is closer to the quotient, the result is 0. */
  lemma LargeDivisorRoundsDown()
    ensures Quotient(Dec(TWO_127 - 2, 6), Dec(TWO_127 - 1, 0)) == Some(Dec(0, 6))
    ensures !Nearest(0, TWO_127 - 2, TWO_127 - 1) && Nearest(1, TWO_127 - 2, TWO_127 - 1)
  {
    assert Pow10(0) == 1;
  }

  /** A dividend that scales to the most negative integer divides right by one only. By every
      other divisor the quotient is not the nearest one, and but for the most negative divisor
      it has the wrong sign. */
  lemma MostNegativeNumeratorFlips(a: Dec, b: Dec)
    requires ValidDec(a) && ValidDec(b) && Quotient(a, b).Some?
    requires Units(a, Max(a.scale, 6) + b.scale) == -TWO_127
    ensures var q := Quotient(a, b).value.v;
            && (Nearest(q, -TWO_127, b.v) <==> b.v == 1)
            && (b.v == 1 ==> q == -TWO_127)
            && (b.v != 1 && b.v != -TWO_127 ==> q * b.v > 0)
  {
    assert Units(a, DivScale(a) + b.scale) == a.v * Pow10(DivScale(a) + b.scale - a.scale);
    hide RoundedQuotient, Nearest, Pow10, Units;
    MinNumerator(b.v);
  }

  /** An operand that does not fit may still compare right, or compare below zero although it
      is the largest decimal of its scale. */
  lemma UnfittingCompareIsWrong()
    ensures var big := Dec(TWO_127 - 1, 0);
            CompareDec(big, Dec(0, 1)) == Some(-1) && !ScalesRight(big, Dec(0, 1)) && Align(big, Dec(0, 1)) == None
    ensures var lucky := Dec(34028236692093846346337460743176821146, 0);
            CompareDec(lucky, Dec(0, 1)) == Some(1) && ScalesRight(lucky, Dec(0, 1)) && Align(lucky, Dec(0, 1)) == None
  {
    assert Pow10(1) == 10;
  }
}
