/** Digits, scanning, byte-wise comparison and the option type. */
module Text {

  datatype Option<+T> = None | Some(value: T)

  predicate IsDigit(c: char) { '0' <= c <= '9' }

  function DigitChar(n: int): (c: char)
    requires 0 <= n < 10
    ensures IsDigit(c) && DigitValue(c) == n
  {
    '0' + n as char
  }

  function DigitValue(c: char): int { c as int - '0' as int }

  predicate AllDigits(s: string) { forall i :: 0 <= i < |s| ==> IsDigit(s[i]) }

  function Pow10(n: nat): nat { if n == 0 then 1 else 10 * Pow10(n - 1) }

  /** The number a digit string spells. */
  function NumberOf(s: string): int {
    if s == "" then 0 else 10 * NumberOf(s[..|s| - 1]) + DigitValue(s[|s| - 1])
  }

  /** printf's `%0<w>d` for a number that is not negative. */
  function Padded(n: nat, w: nat): (s: string)
    ensures |s| >= w && |s| >= 1
    ensures AllDigits(s)
    decreases n
  {
    if n < 10 then Zeros(if w > 0 then w - 1 else 0) + [DigitChar(n)]
    else Padded(n / 10, if w > 0 then w - 1 else 0) + [DigitChar(n % 10)]
  }

  function Zeros(n: nat): (s: string)
    ensures |s| == n
    ensures AllDigits(s)
  {
    seq(n, _ => '0')
  }

  lemma {:induction false} NumberOfZeros(n: nat)
    ensures NumberOf(Zeros(n)) == 0
  {
    if n > 0 {
      assert Zeros(n)[..n - 1] == Zeros(n - 1);
      NumberOfZeros(n - 1);
    }
  }

  lemma NumberOfSnoc(s: string, c: char)
    ensures NumberOf(s + [c]) == 10 * NumberOf(s) + DigitValue(c)
  {
    assert (s + [c])[..|s|] == s;
  }

  lemma {:induction false} NumberOfPadded(n: nat, w: nat)
    ensures NumberOf(Padded(n, w)) == n
    decreases n
  {
    var v := if w > 0 then w - 1 else 0;
    if n < 10 {
      NumberOfZeros(v);
      NumberOfSnoc(Zeros(v), DigitChar(n));
    } else {
      NumberOfPadded(n / 10, v);
      NumberOfSnoc(Padded(n / 10, v), DigitChar(n % 10));
    }
  }

  lemma {:induction false} PaddedMonotone(n: nat, w: nat, x: nat)
    requires w <= x
    ensures |Padded(n, w)| <= |Padded(n, x)|
    decreases n
  {
    if n >= 10 { PaddedMonotone(n / 10, if w > 0 then w - 1 else 0, if x > 0 then x - 1 else 0); }
  }

  /** A number below 10^w prints in exactly w characters; any other prints in more. */
  lemma {:induction false} PaddedLength(n: nat, w: nat)
    requires w > 0
    ensures |Padded(n, w)| == w <==> n < Pow10(w)
    decreases n
  {
    if n < 10 {
      Pow10Monotone(1, w);
    } else if w == 1 {
    } else {
      PaddedLength(n / 10, w - 1);
    }
  }

  lemma {:induction false} Pow10Sum(a: nat, b: nat)
    ensures Pow10(a + b) == Pow10(a) * Pow10(b)
  {
    if a > 0 { Pow10Sum(a - 1, b); }
  }

  lemma Pow10Large()
    ensures Pow10(18) == 1_000_000_000_000_000_000
    ensures Pow10(37) == 10_000_000_000_000_000_000_000_000_000_000_000_000
    ensures Pow10(38) == 100_000_000_000_000_000_000_000_000_000_000_000_000
    ensures Pow10(39) == 1_000_000_000_000_000_000_000_000_000_000_000_000_000
  {
    assert Pow10(6) == 1_000_000;
    Pow10Sum(6, 6);
    Pow10Sum(12, 6);
    Pow10Sum(18, 18);
    assert Pow10(37) == 10 * Pow10(36);
  }

  lemma {:induction false} Pow10Monotone(a: nat, b: nat)
    requires a <= b
    ensures Pow10(a) <= Pow10(b)
    decreases b
  {
    if a < b { Pow10Monotone(a, b - 1); }
  }

  // ---------------------------------------------------------------- scanning

  /** Character `i` of the C string; its terminator beyond. */
  function At(s: string, i: nat): char { if i < |s| then s[i] else '\0' }

  predicate IsLetter(c: char) { 'a' <= c <= 'z' || 'A' <= c <= 'Z' }

  predicate IsHex(c: char) { IsDigit(c) || 'a' <= c <= 'f' || 'A' <= c <= 'F' }

  function HexValue(c: char): int {
    if 'a' <= c <= 'f' then c as int - 'a' as int + 10
    else if 'A' <= c <= 'F' then c as int - 'A' as int + 10
    else DigitValue(c)
  }

  /** The lower-case digit. */
  function HexDigit(n: int): (c: char)
    requires 0 <= n < 16
    ensures IsHex(c) && HexValue(c) == n
  {
    if n < 10 then '0' + n as char else 'a' + (n - 10) as char
  }

  /** Where the run of characters accepted by `p` that starts at `i` ends. */
  function RunEnd(s: string, i: nat, p: char -> bool): (k: nat)
    requires i <= |s|
    ensures i <= k <= |s| && (forall j :: i <= j < k ==> p(s[j])) && (k < |s| ==> !p(s[k]))
    decreases |s| - i
  {
    if i < |s| && p(s[i]) then RunEnd(s, i + 1, p) else i
  }

  /** `n` characters that decode to `buf`, before the rest of a literal. */
  function DecodedBefore(buf: string, n: nat, rest: Option<(string, nat)>): Option<(string, nat)> {
    match rest case None => None case Some(r) => Some((buf + r.0, n + r.1))
  }

  lemma DecodedTwice(buf: string, n: nat, more: string, k: nat, rest: Option<(string, nat)>)
    ensures DecodedBefore(buf, n, DecodedBefore(more, k, rest)) == DecodedBefore(buf + more, n + k, rest)
    ensures DecodedBefore("", 0, rest) == rest
  {
    if rest.Some? {
      assert buf + (more + rest.value.0) == buf + more + rest.value.0;
      assert "" + rest.value.0 == rest.value.0;
    }
  }

  // ---------------------------------------------------------------- comparison

  /** -1, 0 or 1, as the comparison operators yield it. */
  function Order(a: int, b: int): int { if a < b then -1 else if a > b then 1 else 0 }

  /** memcmp on the common length, then the shorter string first. */
  function Compare(a: string, b: string): int {
    if a == "" || b == "" then Order(|a|, |b|)
    else if a[0] != b[0] then Order(a[0] as int, b[0] as int)
    else Compare(a[1..], b[1..])
  }

  lemma {:induction false} CompareAppend(a: string, b: string, x: string, y: string)
    requires |a| == |b|
    ensures Compare(a + x, b + y) == if Compare(a, b) != 0 then Compare(a, b) else Compare(x, y)
    decreases |a|
  {
    if a == "" {
      assert a + x == x && b + y == y;
    } else {
      assert (a + x)[1..] == a[1..] + x && (b + y)[1..] == b[1..] + y;
      CompareAppend(a[1..], b[1..], x, y);
    }
  }

  lemma {:induction false} CompareSame(a: string)
    ensures Compare(a, a) == 0
  {
    if a != "" { CompareSame(a[1..]); }
  }

  /** Digit strings of equal length compare as the numbers they spell. */
  lemma {:induction false} CompareDigits(a: string, b: string)
    requires |a| == |b| && AllDigits(a) && AllDigits(b)
    ensures Compare(a, b) == Order(NumberOf(a), NumberOf(b))
  {
    if a != "" {
      var n := |a| - 1;
      CompareDigits(a[..n], b[..n]);
      assert a == a[..n] + [a[n]] && b == b[..n] + [b[n]];
      CompareAppend(a[..n], b[..n], [a[n]], [b[n]]);
    }
  }

  lemma {:induction false} CompareZeroIsEqual(a: string, b: string)
    ensures Compare(a, b) == 0 <==> a == b
  {
    if a != "" && b != "" {
      CompareZeroIsEqual(a[1..], b[1..]);
      assert a == [a[0]] + a[1..] && b == [b[0]] + b[1..];
    }
  }

  lemma {:induction false} NumberBound(s: string)
    requires AllDigits(s)
    ensures 0 <= NumberOf(s) < Pow10(|s|)
  {
    if s != "" { NumberBound(s[..|s| - 1]); }
  }

  /** A digit string is the padded print of the number it spells. */
  lemma PaddedOfNumber(s: string)
    requires s != "" && AllDigits(s)
    ensures NumberOf(s) >= 0 && Padded(NumberOf(s), |s|) == s
  {
    NumberBound(s);
    PaddedLength(NumberOf(s), |s|);
    NumberOfPadded(NumberOf(s), |s|);
    CompareDigits(Padded(NumberOf(s), |s|), s);
    CompareZeroIsEqual(Padded(NumberOf(s), |s|), s);
  }
}
