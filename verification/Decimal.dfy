/**
 128-bit fixed-point decimals: text conversion (src/runtime/decimal_util.c and the
 expression engine's copy) and the engine's arithmetic.
 */
module Decimal {
  import opened CInt
  import opened Text

  /** The largest magnitude that may still be multiplied by ten. */
  const MUL10_LIMIT := TWO_126 / 10

  /** The largest magnitude text can denote. */
  const MAX_TEXT := 10 * MUL10_LIMIT + 9

  function SafeMul10(v: int, digit: int): Option<int> {
    if v > 0 && v > MUL10_LIMIT then None else Some(v * 10 + digit)
  }

  // ---------------------------------------------------------------- parsing

  /** The digit loop: `mag` so far, whether a digit and a point were seen, kept fraction digits. */
  datatype Scan = Scan(mag: int, seen: bool, inFrac: bool, frac: nat)

  function ScanChar(st: Scan, c: char, scale: nat): Option<Scan> {
    if c == '.' then if st.inFrac then None else Some(st.(inFrac := true))
    else if !IsDigit(c) then None
    else if st.inFrac && st.frac >= scale then if c != '0' then None else Some(st.(seen := true))
    else
      match SafeMul10(st.mag, DigitValue(c))
      case None => None
      case Some(mag) => Some(Scan(mag, true, st.inFrac, if st.inFrac then st.frac + 1 else st.frac))
  }

  function ScanText(st: Scan, s: string, scale: nat): Option<Scan>
    decreases |s|
  {
    if s == "" then Some(st)
    else
      match ScanChar(st, s[0], scale)
      case None => None
      case Some(next) => ScanText(next, s[1..], scale)
  }

  /** Append zeros until the fraction has `scale` digits. */
  function PadFraction(mag: int, frac: nat, scale: nat): Option<int>
    decreases scale - frac
  {
    if frac >= scale then Some(mag)
    else
      match SafeMul10(mag, 0)
      case None => None
      case Some(m) => PadFraction(m, frac + 1, scale)
  }

  function Body(s: string): string {
    if s != "" && (s[0] == '-' || s[0] == '+') then s[1..] else s
  }

  /** What is done once the digits are read: pad, then apply the sign. */
  function Finish(st: Option<Scan>, negative: bool, scale: nat): Option<int> {
    if st == None || !st.value.seen then None
    else
      match PadFraction(st.value.mag, st.value.frac, scale)
      case None => None
      case Some(mag) => Some(if negative then -mag else mag)
  }

  /** betl_dec128_parse. */
  function Parse(s: string, scale: int): Option<int> {
    if s == "" || scale < 0 || scale > 38 || Body(s) == "" then None
    else Finish(ScanText(Scan(0, false, false, 0), Body(s), scale), s[0] == '-', scale)
  }

  /** The parser as the runtime runs it. */
  method ReadDecimal(s: string, scale: int) returns (r: Option<int>)
    ensures r == Parse(s, scale)
  {
    if |s| == 0 || scale < 0 || scale > 38 { return None; }
    var i, sign := 0, 1;
    if s[0] == '-' {
      sign, i := -1, 1;
    } else if s[0] == '+' {
      i := 1;
    }
    if i == |s| { return None; }
    var mag, seen, frac, inFrac := 0, false, 0, false;
    ghost var start := ScanText(Scan(0, false, false, 0), s[i..], scale);
    while i < |s|
      invariant i <= |s| && frac >= 0
      invariant start == ScanText(Scan(mag, seen, inFrac, frac), s[i..], scale)
    {
      var c := s[i];
      assert s[i..][1..] == s[i + 1..];
      i := i + 1;
      if c == '.' {
        if inFrac { return None; }
        inFrac := true;
        continue;
      }
      if c < '0' || c > '9' { return None; }
      seen := true;
      if inFrac && frac >= scale {
        if c != '0' { return None; }
        continue;
      }
      var m := SafeMul10(mag, DigitValue(c));
      if m == None { return None; }
      mag := m.value;
      if inFrac { frac := frac + 1; }
    }
    if !seen { return None; }
    ghost var padded := PadFraction(mag, frac, scale);
    while frac < scale
      invariant frac >= 0
      invariant padded == PadFraction(mag, frac, scale)
    {
      var m := SafeMul10(mag, 0);
      if m == None { return None; }
      mag := m.value;
      frac := frac + 1;
    }
    return Some(if sign < 0 then -mag else mag);
  }

  // ---------------------------------------------------------------- formatting

  /** The digits of `v`, zero-padded to at least one before the point. The magnitude of the
      most negative value wraps to itself and leaves no digits but the padding. */
  function Digits(v: int, scale: nat): (d: string)
    requires IsInt128(v)
    ensures |d| >= scale + 1 && AllDigits(d)
  {
    if v == -TWO_127 then Zeros(scale + 1) else Padded(Abs(v), scale + 1)
  }

  function PlaceOf(d: string, scale: nat): string
    requires |d| >= scale
  {
    d[..|d| - scale] + (if scale > 0 then "." + d[|d| - scale..] else "")
  }

  /** The text betl_dec128_format writes. */
  function FormatText(v: int, scale: nat): string
    requires IsInt128(v)
  {
    (if v < 0 then "-" else "") + PlaceOf(Digits(v, scale), scale)
  }

  /** The digits still to come once `mag` is what is left of the number. */
  function Rest(mag: nat, w: int): string {
    if mag == 0 then Zeros(Max(w, 0)) else Padded(mag, Max(w, 0))
  }

  lemma RestStep(mag: nat, w: int)
    requires mag > 0
    ensures Rest(mag, w) == Rest(mag / 10, w - 1) + [DigitChar(mag % 10)]
  {}

  /** `digits` holds the last `n` characters of `d`, lowest digit first. */
  predicate Stacked(digits: seq<char>, n: nat, d: string) {
    n <= |d| && n <= |digits| && forall k :: 0 <= k < n ==> digits[k] == d[|d| - 1 - k]
  }

  lemma StackStep(mag: nat, d: string, n: nat, w: int)
    requires mag > 0 && n <= |d| && d[..|d| - n] == Rest(mag, w)
    ensures n < |d| && d[|d| - n - 1] == DigitChar(mag % 10) && d[..|d| - n - 1] == Rest(mag / 10, w - 1)
  {
    RestStep(mag, w);
    assert d[..|d| - n][..|d| - n - 1] == d[..|d| - n - 1];
  }

  lemma StackedPush(stack: seq<char>, n: nat, d: string)
    requires Stacked(stack, n, d) && n < |stack| && n < |d|
    ensures Stacked(stack[n := d[|d| - n - 1]], n + 1, d)
  {}

  /** The digits of a number, lowest first; forty slots are more than 128 bits can fill. */
  method StackNumber(mag0: int, digits: array<char>, ghost d: string, ghost w: nat) returns (n: nat)
    requires digits.Length == 40 && mag0 >= 0 && |d| <= 39 && d == Rest(mag0, w)
    modifies digits
    ensures Stacked(digits[..], n, d) && d[..|d| - n] == Rest(0, w - n)
  {
    var mag := mag0;
    n := 0;
    assert Stacked(digits[..], 0, d);
    assert d[..|d|] == d;
    hide Rest, Stacked;
    while mag > 0 && n < digits.Length
      invariant n <= |d| && mag >= 0
      invariant d[..|d| - n] == Rest(mag, w - n)
      invariant Stacked(digits[..], n, d)
    {
      label before:
      StackStep(mag, d, n, w - n);
      StackedPush(digits[..], n, d);
      digits[n] := DigitChar(mag % 10);
      assert digits[..] == old@before(digits[..])[n := d[|d| - n - 1]];
      mag := mag / 10;
      n := n + 1;
    }
  }

  lemma DigitsFit(v: int, scale: nat)
    requires IsInt128(v) && scale <= 38
    ensures |Digits(v, scale)| <= 39
  {
    if v != -TWO_127 {
      Pow10Large();
      PaddedMonotone(Abs(v), scale + 1, 39);
      PaddedLength(Abs(v), 39);
    }
  }

  /** Zeros on the high side until there is one more digit than the scale. */
  method PadStack(digits: array<char>, n0: nat, scale: nat, ghost d: string) returns (n: nat)
    requires digits.Length == 40 && scale <= 38 && n0 <= |d| <= 39 && |d| - n0 == Max(scale + 1 - n0, 0)
    requires Stacked(digits[..], n0, d) && d[..|d| - n0] == Zeros(|d| - n0)
    modifies digits
    ensures n == |d| && Stacked(digits[..], n, d)
  {
    n := n0;
    while n < scale + 1
      invariant n0 <= n <= |d| && |d| - n == Max(scale + 1 - n, 0)
      invariant Stacked(digits[..], n, d)
    {
      digits[n] := '0';
      assert d[|d| - n - 1] == d[..|d| - n0][|d| - n - 1] == '0';
      n := n + 1;
    }
  }

  /** The most negative value leaves no digits to stack, zero leaves one. */
  lemma DigitsLeft(v: int, scale: nat)
    requires IsInt128(v)
    ensures v == -TWO_127 ==> Wrap128(-v) < 0 && Digits(v, scale) == Zeros(scale + 1)
    ensures v == 0 ==> Digits(v, scale) == Zeros(scale) + "0"
    ensures v != -TWO_127 && v != 0 ==> Digits(v, scale) == Rest(Abs(v), scale + 1)
    ensures v != -TWO_127 && v < 0 ==> Wrap128(-v) == Abs(v)
  {}

  /** The digit stack, padded to one more digit than the scale. */
  method StackDigits(v: int, scale: nat) returns (digits: array<char>, n: nat)
    requires IsInt128(v) && scale <= 38
    ensures fresh(digits) && digits.Length == 40
    ensures n == |Digits(v, scale)| && Stacked(digits[..], n, Digits(v, scale))
  {
    var mag := if v < 0 then Wrap128(-v) else v;
    digits := new char[40];
    n := 0;
    ghost var d := Digits(v, scale);
    DigitsFit(v, scale);
    DigitsLeft(v, scale);
    hide Digits, Wrap128;
    if mag == 0 {
      digits[0] := '0';
      n := 1;
      assert d[..scale] == Zeros(scale);
    } else if mag > 0 {
      n := StackNumber(mag, digits, d, scale + 1);
    } else {
      assert d[..|d|] == d;
    }
    assert d[..|d| - n] == Zeros(|d| - n) && |d| - n == Max(scale + 1 - n, 0);
    n := PadStack(digits, n, scale, d);
  }

  /** Stack slots `hi`-1 down to `lo`. */
  function Down(stack: seq<char>, hi: nat, lo: nat): (t: string)
    requires lo <= hi <= |stack|
    ensures |t| == hi - lo
    ensures forall i :: 0 <= i < |t| ==> t[i] == stack[hi - 1 - i]
  {
    seq(hi - lo, i requires 0 <= i < hi - lo => stack[hi - 1 - i])
  }

  lemma DownIsDigits(stack: seq<char>, d: string, scale: nat)
    requires Stacked(stack, |d|, d) && scale <= |d|
    ensures Down(stack, |d|, scale) == d[..|d| - scale]
    ensures Down(stack, scale, 0) == d[|d| - scale..]
  {}

  predicate Begins(buf: array<char>, text: string)
    reads buf
  {
    |text| <= buf.Length && buf[..|text|] == text
  }

  method PutChar(buf: array<char>, p: nat, c: char, ghost text: string)
    requires p == |text| < buf.Length && Begins(buf, text)
    modifies buf
    ensures Begins(buf, text + [c])
  {
    buf[p] := c;
    assert buf[..p + 1] == buf[..p] + [c];
  }

  /** Writes stack slots `hi`-1 down to `lo` to the buffer from `p` on. */
  method CopyDown(stack: array<char>, hi: nat, lo: nat, buf: array<char>, p: nat, ghost text: string)
    requires stack != buf && lo <= hi <= stack.Length && p == |text| && p + (hi - lo) <= buf.Length
    requires Begins(buf, text)
    modifies buf
    ensures Begins(buf, text + Down(stack[..], hi, lo))
  {
    var k, q := hi - 1, p;
    while k >= lo
      invariant lo - 1 <= k < hi && q == p + (hi - 1 - k)
      invariant buf[..q] == text + Down(stack[..], hi, lo)[..q - p]
    {
      buf[q] := stack[k];
      assert buf[..q + 1] == buf[..q] + [stack[k]];
      q, k := q + 1, k - 1;
    }
  }

  /** The digits before and after the point, from the stack. */
  method PutPlaces(digits: array<char>, n: nat, scale: nat, buf: array<char>, p0: nat, ghost sign: string, ghost d: string)
    returns (p: nat)
    requires digits != buf && Stacked(digits[..], n, d) && n == |d| && scale <= n
    requires p0 == |sign| && Begins(buf, sign) && p0 + n + (if scale > 0 then 1 else 0) <= buf.Length
    modifies buf
    ensures var whole := sign + d[..n - scale];
            var text := if scale > 0 then whole + "." + d[n - scale..] else whole;
            p == |text| && Begins(buf, text)
  {
    DownIsDigits(digits[..], d, scale);
    hide Stacked;
    ghost var whole := sign + d[..n - scale];
    CopyDown(digits, n, scale, buf, p0, sign);
    assert Begins(buf, whole);
    p := p0 + (n - scale);
    if scale > 0 {
      hide Begins;
      PutChar(buf, p, '.', whole);
      p := p + 1;
      CopyDown(digits, scale, 0, buf, p, whole + ".");
      p := p + scale;
    }
  }

  /** Writes into `buf` as the runtime does, and refuses a buffer with no room for the
      text and its terminator. */
  method WriteDecimal(v: int, scale: int, buf: array<char>) returns (len: int)
    requires IsInt128(v)
    modifies buf
    ensures len >= 0 <==> 0 <= scale <= 38 && |FormatText(v, scale)| + 1 <= buf.Length
    ensures len >= 0 ==> len == |FormatText(v, scale)| && Begins(buf, FormatText(v, scale) + "\0")
    ensures len < 0 ==> len == -1 && buf[..] == old(buf[..])
  {
    if scale < 0 || scale > 38 { return -1; }
    hide *;
    var digits, n := StackDigits(v, scale);
    ghost var d := Digits(v, scale);
    TextPieces(v, scale);
    NothingWritten(buf);
    ghost var sign := if v < 0 then "-" else "";
    var need := n + (if scale > 0 then 1 else 0) + (if v < 0 then 1 else 0);
    assert need == |FormatText(v, scale)|;
    if need + 1 > buf.Length { return -1; }
    var p := 0;
    if v < 0 {
      PutChar(buf, p, '-', "");
      p := 1;
    }
    p := PutPlaces(digits, n, scale, buf, p, sign, d);
    PutChar(buf, p, '\0', FormatText(v, scale));
    return p;
  }

  lemma NothingWritten(buf: array<char>)
    ensures Begins(buf, "")
  {}

  lemma TextPieces(v: int, scale: nat)
    requires IsInt128(v)
    ensures var d := Digits(v, scale); var whole := (if v < 0 then "-" else "") + d[..|d| - scale];
            FormatText(v, scale) == if scale > 0 then whole + "." + d[|d| - scale..] else whole
  {
    hide Digits;
  }
}
