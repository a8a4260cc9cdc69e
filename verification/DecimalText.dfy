/** Which texts denote a decimal, and that every printed decimal denotes itself. */
module DecimalText {
  import opened CInt
  import opened Text
  import opened Decimal

  datatype Sign = Plain | Plus | Minus

  /** An optional sign, digits, and optionally a point and more digits. */
  datatype Numeral = Numeral(sign: Sign, ints: string, point: bool, fracs: string)

  predicate WellFormed(n: Numeral) {
    && AllDigits(n.ints) && AllDigits(n.fracs)
    && (!n.point ==> n.fracs == "")
    && n.ints + n.fracs != ""
  }

  function SignText(s: Sign): string {
    match s
    case Plain => ""
    case Plus => "+"
    case Minus => "-"
  }

  function NumeralBody(n: Numeral): string { n.ints + (if n.point then "." + n.fracs else "") }

  function NumeralText(n: Numeral): string { SignText(n.sign) + NumeralBody(n) }

  /** The digits a target scale keeps. */
  function Kept(n: Numeral, scale: nat): string {
    if |n.fracs| <= scale then n.fracs else n.fracs[..scale]
  }

  predicate AllZeros(s: string) { forall i :: 0 <= i < |s| ==> s[i] == '0' }

  /** The numeral's magnitude counted in units of 10^-scale. */
  function Units(n: Numeral, scale: nat): int {
    NumberOf(n.ints + Kept(n, scale)) * Pow10(scale - |Kept(n, scale)|)
  }

  /** No digit is lost at this scale, and the magnitude is within reach. */
  predicate Representable(n: Numeral, scale: nat) {
    && (|n.fracs| > scale ==> AllZeros(n.fracs[scale..]))
    && Units(n, scale) <= MAX_TEXT
  }

  // ---------------------------------------------------------------- the digit loop

  /** `mag` followed by more digits. */
  function Extend(mag: int, s: string): int { mag * Pow10(|s|) + NumberOf(s) }

  lemma {:induction false} NumberOfCons(c: char, s: string)
    ensures NumberOf([c] + s) == DigitValue(c) * Pow10(|s|) + NumberOf(s)
    decreases |s|
  {
    if s == "" {
      assert ([c] + s)[..0] == "";
    } else {
      var t := s[..|s| - 1];
      NumberOfCons(c, t);
      assert ([c] + s)[..|s|] == [c] + t;
      var v, p := DigitValue(c), Pow10(|t|);
      assert 10 * (v * p) == v * (10 * p);
    }
  }

  lemma ExtendStep(mag: int, s: string)
    requires s != ""
    ensures Extend(10 * mag + DigitValue(s[0]), s[1..]) == Extend(mag, s)
  {
    NumberOfCons(s[0], s[1..]);
    assert s == [s[0]] + s[1..];
    var d, p := DigitValue(s[0]), Pow10(|s| - 1);
    assert (10 * mag + d) * p == mag * (10 * p) + d * p;
  }

  lemma ExtendGrows(mag: int, s: string)
    requires mag >= 0 && AllDigits(s)
    ensures Extend(mag, s) >= mag
  {
    NumberBound(s);
    assert mag * Pow10(|s|) >= mag * 1 by { Pow10Positive(|s|); MulMonotone(mag, 1, Pow10(|s|)); }
  }

  lemma {:induction false} Pow10Positive(n: nat)
    ensures Pow10(n) >= 1
  {
    if n > 0 { Pow10Positive(n - 1); }
  }

  lemma MulMonotone(m: int, a: int, b: int)
    requires m >= 0 && a <= b
    ensures m * a <= m * b
  {}

  lemma MulTenFits(mag: int, d: int)
    requires mag >= 0 && 0 <= d < 10
    ensures SafeMul10(mag, d) == if 10 * mag + d <= MAX_TEXT then Some(10 * mag + d) else None
  {}

  lemma {:induction false} ScanInts(st: Scan, s: string, rest: string, scale: nat)
    requires AllDigits(s) && st.mag >= 0 && !st.inFrac
    ensures ScanText(st, s + rest, scale)
         == if s == "" then ScanText(st, rest, scale)
            else if Extend(st.mag, s) <= MAX_TEXT
            then ScanText(Scan(Extend(st.mag, s), true, false, st.frac), rest, scale)
            else None
    decreases |s|
  {
    if s == "" {
      assert s + rest == rest;
    } else {
      var m := 10 * st.mag + DigitValue(s[0]);
      MulTenFits(st.mag, DigitValue(s[0]));
      assert (s + rest)[1..] == s[1..] + rest;
      ExtendStep(st.mag, s);
      ExtendGrows(m, s[1..]);
      if m <= MAX_TEXT {
        ScanInts(Scan(m, true, false, st.frac), s[1..], rest, scale);
        assert NumberOf("") == 0;
      }
    }
  }

  lemma {:induction false} ScanFracs(st: Scan, s: string, scale: nat)
    requires AllDigits(s) && st.mag >= 0 && st.inFrac && st.frac + |s| <= scale
    ensures ScanText(st, s, scale)
         == if s == "" then Some(st)
            else if Extend(st.mag, s) <= MAX_TEXT then Some(Scan(Extend(st.mag, s), true, true, st.frac + |s|))
            else None
    decreases |s|
  {
    if s != "" {
      var m := 10 * st.mag + DigitValue(s[0]);
      MulTenFits(st.mag, DigitValue(s[0]));
      ExtendStep(st.mag, s);
      ExtendGrows(m, s[1..]);
      if m <= MAX_TEXT {
        ScanFracs(Scan(m, true, true, st.frac + 1), s[1..], scale);
        assert NumberOf("") == 0;
      }
    }
  }

  /** Digits past the target scale are accepted only as zeros. */
  lemma {:induction false} ScanSurplus(st: Scan, s: string, scale: nat)
    requires AllDigits(s) && st.inFrac && st.frac >= scale
    ensures ScanText(st, s, scale)
         == if s == "" then Some(st) else if AllZeros(s) then Some(st.(seen := true)) else None
    decreases |s|
  {
    if s != "" && s[0] == '0' {
      ScanSurplus(st.(seen := true), s[1..], scale);
      assert AllZeros(s) <==> AllZeros(s[1..]) by {
        assert forall i :: 1 <= i < |s| ==> s[i] == s[1..][i - 1];
      }
    }
  }

  lemma {:induction false} ScanAppend(st: Scan, s: string, t: string, scale: nat)
    ensures ScanText(st, s + t, scale)
         == match ScanText(st, s, scale) case None => None case Some(m) => ScanText(m, t, scale)
    decreases |s|
  {
    if s == "" {
      assert s + t == t;
    } else {
      assert (s + t)[1..] == s[1..] + t;
      match ScanChar(st, s[0], scale)
      case None =>
      case Some(next) => ScanAppend(next, s[1..], t, scale);
    }
  }

  lemma {:induction false} PadIs(mag: int, frac: nat, scale: nat)
    requires 0 <= mag <= MAX_TEXT && frac <= scale
    ensures PadFraction(mag, frac, scale)
         == if mag * Pow10(scale - frac) <= MAX_TEXT then Some(mag * Pow10(scale - frac)) else None
    decreases scale - frac
  {
    if frac < scale {
      MulTenFits(mag, 0);
      var p := Pow10(scale - frac - 1);
      assert (10 * mag) * p == mag * (10 * p);
      if 10 * mag <= MAX_TEXT {
        PadIs(10 * mag, frac + 1, scale);
      } else {
        Pow10Positive(scale - frac - 1);
        MulMonotone(10 * mag, 1, p);
      }
    }
  }

  // ---------------------------------------------------------------- theorems

  lemma ScanFraction(n: Numeral, scale: nat)
    requires WellFormed(n) && n.point && NumberOf(n.ints) <= MAX_TEXT
    ensures var kept := Kept(n, scale); var mag := NumberOf(n.ints + kept);
            && mag >= 0
            && ScanText(Scan(NumberOf(n.ints), n.ints != "", true, 0), n.fracs, scale)
            == if mag <= MAX_TEXT && (|n.fracs| > scale ==> AllZeros(n.fracs[scale..]))
               then Some(Scan(mag, true, true, |kept|)) else None
  {
    var kept := Kept(n, scale);
    var surplus := n.fracs[|kept|..];
    var st := Scan(NumberOf(n.ints), n.ints != "", true, 0);
    var after := Scan(NumberOf(n.ints + kept), kept != "" || n.ints != "", true, |kept|);
    assert n.fracs == kept + surplus;
    NumberBound(n.ints);
    NumberOfAppend(n.ints, kept);
    ExtendGrows(NumberOf(n.ints), kept);
    assert kept == "" ==> n.ints + kept == n.ints;
    hide Extend, ScanText, NumberOf;
    ScanFracs(st, kept, scale);
    ScanAppend(st, kept, surplus, scale);
    if after.mag <= MAX_TEXT {
      ScanSurplusOf(after, surplus, scale);
    }
  }

  /** The state after the whole body, before padding. */
  lemma ScanNumeral(n: Numeral, scale: nat)
    requires WellFormed(n)
    ensures var kept := Kept(n, scale); var mag := NumberOf(n.ints + kept);
            && mag >= 0
            && ScanText(Scan(0, false, false, 0), NumeralBody(n), scale)
            == if mag <= MAX_TEXT && (|n.fracs| > scale ==> AllZeros(n.fracs[scale..]))
               then Some(Scan(mag, true, n.point, |kept|)) else None
  {
    var kept := Kept(n, scale);
    var rest := if n.point then "." + n.fracs else "";
    NumberBound(n.ints);
    NumberBound(n.ints + kept);
    ScanInts(Scan(0, false, false, 0), n.ints, rest, scale);
    assert Extend(0, n.ints) == NumberOf(n.ints);
    assert n.ints == "" ==> NumberOf(n.ints) == 0;
    if !n.point {
      assert n.ints + kept == n.ints;
    } else {
      assert rest[1..] == n.fracs;
      var mid := Scan(NumberOf(n.ints), n.ints != "", false, 0);
      assert ScanText(mid, rest, scale) == ScanText(mid.(inFrac := true), n.fracs, scale);
      NumberOfAppend(n.ints, kept);
      ExtendGrows(NumberOf(n.ints), kept);
      hide Extend, ScanText, NumberOf;
      if NumberOf(n.ints) <= MAX_TEXT {
        ScanFraction(n, scale);
      }
    }
  }

  lemma ScanSurplusOf(st: Scan, s: string, scale: nat)
    requires AllDigits(s) && st.inFrac && (s != "" ==> st.frac >= scale)
    ensures ScanText(st, s, scale)
         == if s == "" then Some(st) else if AllZeros(s) then Some(st.(seen := true)) else None
  {
    if s != "" { ScanSurplus(st, s, scale); }
  }

  lemma {:induction false} NumberOfAppend(a: string, b: string)
    ensures NumberOf(a + b) == Extend(NumberOf(a), b)
    decreases |b|
  {
    if b == "" {
      assert a + b == a;
    } else {
      var t := b[..|b| - 1];
      NumberOfAppend(a, t);
      assert (a + b)[..|a + b| - 1] == a + t;
      var v, p := NumberOf(a), Pow10(|t|);
      assert 10 * (v * p) == v * (10 * p);
    }
  }

  lemma BodyOfNumeral(n: Numeral)
    requires WellFormed(n)
    ensures Body(NumeralText(n)) == NumeralBody(n) != ""
    ensures NumeralText(n)[0] == '-' <==> n.sign == Minus
  {
    var s := NumeralText(n);
    if n.sign == Plain {
      assert s == NumeralBody(n);
      assert s[0] == '.' || IsDigit(s[0]);
    } else {
      assert s[1..] == NumeralBody(n);
    }
  }

  /** A numeral parses exactly when its value is a whole number of units at the target
      scale, no larger than the limit, and the result is that number of units. */
  lemma NumeralParses(n: Numeral, scale: nat)
    requires WellFormed(n) && scale <= 38
    ensures Parse(NumeralText(n), scale)
         == if Representable(n, scale)
            then Some(if n.sign == Minus then -Units(n, scale) else Units(n, scale)) else None
  {
    var kept := Kept(n, scale);
    var mag := NumberOf(n.ints + kept);
    assert Units(n, scale) == mag * Pow10(scale - |kept|);
    hide ScanText, NumberOf, PadFraction, Units, NumeralText, NumeralBody, WellFormed, Body, Pow10, Kept, AllZeros, Finish;
    ScanNumeral(n, scale);
    BodyOfNumeral(n);
    FinishIs(mag, n.point, |kept|, n.sign == Minus, scale);
  }

  lemma FinishIs(mag: int, inFrac: bool, frac: nat, negative: bool, scale: nat)
    requires mag >= 0 && frac <= scale
    ensures var m := mag * Pow10(scale - frac);
            && Finish(None, negative, scale) == None
            && if m <= MAX_TEXT
               then mag <= MAX_TEXT && Finish(Some(Scan(mag, true, inFrac, frac)), negative, scale) == Some(if negative then -m else m)
               else mag > MAX_TEXT || Finish(Some(Scan(mag, true, inFrac, frac)), negative, scale) == None
  {
    hide PadFraction, Pow10;
    PadOrOverflow(mag, frac, scale);
  }

  lemma PadOrOverflow(mag: int, frac: nat, scale: nat)
    requires mag >= 0 && frac <= scale
    ensures var m := mag * Pow10(scale - frac);
            if m <= MAX_TEXT then mag <= MAX_TEXT && PadFraction(mag, frac, scale) == Some(m)
            else mag > MAX_TEXT || PadFraction(mag, frac, scale) == None
  {
    Pow10Positive(scale - frac);
    MulMonotone(mag, 1, Pow10(scale - frac));
    if mag <= MAX_TEXT { PadIs(mag, frac, scale); }
  }

  lemma {:induction false} ScanShape(st: Scan, s: string, scale: nat) returns (ints: string, point: bool, fracs: string)
    requires ScanText(st, s, scale).Some?
    ensures AllDigits(ints) && AllDigits(fracs) && (!point ==> fracs == "")
    ensures s == ints + (if point then "." + fracs else "")
    ensures st.inFrac ==> !point
    ensures s == "" ==> ScanText(st, s, scale).value == st
    ensures ints + fracs == "" ==> ScanText(st, s, scale).value.seen == st.seen
    decreases |s|
  {
    if s == "" {
      return "", false, "";
    }
    var next := ScanChar(st, s[0], scale).value;
    var i, p, f := ScanShape(next, s[1..], scale);
    assert s == [s[0]] + s[1..];
    if s[0] == '.' {
      assert next.inFrac;
      return "", true, i;
    }
    return [s[0]] + i, p, f;
  }

  /** Nothing but numerals is accepted. */
  lemma OnlyNumeralsParse(s: string, scale: int) returns (n: Numeral)
    requires Parse(s, scale).Some?
    ensures WellFormed(n) && NumeralText(n) == s && 0 <= scale <= 38
  {
    var ints, point, fracs := ScanShape(Scan(0, false, false, 0), Body(s), scale);
    n := Numeral(if s[0] == '-' then Minus else if s[0] == '+' then Plus else Plain, ints, point, fracs);
  }

  /** The numeral that formatting writes. */
  function Printed(v: int, scale: nat): Numeral
    requires IsInt128(v)
  {
    var d := Digits(v, scale);
    Numeral(if v < 0 then Minus else Plain, d[..|d| - scale], scale > 0, if scale > 0 then d[|d| - scale..] else "")
  }

  /** The printed text has exactly `scale` fraction digits and denotes |v|, except that the
      most negative value prints as minus zero. */
  lemma PrintedDenotes(v: int, scale: nat)
    requires IsInt128(v)
    ensures var n := Printed(v, scale);
            && WellFormed(n) && NumeralText(n) == FormatText(v, scale)
            && |n.fracs| == scale && n.ints != ""
            && Units(n, scale) == (if v == -TWO_127 then 0 else Abs(v))
  {
    PrintedLayout(v, scale);
    var n, d := Printed(v, scale), Digits(v, scale);
    assert Kept(n, scale) == n.fracs;
    assert Pow10(0) == 1;
    assert NumberOf(d) == if v == -TWO_127 then 0 else Abs(v) by {
      if v == -TWO_127 { NumberOfZeros(scale + 1); } else { NumberOfPadded(Abs(v), scale + 1); }
    }
    hide Digits, Printed, NumberOf, Pow10, FormatText, NumeralText;
    assert Units(n, scale) == NumberOf(d) * 1;
  }

  lemma PrintedLayout(v: int, scale: nat)
    requires IsInt128(v)
    ensures var n := Printed(v, scale);
            && WellFormed(n) && NumeralText(n) == FormatText(v, scale)
            && |n.fracs| == scale && n.ints != "" && n.ints + n.fracs == Digits(v, scale)
  {
    var n, d := Printed(v, scale), Digits(v, scale);
    hide Digits;
    assert n.ints + n.fracs == d;
    assert NumeralBody(n) == PlaceOf(d, scale);
  }

  /** A formatted decimal reads back exactly when its magnitude is within the text limit. */
  lemma DecimalRoundTrip(v: int, scale: nat)
    requires IsInt128(v) && scale <= 38
    ensures Parse(FormatText(v, scale), scale) == Some(v) <==> Abs(v) <= MAX_TEXT
  {
    assert Printed(v, scale).sign == if v < 0 then Minus else Plain;
    hide Parse, FormatText, Printed, NumeralText, WellFormed, Units;
    PrintedDenotes(v, scale);
    NumeralParses(Printed(v, scale), scale);
  }

  /** With its terminator the text never needs more than 42 bytes, so the 44-byte buffers
      always suffice. */
  lemma TextFits(v: int, scale: nat)
    requires IsInt128(v) && scale <= 38
    ensures |FormatText(v, scale)| + 1 <= 42
  {
    DigitsFit(v, scale);
  }
}
