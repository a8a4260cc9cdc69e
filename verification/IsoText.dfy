/**
 Date and time text, the RFC 3339 section 5.6 profile the runtime
 (src/runtime/date_util.c) and the expression engine share.
 */
module IsoText {
  import opened CInt
  import opened Text
  import opened Calendar

  const SECOND_US := 1_000_000
  const MINUTE_US := 60_000_000
  const HOUR_US := 3_600_000_000
  const DAY_US := 86_400_000_000

  // ---------------------------------------------------------------- formatting

  /** split_ts: whole days since the epoch, rounding down, and the rest of the day. */
  function SplitTs(us: int): (r: (int, int))
    ensures us == r.0 * DAY_US + r.1 && 0 <= r.1 < DAY_US
  {
    var d := Div(us, DAY_US);
    var r := Mod(us, DAY_US);
    if r < 0 then (d - 1, r + DAY_US) else (d, r)
  }

  /** printf's `%0<w>d`; a sign takes one of the `w` columns. */
  function PaddedInt(n: int, w: nat): string
    requires w > 0
  {
    if n < 0 then "-" + Padded(-n, w - 1) else Padded(n, w)
  }

  function DateText(c: Date): string
    requires c.m >= 0 && c.d >= 0
  {
    PaddedInt(c.y, 4) + "-" + Padded(c.m, 2) + "-" + Padded(c.d, 2)
  }

  function FormatDate(days: int): string {
    DaysInvertCivil(days);
    DateText(CivilFromDays(days))
  }

  datatype Clock = Clock(hh: int, mm: int, ss: int, frac: int)

  predicate ValidClock(k: Clock) {
    0 <= k.hh < 24 && 0 <= k.mm < 60 && 0 <= k.ss < 60 && 0 <= k.frac < SECOND_US
  }

  function ClockOf(us: int): (k: Clock)
    requires 0 <= us < DAY_US
    ensures ValidClock(k)
    ensures us == k.hh * HOUR_US + k.mm * MINUTE_US + k.ss * SECOND_US + k.frac
  {
    ClockSplits(us);
    Clock(us / HOUR_US, us / MINUTE_US % 60, us / SECOND_US % 60, us % SECOND_US)
  }

  lemma ClockSplits(us: int)
    requires 0 <= us < DAY_US
    ensures us == us / HOUR_US * HOUR_US + us / MINUTE_US % 60 * MINUTE_US
                  + us / SECOND_US % 60 * SECOND_US + us % SECOND_US
    ensures us / HOUR_US < 24
  {
    var s := us / SECOND_US;
    assert us / MINUTE_US == s / 60;
    assert us / HOUR_US == s / 60 / 60;
  }

  /** HH:MM:SS, with the six-digit fraction left out when it is zero. */
  function ClockText(k: Clock): string
    requires ValidClock(k)
  {
    var hms := Padded(k.hh, 2) + ":" + Padded(k.mm, 2) + ":" + Padded(k.ss, 2);
    if k.frac == 0 then hms else hms + "." + Padded(k.frac, 6)
  }

  /** fmt_time_iso; a value outside the day is refused. */
  function FormatTime(us: int): Option<string> {
    if us < 0 || us >= DAY_US then None else Some(ClockText(ClockOf(us)))
  }

  /** fmt_ts_iso. */
  function FormatTs(us: int): string {
    FormatDate(SplitTs(us).0) + " " + ClockText(ClockOf(SplitTs(us).1))
  }

  // ---------------------------------------------------------------- parsing

  /** Digits everywhere except at the two separator positions. */
  predicate Shaped(s: string, n: nat, sep1: nat, sep2: nat, sep: char)
    requires n <= |s|
  {
    forall i :: 0 <= i < n ==> if i == sep1 || i == sep2 then s[i] == sep else IsDigit(s[i])
  }

  function ParseDate(s: string): Option<int> {
    if |s| != 10 || !Shaped(s, 10, 4, 7, '-') then None
    else
      var y, mo, dy := NumberOf(s[..4]), NumberOf(s[5..7]), NumberOf(s[8..10]);
      if mo < 1 || mo > 12 || dy < 1 || dy > 31 then None
      else Some(DaysFromCivil(Date(y, mo, dy)))
  }

  function ParseTime(s: string): Option<int> {
    if |s| < 8 || !Shaped(s, 8, 2, 5, ':') then None
    else
      var hh, mm, ss := NumberOf(s[..2]), NumberOf(s[3..5]), NumberOf(s[6..8]);
      var us := hh * HOUR_US + mm * MINUTE_US + ss * SECOND_US;
      if hh > 23 || mm > 59 || ss > 59 then None
      else if |s| == 8 then Some(us)
      else if s[8] != '.' || |s| > 15 || !AllDigits(s[9..]) then None
      else Some(us + NumberOf(s[9..]) * Pow10(15 - |s|))
  }

  function ParseTs(s: string): Option<int> {
    if |s| < 19 || (s[10] != ' ' && s[10] != 'T') then None
    else
      match (ParseDate(s[..10]), ParseTime(s[11..]))
      case (Some(days), Some(us)) => Some(days * DAY_US + us)
      case _ => None
  }

  /** Position of the first `+` or `-` from `i` on, or the end. */
  function FirstSign(s: string, i: nat): (k: nat)
    requires i <= |s|
    ensures i <= k <= |s|
    ensures k < |s| ==> s[k] == '+' || s[k] == '-'
    ensures forall j :: i <= j < k ==> s[j] != '+' && s[j] != '-'
    decreases |s| - i
  {
    if i == |s| || s[i] == '+' || s[i] == '-' then i else FirstSign(s, i + 1)
  }

  /** Micros east of UTC that a `+HH`, `+HHMM` or `+HH:MM` suffix names. */
  function ZoneOffset(z: string): Option<int>
    requires z != ""
  {
    var digits := if |z| == 6 && z[3] == ':' then z[1..3] + z[4..] else z[1..];
    if (|z| != 3 && |z| != 5 && (|z| != 6 || z[3] != ':')) || !AllDigits(digits) then None
    else
      var hh, mm := NumberOf(digits[..2]), if |digits| == 4 then NumberOf(digits[2..]) else 0;
      if hh > 23 || mm > 59 then None
      else Some((if z[0] == '+' then 1 else -1) * (hh * HOUR_US + mm * MINUTE_US))
  }

  /** split_tz: the length of the text before the zone, and the zone's offset. */
  function SplitZone(s: string): Option<(nat, int)> {
    if s == "" then None
    else if s[|s| - 1] == 'Z' then Some((|s| - 1, 0))
    else
      var i := FirstSign(s, Min(|s|, 19));
      if i == |s| then Some((|s|, 0))
      else
        match ZoneOffset(s[i..])
        case None => None
        case Some(offset) => Some((i, offset))
  }

  /** betl_parse_iso_tstz. */
  function ParseTsTz(s: string): Option<int> {
    match SplitZone(s)
    case None => None
    case Some(z) =>
      match ParseTs(s[..z.0])
      case None => None
      case Some(us) => Some(us - z.1)
  }

  // ---------------------------------------------------------------- the parsers as loops

  method CheckShape(s: string, n: nat, sep1: nat, sep2: nat, sep: char) returns (ok: bool)
    requires n <= |s|
    ensures ok == Shaped(s, n, sep1, sep2, sep)
  {
    for i := 0 to n
      invariant Shaped(s[..i], i, sep1, sep2, sep)
    {
      if (i == sep1 || i == sep2) && s[i] != sep { return false; }
      if i != sep1 && i != sep2 && !IsDigit(s[i]) { return false; }
    }
    return true;
  }

  lemma NumberOfTwo(s: string)
    requires |s| == 2
    ensures NumberOf(s) == 10 * DigitValue(s[0]) + DigitValue(s[1])
  {
    assert s[..1][..0] == "";
    assert NumberOf(s[..1]) == DigitValue(s[0]);
  }

  method ReadDate(s: string) returns (r: Option<int>)
    ensures r == ParseDate(s)
  {
    if |s| != 10 { return None; }
    var ok := CheckShape(s, 10, 4, 7, '-');
    if !ok { return None; }
    var y := DigitValue(s[0]) * 1000 + DigitValue(s[1]) * 100 + DigitValue(s[2]) * 10 + DigitValue(s[3]);
    var mo := DigitValue(s[5]) * 10 + DigitValue(s[6]);
    var dy := DigitValue(s[8]) * 10 + DigitValue(s[9]);
    assert NumberOf(s[..4]) == y by {
      NumberOfTwo(s[..2]);
      assert s[..4][..3][..2] == s[..2] && s[..4][..3] == s[..3];
    }
    NumberOfTwo(s[5..7]);
    NumberOfTwo(s[8..10]);
    if mo < 1 || mo > 12 || dy < 1 || dy > 31 { return None; }
    hide DaysFromCivil;
    return Some(DaysFromCivil(Date(y, mo, dy)));
  }

  method ReadTime(s: string) returns (r: Option<int>)
    ensures r == ParseTime(s)
  {
    if |s| < 8 { return None; }
    var ok := CheckShape(s, 8, 2, 5, ':');
    if !ok { return None; }
    var hh := DigitValue(s[0]) * 10 + DigitValue(s[1]);
    var mm := DigitValue(s[3]) * 10 + DigitValue(s[4]);
    var ss := DigitValue(s[6]) * 10 + DigitValue(s[7]);
    NumberOfTwo(s[..2]);
    NumberOfTwo(s[3..5]);
    NumberOfTwo(s[6..8]);
    if hh > 23 || mm > 59 || ss > 59 { return None; }
    var us := hh * HOUR_US + mm * MINUTE_US + ss * SECOND_US;
    if |s| > 8 {
      if s[8] != '.' || |s| > 15 { return None; }
      var frac := ReadFraction(s);
      if frac == None { return None; }
      hide NumberOf, Pow10;
      us := us + frac.value;
    }
    return Some(us);
  }

  /** The digits after the point, as micros. */
  method ReadFraction(s: string) returns (r: Option<int>)
    requires 9 <= |s| <= 15
    ensures r == if AllDigits(s[9..]) then Some(NumberOf(s[9..]) * Pow10(15 - |s|)) else None
  {
    var frac, mult, i := 0, 100000, 9;
    assert Pow10(2) == 100 && Pow10(4) == 10000 && Pow10(5) == 100000;
    while i < |s|
      invariant 9 <= i <= |s|
      invariant AllDigits(s[9..i])
      invariant i < 15 ==> mult == Pow10(14 - i)
      invariant frac == NumberOf(s[9..i]) * Pow10(15 - i)
    {
      if !IsDigit(s[i]) {
        assert !IsDigit(s[9..][i - 9]);
        return None;
      }
      assert s[9..i + 1] == s[9..i] + [s[i]];
      NumberOfSnoc(s[9..i], s[i]);
      assert Pow10(15 - i) == 10 * Pow10(14 - i);
      ScaledDigit(NumberOf(s[9..i]), DigitValue(s[i]), Pow10(14 - i));
      frac := frac + DigitValue(s[i]) * mult;
      mult := mult / 10;
      i := i + 1;
    }
    assert s[9..i] == s[9..];
    return Some(frac);
  }

  lemma ScaledDigit(n: int, d: int, p: int)
    ensures n * (10 * p) + d * p == (10 * n + d) * p
  {}

  method ReadTs(s: string) returns (r: Option<int>)
    ensures r == ParseTs(s)
  {
    if |s| < 19 { return None; }
    var days := ReadDate(s[..10]);
    if days == None { return None; }
    if s[10] != ' ' && s[10] != 'T' { return None; }
    var us := ReadTime(s[11..]);
    if us == None { return None; }
    return Some(days.value * DAY_US + us.value);
  }

  method ReadTsTz(s: string) returns (r: Option<int>)
    ensures r == ParseTsTz(s)
  {
    if s == "" { return None; }
    var prefix, offset := |s|, 0;
    if s[|s| - 1] == 'Z' {
      prefix := |s| - 1;
    } else {
      var i := Min(|s|, 19);
      while i < |s| && s[i] != '+' && s[i] != '-'
        invariant Min(|s|, 19) <= i <= |s|
        invariant FirstSign(s, Min(|s|, 19)) == FirstSign(s, i)
      {
        i := i + 1;
      }
      if i < |s| {
        prefix := i;
        var zone := ZoneOffset(s[i..]);
        if zone == None { return None; }
        offset := zone.value;
      }
    }
    var local := ReadTs(s[..prefix]);
    if local == None { return None; }
    return Some(local.value - offset);
  }
}
