/**
 Timestamp text position by position: which digits of a formatted timestamp spell what, in
 literal microseconds, and what a written time of day with any fraction is worth.
 */
module IsoFields {
  import opened CInt
  import opened Text
  import opened Calendar
  import opened IsoText
  import opened IsoTheorems

  /** Two digits at `i`. */
  function TwoAt(s: string, i: nat): int
    requires i + 2 <= |s|
  {
    NumberOf(s[i..i + 2])
  }

  lemma ClockSpelled(k: Clock)
    requires ValidClock(k)
    ensures var s := ClockText(k);
            && |s| == (if k.frac == 0 then 8 else 15) && s[2] == ':' && s[5] == ':'
            && TwoAt(s, 0) == k.hh && TwoAt(s, 3) == k.mm && TwoAt(s, 6) == k.ss
            && (k.frac != 0 ==> s[8] == '.' && NumberOf(s[9..]) == k.frac)
  {
    ClockLayout(k);
    NumberOfPadded(k.hh, 2);
    NumberOfPadded(k.mm, 2);
    NumberOfPadded(k.ss, 2);
    NumberOfPadded(k.frac, 6);
    hide ClockText, Padded, NumberOf;
  }

  lemma DateSpelled(days: int)
    requires FourDigitYear(days)
    ensures var s, c := FormatDate(days), CivilFromDays(days);
            && |s| == 10 && s[4] == '-' && s[7] == '-'
            && NumberOf(s[..4]) == c.y && TwoAt(s, 5) == c.m && TwoAt(s, 8) == c.d
  {
    DaysInvertCivil(days);
    var c := CivilFromDays(days);
    hide CivilFromDays, DaysFromCivil;
    DateLayout(c);
    NumberOfPadded(c.y, 4);
    NumberOfPadded(c.m, 2);
    NumberOfPadded(c.d, 2);
    hide DateText, Padded, NumberOf;
  }

  /** A timestamp's text: `YYYY-MM-DD HH:MM:SS` and, unless it is zero, six fraction digits;
      the fields are those of the day its microseconds fall in and of the rest of that day. */
  lemma TsSpelled(us: int, day: int, hh: int, mm: int, ss: int, frac: int)
    requires us == day * 86_400_000_000 + hh * 3_600_000_000 + mm * 60_000_000 + ss * 1_000_000 + frac
    requires 0 <= hh < 24 && 0 <= mm < 60 && 0 <= ss < 60 && 0 <= frac < 1_000_000 && FourDigitYear(day)
    ensures var s, c := FormatTs(us), CivilFromDays(day);
            && |s| == (if frac == 0 then 19 else 26)
            && NumberOf(s[..4]) == c.y && s[4] == '-' && TwoAt(s, 5) == c.m && s[7] == '-' && TwoAt(s, 8) == c.d && s[10] == ' '
            && TwoAt(s, 11) == hh && s[13] == ':' && TwoAt(s, 14) == mm && s[16] == ':' && TwoAt(s, 17) == ss
            && (frac != 0 ==> s[19] == '.' && NumberOf(s[20..]) == frac)
  {
    hide FormatTs, FormatDate, ClockText, ClockOf, SplitTs, CivilFromDays, NumberOf, FourDigitYear, TwoAt;
    var tod := us - day * 86_400_000_000;
    var k := Clock(hh, mm, ss, frac);
    ClockFits(hh, mm, ss, frac);
    SplitUnique(us, day, tod);
    ClockUnique(ClockOf(tod), k);
    TsLayout(us);
    DateSpelled(day);
    ClockSpelled(k);
    TsLength(us);
    Shifted(FormatTs(us), FormatDate(day), ClockText(k));
  }

  lemma TsLength(us: int)
    ensures |FormatTs(us)| == |FormatDate(SplitTs(us).0)| + 1 + |ClockText(ClockOf(SplitTs(us).1))|
  {
    hide FormatDate, ClockText, ClockOf, SplitTs;
  }

  lemma ClockFits(hh: int, mm: int, ss: int, frac: int)
    requires 0 <= hh < 24 && 0 <= mm < 60 && 0 <= ss < 60 && 0 <= frac < 1_000_000
    ensures ValidClock(Clock(hh, mm, ss, frac))
    ensures 0 <= hh * 3_600_000_000 + mm * 60_000_000 + ss * 1_000_000 + frac < DAY_US
  {}

  /** Date, blank, clock: positions in the parts and in the whole. */
  lemma Shifted(s: string, d: string, k: string)
    requires |s| >= 11 && |d| == 10 && |k| >= 8 && s[..10] == d && s[11..] == k
    ensures s[..4] == d[..4] && s[4] == d[4] && s[7] == d[7] && |s| == 11 + |k|
    ensures TwoAt(s, 5) == TwoAt(d, 5) && TwoAt(s, 8) == TwoAt(d, 8)
    ensures TwoAt(s, 11) == TwoAt(k, 0) && TwoAt(s, 14) == TwoAt(k, 3) && TwoAt(s, 17) == TwoAt(k, 6)
    ensures s[13] == k[2] && s[16] == k[5] && (|k| > 8 ==> s[19] == k[8] && s[20..] == k[9..])
  {
    assert s[5..7] == d[5..7] && s[8..10] == d[8..10] && s[..4] == d[..4];
    assert s[11..13] == k[0..2] && s[14..16] == k[3..5] && s[17..19] == k[6..8];
    assert s[13] == s[11..][2] && s[16] == s[11..][5];
    if |k| > 8 { assert s[19] == s[11..][8] && s[20..] == s[11..][9..]; }
    hide NumberOf;
  }

  /** A time of day of any accepted text: whole seconds, and a fraction of up to six digits
      read as a decimal fraction of a second. */
  lemma TimeIsWorth(s: string)
    requires ParseTime(s).Some?
    ensures |s| == 8 || (9 <= |s| <= 15 && s[8] == '.')
    ensures var f := ParseTime(s).value - (TwoAt(s, 0) * 3_600_000_000 + TwoAt(s, 3) * 60_000_000 + TwoAt(s, 6) * 1_000_000);
            if |s| == 8 then f == 0 else f * Pow10(|s| - 9) == NumberOf(s[9..]) * 1_000_000
  {
    hide Pow10, NumberOf;
    assert s[..2] == s[0..2];
    if |s| > 8 { FractionIsWorth(NumberOf(s[9..]), |s|); }
  }

  lemma FractionIsWorth(n: int, len: nat)
    requires 9 <= len <= 15
    ensures n * Pow10(15 - len) * Pow10(len - 9) == n * 1_000_000
  {
    Pow10Sum(15 - len, len - 9);
    assert Pow10(6) == 1_000_000;
    hide Pow10;
    Regrouped(n, Pow10(15 - len), Pow10(len - 9));
  }

  lemma Regrouped(n: int, p: int, q: int)
    ensures n * p * q == n * (p * q)
  {}
}
