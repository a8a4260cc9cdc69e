/** What date and time text promises: it reads back, and it sorts in time order. */
module IsoTheorems {
  import opened Text
  import opened Calendar
  import opened IsoText

  // ---------------------------------------------------------------- dates

  predicate FourDigitYear(days: int) { 0 <= CivilFromDays(days).y <= 9999 }

  lemma TwoWide(n: nat)
    requires n < 100
    ensures |Padded(n, 2)| == 2 && AllDigits(Padded(n, 2))
  {
    assert Pow10(2) == 100;
    PaddedLength(n, 2);
  }

  /** Three runs of digits between separators keep their places. */
  lemma Joined(a: string, b: string, c: string, sep: char, rest: string)
    requires AllDigits(a) && AllDigits(b) && AllDigits(c) && |b| == 2 && |c| == 2
    ensures var s, n := a + [sep] + b + [sep] + c + rest, |a|;
            && |s| == n + 6 + |rest| && Shaped(s, n + 6, n, n + 3, sep)
            && s[..n] == a && s[n + 1..n + 3] == b && s[n + 4..n + 6] == c && s[n + 6..] == rest
  {
    hide IsDigit;
    var s, n := a + [sep] + b + [sep] + c + rest, |a|;
    assert s[n + 1] == b[0] && s[n + 2] == b[1] && s[n + 4] == c[0] && s[n + 5] == c[1];
  }

  /** The layout of a date whose year has four digits. */
  lemma DateLayout(c: Date)
    requires ValidDate(c) && 0 <= c.y <= 9999
    ensures var s := DateText(c);
            && |s| == 10 && Shaped(s, 10, 4, 7, '-')
            && s[..4] == Padded(c.y, 4) && s[5..7] == Padded(c.m, 2) && s[8..10] == Padded(c.d, 2)
  {
    assert Pow10(4) == 10000;
    PaddedLength(c.y, 4);
    TwoWide(c.m);
    TwoWide(c.d);
    hide Padded, Shaped, AllDigits;
    Joined(Padded(c.y, 4), Padded(c.m, 2), Padded(c.d, 2), '-', "");
    assert DateText(c) == Padded(c.y, 4) + ['-'] + Padded(c.m, 2) + ['-'] + Padded(c.d, 2) + "";
  }

  /** Outside four-digit years a date has a sign or a digit where the first hyphen belongs. */
  lemma WideDate(c: Date, rest: string)
    requires ValidDate(c) && !(0 <= c.y <= 9999)
    ensures |DateText(c)| >= 5
    ensures (DateText(c) + rest)[0] == '-' || (DateText(c) + rest)[4] != '-'
  {
    if c.y > 9999 {
      PaddedLength(c.y, 4);
      assert Pow10(4) == 10000;
      assert (DateText(c) + rest)[4] == Padded(c.y, 4)[4];
    }
  }

  lemma ShapedDateReads(c: Date)
    requires ValidDate(c) && 0 <= c.y <= 9999
    ensures ParseDate(DateText(c)) == Some(DaysFromCivil(c))
  {
    DateLayout(c);
    NumberOfPadded(c.y, 4);
    NumberOfPadded(c.m, 2);
    NumberOfPadded(c.d, 2);
    hide DaysFromCivil, Padded, NumberOf, DateText, Shaped;
  }

  /** Formatted dates read back exactly when the year has four digits. */
  lemma DateRoundTrip(days: int)
    ensures ParseDate(FormatDate(days)) == Some(days) <==> FourDigitYear(days)
  {
    DaysInvertCivil(days);
    var c := CivilFromDays(days);
    hide CivilFromDays, DaysFromCivil, DateText;
    if 0 <= c.y <= 9999 {
      ShapedDateReads(c);
    } else {
      WideDate(c, "");
      assert DateText(c) + "" == DateText(c);
    }
  }

  // ---------------------------------------------------------------- times of day

  lemma ClockLayout(k: Clock)
    requires ValidClock(k)
    ensures var s := ClockText(k);
            && |s| == (if k.frac == 0 then 8 else 15) && Shaped(s, 8, 2, 5, ':')
            && s[..2] == Padded(k.hh, 2) && s[3..5] == Padded(k.mm, 2) && s[6..8] == Padded(k.ss, 2)
            && (k.frac != 0 ==> s[8] == '.' && s[9..] == Padded(k.frac, 6))
  {
    assert Pow10(6) == 1000000;
    TwoWide(k.hh);
    TwoWide(k.mm);
    TwoWide(k.ss);
    PaddedLength(k.frac, 6);
    hide Padded, Shaped, AllDigits, Pow10;
    var rest := if k.frac == 0 then "" else "." + Padded(k.frac, 6);
    Joined(Padded(k.hh, 2), Padded(k.mm, 2), Padded(k.ss, 2), ':', rest);
    var s := Padded(k.hh, 2) + [':'] + Padded(k.mm, 2) + [':'] + Padded(k.ss, 2) + rest;
    assert ClockText(k) == s;
    if k.frac != 0 { assert s[8] == s[8..][0] && s[9..] == s[8..][1..]; }
  }

  lemma ClockReadsBack(k: Clock)
    requires ValidClock(k)
    ensures ParseTime(ClockText(k)) == Some(k.hh * HOUR_US + k.mm * MINUTE_US + k.ss * SECOND_US + k.frac)
  {
    ClockLayout(k);
    NumberOfPadded(k.hh, 2);
    NumberOfPadded(k.mm, 2);
    NumberOfPadded(k.ss, 2);
    NumberOfPadded(k.frac, 6);
    var s := ClockText(k);
    assert |s| == 15 ==> AllDigits(s[9..]) && Pow10(15 - |s|) == 1;
  }

  /** Every time of day reads back; nothing else is formatted at all. */
  lemma TimeRoundTrip(us: int)
    ensures FormatTime(us).Some? <==> 0 <= us < DAY_US
    ensures FormatTime(us).Some? ==> ParseTime(FormatTime(us).value) == Some(us)
  {
    if 0 <= us < DAY_US { ClockReadsBack(ClockOf(us)); }
  }

  // ---------------------------------------------------------------- timestamps

  /** A formatted timestamp is a date, a blank and a time, wherever the year fits. */
  lemma TsLayout(us: int)
    ensures FourDigitYear(SplitTs(us).0) <==> |FormatDate(SplitTs(us).0)| == 10 && FormatDate(SplitTs(us).0)[0] != '-'
    ensures FourDigitYear(SplitTs(us).0) ==>
              && FormatTs(us)[..10] == FormatDate(SplitTs(us).0)
              && FormatTs(us)[10] == ' '
              && FormatTs(us)[11..] == ClockText(ClockOf(SplitTs(us).1))
  {
    var days := SplitTs(us).0;
    DaysInvertCivil(days);
    var c := CivilFromDays(days);
    hide CivilFromDays, DaysFromCivil, ClockText, SplitTs;
    if 0 <= c.y <= 9999 {
      DateLayout(c);
      assert FormatDate(days)[0] == Padded(c.y, 4)[0];
    } else if c.y > 9999 {
      PaddedLength(c.y, 4);
      assert Pow10(4) == 10000;
    }
  }

  /** Outside four-digit years no text that starts with the date parses as a timestamp. */
  lemma DatePrefix(days: int, rest: string)
    requires !FourDigitYear(days)
    ensures ParseTs(FormatDate(days) + rest) == None
  {
    DaysInvertCivil(days);
    var c := CivilFromDays(days);
    hide CivilFromDays, DaysFromCivil, ParseTime;
    WideDate(c, rest);
    var s := FormatDate(days) + rest;
    assert |s| >= 10 ==> s[..10][0] == s[0] && s[..10][4] == s[4];
  }

  /** Formatted timestamps, negative ones included, read back exactly when the civil
      year has four digits. */
  lemma TsRoundTrip(us: int)
    ensures ParseTs(FormatTs(us)) == Some(us) <==> FourDigitYear(SplitTs(us).0)
  {
    hide CivilFromDays, DaysFromCivil, ClockText, SplitTs, ParseDate, ParseTime, FormatDate, FourDigitYear, ClockOf;
    var (days, tod) := SplitTs(us);
    var k := ClockOf(tod);
    TsLayout(us);
    DateRoundTrip(days);
    ClockReadsBack(k);
    ClockLayout(k);
    if FourDigitYear(days) {
      assert |FormatTs(us)| >= 19;
    } else {
      DatePrefix(days, " " + ClockText(k));
      assert FormatTs(us) == FormatDate(days) + (" " + ClockText(k));
    }
  }

  lemma SplitOrder(a: int, b: int)
    ensures Order(a, b) == if SplitTs(a).0 != SplitTs(b).0 then Order(SplitTs(a).0, SplitTs(b).0)
                           else Order(SplitTs(a).1, SplitTs(b).1)
  {
    var (da, ta) := SplitTs(a);
    var (db, tb) := SplitTs(b);
    hide SplitTs;
    if da < db {
      assert da * DAY_US + DAY_US <= db * DAY_US;
    } else if db < da {
      assert db * DAY_US + DAY_US <= da * DAY_US;
    }
  }

  lemma ComparePadded(a: nat, b: nat, w: nat)
    requires w > 0 && a < Pow10(w) && b < Pow10(w)
    ensures Compare(Padded(a, w), Padded(b, w)) == Order(a, b)
    ensures |Padded(a, w)| == |Padded(b, w)| == w
  {
    PaddedLength(a, w);
    PaddedLength(b, w);
    NumberOfPadded(a, w);
    NumberOfPadded(b, w);
    CompareDigits(Padded(a, w), Padded(b, w));
  }

  /** The same separator after parts of equal length. */
  lemma CompareParts(a: string, b: string, sep: string, x: string, y: string)
    requires |a| == |b|
    ensures Compare(a + sep + x, b + sep + y) == if Compare(a, b) != 0 then Compare(a, b) else Compare(x, y)
  {
    CompareSame(sep);
    CompareAppend(a, b, sep + x, sep + y);
    CompareAppend(sep, sep, x, y);
    assert a + sep + x == a + (sep + x) && b + sep + y == b + (sep + y);
  }

  lemma CompareField(a: nat, b: nat, w: nat, sep: string, x: string, y: string)
    requires w > 0 && a < Pow10(w) && b < Pow10(w)
    ensures Compare(Padded(a, w) + sep + x, Padded(b, w) + sep + y)
         == if a != b then Order(a, b) else Compare(x, y)
  {
    ComparePadded(a, b, w);
    CompareParts(Padded(a, w), Padded(b, w), sep, x, y);
  }

  lemma DatesCompare(a: Date, b: Date)
    requires ValidDate(a) && ValidDate(b) && 0 <= a.y <= 9999 && 0 <= b.y <= 9999
    ensures Compare(DateText(a), DateText(b)) == if a == b then 0 else if Before(a, b) then -1 else 1
    ensures |DateText(a)| == |DateText(b)| == 10
  {
    assert Pow10(4) == 10000 && Pow10(2) == 100;
    var da, db := Padded(a.d, 2), Padded(b.d, 2);
    ComparePadded(a.d, b.d, 2);
    var ma, mb := Padded(a.m, 2) + "-" + da, Padded(b.m, 2) + "-" + db;
    CompareField(a.m, b.m, 2, "-", da, db);
    CompareField(a.y, b.y, 4, "-", ma, mb);
    assert DateText(a) == Padded(a.y, 4) + "-" + ma;
    assert DateText(b) == Padded(b.y, 4) + "-" + mb;
    DateLayout(a);
    DateLayout(b);
  }

  function FractionText(frac: int): string
    requires 0 <= frac
  {
    if frac == 0 then "" else "." + Padded(frac, 6)
  }

  /** An omitted fraction is a prefix of every written one, so it sorts first. */
  lemma FractionsCompare(a: int, b: int)
    requires 0 <= a < SECOND_US && 0 <= b < SECOND_US
    ensures Compare(FractionText(a), FractionText(b)) == Order(a, b)
  {
    if a != 0 && b != 0 {
      assert Pow10(6) == 1000000;
      ComparePadded(a, b, 6);
      CompareAppend(".", ".", Padded(a, 6), Padded(b, 6));
    }
  }

  predicate EarlierClock(a: Clock, b: Clock) {
    a.hh < b.hh || (a.hh == b.hh && (a.mm < b.mm || (a.mm == b.mm && (a.ss < b.ss || (a.ss == b.ss && a.frac < b.frac)))))
  }

  function SecondsText(k: Clock): string
    requires ValidClock(k)
  {
    Padded(k.ss, 2) + "" + FractionText(k.frac)
  }

  function MinutesText(k: Clock): string
    requires ValidClock(k)
  {
    Padded(k.mm, 2) + ":" + SecondsText(k)
  }

  lemma ClockTextNests(k: Clock)
    requires ValidClock(k)
    ensures ClockText(k) == Padded(k.hh, 2) + ":" + MinutesText(k)
  {}

  lemma ClocksCompare(a: Clock, b: Clock)
    requires ValidClock(a) && ValidClock(b)
    ensures Compare(ClockText(a), ClockText(b)) == if a == b then 0 else if EarlierClock(a, b) then -1 else 1
  {
    assert Pow10(2) == 100;
    hide Compare, ClockText, FractionText, Padded, Pow10;
    FractionsCompare(a.frac, b.frac);
    CompareField(a.ss, b.ss, 2, "", FractionText(a.frac), FractionText(b.frac));
    CompareField(a.mm, b.mm, 2, ":", SecondsText(a), SecondsText(b));
    CompareField(a.hh, b.hh, 2, ":", MinutesText(a), MinutesText(b));
    ClockTextNests(a);
    ClockTextNests(b);
  }

  lemma ClockOrder(a: int, b: int)
    requires 0 <= a < DAY_US && 0 <= b < DAY_US
    ensures a < b <==> EarlierClock(ClockOf(a), ClockOf(b))
  {
    var ka, kb := ClockOf(a), ClockOf(b);
    hide ClockOf;
  }

  lemma DateAndClockCompare(ca: Date, ka: Clock, cb: Date, kb: Clock)
    requires ValidDate(ca) && ValidDate(cb) && 0 <= ca.y <= 9999 && 0 <= cb.y <= 9999
    requires ValidClock(ka) && ValidClock(kb)
    ensures Compare(DateText(ca) + " " + ClockText(ka), DateText(cb) + " " + ClockText(kb))
         == if ca == cb && ka == kb then 0
            else if Before(ca, cb) || (ca == cb && EarlierClock(ka, kb)) then -1 else 1
  {
    DatesCompare(ca, cb);
    ClocksCompare(ka, kb);
    hide Compare, DateText, ClockText;
    CompareParts(DateText(ca), DateText(cb), " ", ClockText(ka), ClockText(kb));
  }

  /** Timestamp text sorts as time does: comparing two formatted timestamps byte by byte
      gives the order of the timestamps, written fraction or not. */
  lemma TsTextIsOrdered(a: int, b: int)
    requires FourDigitYear(SplitTs(a).0) && FourDigitYear(SplitTs(b).0)
    ensures Compare(FormatTs(a), FormatTs(b)) == Order(a, b)
  {
    hide CivilFromDays, DaysFromCivil, ClockText, SplitTs, ClockOf, EarlierClock, DateText, ValidDate, ValidClock;
    var (da, ta) := SplitTs(a);
    var (db, tb) := SplitTs(b);
    SplitOrder(a, b);
    ClockOrder(ta, tb);
    ClockOrder(tb, ta);
    DaysInvertCivil(da);
    DaysInvertCivil(db);
    DaysOrderDates(CivilFromDays(da), CivilFromDays(db));
    DaysOrderDates(CivilFromDays(db), CivilFromDays(da));
    DateAndClockCompare(CivilFromDays(da), ClockOf(ta), CivilFromDays(db), ClockOf(tb));
  }

  // ---------------------------------------------------------------- text first

  /** The date that text of the right shape names, real or not. */
  function WrittenDate(s: string): Date
    requires |s| >= 10
  {
    Date(NumberOf(s[..4]), NumberOf(s[5..7]), NumberOf(s[8..10]))
  }

  lemma DateReprints(s: string)
    requires ParseDate(s).Some?
    ensures ValidDate(WrittenDate(s)) ==> FormatDate(ParseDate(s).value) == s
  {
    var c := WrittenDate(s);
    PaddedOfNumber(s[..4]);
    PaddedOfNumber(s[5..7]);
    PaddedOfNumber(s[8..10]);
    assert s == s[..4] + "-" + s[5..7] + "-" + s[8..10];
    hide DaysFromCivil, CivilFromDays, Padded;
    if ValidDate(c) {
      CivilInvertsDays(c);
      assert ParseDate(s) == Some(DaysFromCivil(c));
      assert FormatDate(DaysFromCivil(c)) == DateText(c);
    }
  }

  /** Every accepted date keeps its four-digit year, and prints as written only if real. */
  lemma DateReprintsOnlyReal(s: string)
    requires ParseDate(s).Some?
    ensures FourDigitYear(ParseDate(s).value)
    ensures FormatDate(ParseDate(s).value) == s ==> ValidDate(WrittenDate(s))
  {
    var c := WrittenDate(s);
    NumberBound(s[..4]);
    assert Pow10(4) == 10000;
    hide DaysFromCivil, CivilFromDays, DateText, ValidDate, Padded, NumberOf;
    assert ParseDate(s) == Some(DaysFromCivil(c));
    NamedDay(c);
    DaysInvertCivil(DaysFromCivil(c));
    var r := CivilFromDays(DaysFromCivil(c));
    DateLayout(r);
    NumberOfPadded(r.y, 4);
    NumberOfPadded(r.m, 2);
    NumberOfPadded(r.d, 2);
  }

  function ClockAt(s: string): Clock
    requires |s| >= 8
  {
    Clock(NumberOf(s[..2]), NumberOf(s[3..5]), NumberOf(s[6..8]), if |s| == 15 then NumberOf(s[9..]) else 0)
  }

  lemma ClockUnique(a: Clock, b: Clock)
    requires ValidClock(a) && ValidClock(b)
    requires a.hh * HOUR_US + a.mm * MINUTE_US + a.ss * SECOND_US + a.frac
          == b.hh * HOUR_US + b.mm * MINUTE_US + b.ss * SECOND_US + b.frac
    ensures a == b
  {}

  /** A fraction reads as micros whatever its length, and stays below a second. */
  lemma FractionBound(s: string)
    requires |s| <= 6 && AllDigits(s)
    ensures 0 <= NumberOf(s) * Pow10(6 - |s|) < SECOND_US
  {
    NumberBound(s);
    assert Pow10(1) == 10 && Pow10(2) == 100 && Pow10(3) == 1000 && Pow10(4) == 10000 && Pow10(5) == 100000 && Pow10(6) == 1000000;
  }

  lemma TimeInDay(s: string)
    requires ParseTime(s).Some?
    ensures 0 <= ParseTime(s).value < DAY_US
    ensures 8 <= |s| <= 15 && Shaped(s, 8, 2, 5, ':')
    ensures |s| > 8 ==> s[8] == '.' && AllDigits(s[9..])
    ensures 0 <= NumberOf(s[..2]) < 24 && 0 <= NumberOf(s[3..5]) < 60 && 0 <= NumberOf(s[6..8]) < 60
  {
    NumberBound(s[..2]);
    NumberBound(s[3..5]);
    NumberBound(s[6..8]);
    if |s| > 8 { FractionBound(s[9..]); }
  }

  /** The texts FormatTime produces: no fraction, or six digits that are not all zero. */
  predicate CanonicalFraction(s: string) {
    |s| == 8 || (|s| == 15 && NumberOf(s[9..]) != 0)
  }

  lemma TimeReprints(s: string)
    requires ParseTime(s).Some?
    ensures 0 <= ParseTime(s).value < DAY_US
    ensures ClockText(ClockOf(ParseTime(s).value)) == s <==> CanonicalFraction(s)
  {
    TimeInDay(s);
    var us := ParseTime(s).value;
    var k := ClockOf(us);
    if CanonicalFraction(s) {
      CanonicalClock(s);
      hide ClockOf;
      ClockUnique(k, ClockAt(s));
    } else {
      hide ClockOf, ParseTime;
      ClockLayout(k);
      NumberOfPadded(k.frac, 6);
      hide ClockText, Padded, NumberOf;
    }
  }

  lemma CanonicalClock(s: string)
    requires ParseTime(s).Some? && CanonicalFraction(s)
    ensures var k := ClockAt(s);
            && ValidClock(k) && ClockText(k) == s
            && ParseTime(s).value == k.hh * HOUR_US + k.mm * MINUTE_US + k.ss * SECOND_US + k.frac
  {
    TimeInDay(s);
    if |s| == 15 {
      FractionBound(s[9..]);
      assert s[9..] == s[9..15];
    }
    assert Pow10(0) == 1;
    ClockTextOfParts(s);
  }

  /** Two digits, colon, two digits, colon, two digits and the fraction make up the text. */
  lemma ClockTextOfParts(s: string)
    requires |s| == 8 || (|s| == 15 && s[8] == '.' && AllDigits(s[9..]) && NumberOf(s[9..]) != 0)
    requires Shaped(s, 8, 2, 5, ':') && ValidClock(ClockAt(s))
    ensures ClockText(ClockAt(s)) == s
  {
    var h, m, c := s[..2], s[3..5], s[6..8];
    PaddedOfNumber(h);
    PaddedOfNumber(m);
    PaddedOfNumber(c);
    if |s| == 15 { PaddedOfNumber(s[9..]); }
    hide Padded, NumberOf;
    assert s[..8] == h + ":" + m + ":" + c;
    assert s == s[..8] + s[8..];
    assert |s| == 15 ==> s[8..] == "." + s[9..];
  }

  lemma SplitUnique(us: int, days: int, tod: int)
    requires us == days * DAY_US + tod && 0 <= tod < DAY_US
    ensures SplitTs(us) == (days, tod)
  {
    var r := SplitTs(us);
    hide SplitTs;
    assert (days - r.0) * DAY_US == r.1 - tod;
  }

  /** An accepted timestamp text is exactly what formatting its value prints when, and only
      when, it names a real date, uses the blank and its fraction is absent or six digits
      that are not all zero. Day 31 of a short month, `T` and short fractions are accepted
      but print differently. */
  lemma TsReprints(s: string)
    requires ParseTs(s).Some?
    ensures FormatTs(ParseTs(s).value) == s
       <==> ValidDate(WrittenDate(s)) && s[10] == ' ' && CanonicalFraction(s[11..])
  {
    hide ParseDate, ParseTime, FormatDate, ClockText, ClockOf, SplitTs, ValidDate, CanonicalFraction, FourDigitYear;
    var days, tod := ParseDate(s[..10]).value, ParseTime(s[11..]).value;
    TimeReprints(s[11..]);
    DateReprints(s[..10]);
    DateReprintsOnlyReal(s[..10]);
    assert s[..10][..4] == s[..4] && s[..10][5..7] == s[5..7] && s[..10][8..10] == s[8..10];
    var us := ParseTs(s).value;
    SplitUnique(us, days, tod);
    TsLayout(us);
    assert s == s[..10] + [s[10]] + s[11..];
  }

  // ---------------------------------------------------------------- time zones

  datatype Zone = Local | Utc | Hours(east: bool, hh: int) | HoursMinutes(east: bool, hh: int, mm: int, colon: bool)

  predicate ValidZone(z: Zone) {
    && (z.Hours? || z.HoursMinutes? ==> 0 <= z.hh < 24)
    && (z.HoursMinutes? ==> 0 <= z.mm < 60)
  }

  function ZoneText(z: Zone): string
    requires ValidZone(z)
  {
    match z
    case Local => ""
    case Utc => "Z"
    case Hours(east, hh) => (if east then "+" else "-") + Padded(hh, 2)
    case HoursMinutes(east, hh, mm, colon) =>
      (if east then "+" else "-") + Padded(hh, 2) + (if colon then ":" else "") + Padded(mm, 2)
  }

  /** How far east of UTC the zone lies, in micros. */
  function ZoneShift(z: Zone): int {
    match z
    case Local => 0
    case Utc => 0
    case Hours(east, hh) => if east then hh * HOUR_US else -(hh * HOUR_US)
    case HoursMinutes(east, hh, mm, _) =>
      if east then hh * HOUR_US + mm * MINUTE_US else -(hh * HOUR_US + mm * MINUTE_US)
  }

  lemma ZoneOffsetReads(z: Zone)
    requires ValidZone(z) && (z.Hours? || z.HoursMinutes?)
    ensures ZoneOffset(ZoneText(z)) == Some(ZoneShift(z))
    ensures IsDigit(ZoneText(z)[|ZoneText(z)| - 1])
  {
    hide Padded, NumberOf;
    var s, h := ZoneText(z), Padded(z.hh, 2);
    TwoDigits(z.hh);
    if z.Hours? {
      assert s[1..] == h && h[..2] == h;
    } else {
      var m := Padded(z.mm, 2);
      TwoDigits(z.mm);
      assert (h + m)[..2] == h && (h + m)[2..] == m;
      if z.colon {
        assert s[3] == ':' && s[1..3] == h && s[4..] == m;
      } else {
        assert s[1..] == h + m;
      }
    }
  }

  lemma TwoDigits(n: nat)
    requires n < 100
    ensures |Padded(n, 2)| == 2 && NumberOf(Padded(n, 2)) == n
  {
    assert Pow10(2) == 100;
    PaddedLength(n, 2);
    NumberOfPadded(n, 2);
  }

  /** Nothing after the seconds of a formatted timestamp can be taken for a zone. */
  lemma TsHasNoZone(us: int)
    requires FourDigitYear(SplitTs(us).0)
    ensures var s := FormatTs(us);
            && |s| >= 19 && IsDigit(s[|s| - 1])
            && forall i :: 19 <= i < |s| ==> s[i] == '.' || IsDigit(s[i])
  {
    hide FormatDate, SplitTs, ClockOf, FourDigitYear;
    TsLayout(us);
    var k := ClockOf(SplitTs(us).1);
    ClockLayout(k);
    var s, t := FormatTs(us), ClockText(k);
    hide ClockText;
    forall i | 19 <= i < |s|
      ensures s[i] == '.' || IsDigit(s[i])
    {
      assert s[i] == t[i - 11];
      if i > 19 { assert t[i - 11] == t[9..][i - 20]; }
    }
    assert s[|s| - 1] == t[|t| - 1];
    if |t| == 15 { assert t[14] == t[9..][5]; }
  }

  /** Local time with any of the zone spellings reads as the UTC instant. */
  lemma ZonedTsReads(us: int, z: Zone)
    requires FourDigitYear(SplitTs(us).0) && ValidZone(z)
    ensures ParseTsTz(FormatTs(us) + ZoneText(z)) == Some(us - ZoneShift(z))
  {
    hide *;
    TsRoundTrip(us);
    TsHasNoZone(us);
    ZoneSplits(FormatTs(us), z);
    ReadsBeforeZone(FormatTs(us) + ZoneText(z), |FormatTs(us)|, ZoneShift(z));
  }

  lemma ReadsBeforeZone(s: string, n: nat, shift: int)
    requires SplitZone(s) == Some((n, shift)) && n <= |s| && ParseTs(s[..n]).Some?
    ensures ParseTsTz(s) == Some(ParseTs(s[..n]).value - shift)
  {
    hide SplitZone, ParseTs;
  }

  lemma SignedZoneSplits(t: string, zt: string)
    requires |t| >= 19 && zt != "" && (zt[0] == '+' || zt[0] == '-') && IsDigit(zt[|zt| - 1])
    requires forall i :: 19 <= i < |t| ==> t[i] == '.' || IsDigit(t[i])
    requires ZoneOffset(zt).Some?
    ensures SplitZone(t + zt) == Some((|t|, ZoneOffset(zt).value))
  {
    hide ZoneOffset;
    var s := t + zt;
    assert s[|s| - 1] == zt[|zt| - 1];
    assert s[|t|..] == zt && s[|t|] == zt[0];
    assert forall i :: 19 <= i < |t| ==> s[i] == t[i];
    assert FirstSign(s, 19) == |t|;
  }

  /** The zone is split off exactly where the text before it ends. */
  lemma ZoneSplits(t: string, z: Zone)
    requires ValidZone(z) && |t| >= 19 && IsDigit(t[|t| - 1])
    requires forall i :: 19 <= i < |t| ==> t[i] == '.' || IsDigit(t[i])
    ensures SplitZone(t + ZoneText(z)) == Some((|t|, ZoneShift(z)))
    ensures (t + ZoneText(z))[..|t|] == t
  {
    hide ZoneOffset, Padded;
    if z.Hours? || z.HoursMinutes? {
      ZoneOffsetReads(z);
      assert ZoneText(z)[0] == '+' || ZoneText(z)[0] == '-';
      SignedZoneSplits(t, ZoneText(z));
    } else if z.Local? {
      assert t + ZoneText(z) == t;
      assert FirstSign(t, 19) == |t|;
    }
  }
}
