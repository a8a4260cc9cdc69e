/**
 The closed-form civil calendar (src/runtime/date_util.c, and the expression
 engine's copy of it) against a calendar that only knows month lengths and how
 to step to the next day.
 */
module Calendar {
  import opened CInt

  datatype Date = Date(y: int, m: int, d: int)

  // ---------------------------------------------------------------- naive calendar

  predicate IsLeap(y: int) { y % 4 == 0 && (y % 100 != 0 || y % 400 == 0) }

  function DaysInMonth(y: int, m: int): int {
    if m == 2 then if IsLeap(y) then 29 else 28
    else if m == 4 || m == 6 || m == 9 || m == 11 then 30
    else 31
  }

  predicate ValidDate(c: Date) {
    1 <= c.m <= 12 && 1 <= c.d <= DaysInMonth(c.y, c.m)
  }

  /** The day after `c`. */
  function NextDay(c: Date): Date {
    if c.d < DaysInMonth(c.y, c.m) then c.(d := c.d + 1)
    else if c.m < 12 then Date(c.y, c.m + 1, 1)
    else Date(c.y + 1, 1, 1)
  }

  /** The date `n` days after the Unix epoch, found by stepping. */
  function DaysAfterEpoch(n: nat): Date {
    if n == 0 then Date(1970, 1, 1) else NextDay(DaysAfterEpoch(n - 1))
  }

  predicate Before(a: Date, b: Date) {
    a.y < b.y || (a.y == b.y && (a.m < b.m || (a.m == b.m && a.d < b.d)))
  }

  // ---------------------------------------------------------------- closed forms

  /** A day as the closed forms see it: a 400-year era, a year of the era that
      starts on the first of March, and a day of that year. */
  datatype EraDay = EraDay(era: int, yoe: int, doy: int)

  /** Days before year `yoe` within its era. */
  function YearStart(yoe: int): int { 365 * yoe + yoe / 4 - yoe / 100 }

  function EraOfYear(y: int): int { Div(if y >= 0 then y else y - 399, 400) }

  function EraOfDay(z: int): int { Div(if z >= 0 then z else z - 146096, 146097) }

  function YearOfEra(doe: int): int { (doe - doe / 1460 + doe / 36524 - doe / 146096) / 365 }

  /** The March-based year that month `m` of year `y` belongs to. */
  function MarchYear(y: int, m: int): int { if m <= 2 then y - 1 else y }

  /** The day of the March-based year on which month `m` day `d` falls. */
  function DayOfYear(m: int, d: int): int { (153 * (m + (if m > 2 then -3 else 9)) + 2) / 5 + d - 1 }

  function PartsOfCivil(c: Date): EraDay {
    var y := MarchYear(c.y, c.m);
    EraDay(EraOfYear(y), y - EraOfYear(y) * 400, DayOfYear(c.m, c.d))
  }

  function DayOfParts(p: EraDay): int {
    p.era * 146097 + (YearStart(p.yoe) + p.doy) - 719468
  }

  /** betl_days_from_civil. A day number past the month's end runs into the next month. */
  function DaysFromCivil(c: Date): int { DayOfParts(PartsOfCivil(c)) }

  function PartsOfDay(z0: int): EraDay {
    var z := z0 + 719468;
    var doe := z - EraOfDay(z) * 146097;
    var yoe := YearOfEra(doe);
    EraDay(EraOfDay(z), yoe, doe - YearStart(yoe))
  }

  function CivilOfParts(p: EraDay): Date {
    var mp := (5 * p.doy + 2) / 153;
    var d := p.doy - (153 * mp + 2) / 5 + 1;
    var m := if mp < 10 then mp + 3 else mp - 9;
    Date(p.yoe + p.era * 400 + (if m <= 2 then 1 else 0), m, d)
  }

  /** betl_civil_from_days. */
  function CivilFromDays(z: int): Date { CivilOfParts(PartsOfDay(z)) }

  // ---------------------------------------------------------------- eras

  /** Both era computations are floor divisions. */
  lemma EraIsFloor(n: int)
    ensures EraOfYear(n) == n / 400
    ensures EraOfDay(n) == n / 146097
  {}

  /** The February that closes March-based year `yoe` has 29 days. */
  predicate LongYear(yoe: int) { (yoe + 1) % 4 == 0 && ((yoe + 1) % 100 != 0 || yoe == 399) }

  function YearLength(yoe: int): int { if LongYear(yoe) then 366 else 365 }

  predicate ValidParts(p: EraDay) { 0 <= p.yoe < 400 && 0 <= p.doy < YearLength(p.yoe) }

  lemma ModOfShift(n: int, b: int, t: int)
    requires b > 0
    ensures (n + b * t) % b == n % b
  {
    var q := n / b;
    QuotientIs(n + b * t, b, q + t, n - b * q);
  }

  lemma LeapIsLong(era: int, yoe: int)
    requires 0 <= yoe < 400
    ensures IsLeap(yoe + era * 400 + 1) <==> LongYear(yoe)
  {
    ModOfShift(yoe + 1, 4, 100 * era);
    ModOfShift(yoe + 1, 100, 4 * era);
    ModOfShift(yoe + 1, 400, era);
  }

  /** The day lies in century `c`, four-year cycle `q` and year `r` of the era. */
  predicate Splits(doe: int, c: int, q: int, r: int, doy: int) {
    && 0 <= c < 4 && 0 <= q < 25 && 0 <= r < 4 && 0 <= doy < YearLength(100 * c + 4 * q + r)
    && doe == 36524 * c + 1461 * q + 365 * r + doy
  }

  lemma SplitDay(doe: int) returns (c: int, q: int, r: int, doy: int)
    requires 0 <= doe < 146097
    ensures Splits(doe, c, q, r, doy)
  {
    c := if doe == 146096 then 3 else doe / 36524;
    var x := doe - 36524 * c;
    q := x / 1461;
    var y := x - 1461 * q;
    r := if y == 1460 then 3 else y / 365;
    doy := y - 365 * r;
  }

  lemma SplitStart(c: int, q: int, r: int)
    requires 0 <= c < 4 && 0 <= q < 25 && 0 <= r < 4
    ensures YearStart(100 * c + 4 * q + r) == 36524 * c + 1461 * q + 365 * r
  {}

  /** The leap-day corrections of the closed form cancel within each cycle. */
  lemma SplitYear(doe: int, c: int, q: int, r: int, doy: int)
    requires Splits(doe, c, q, r, doy)
    ensures YearOfEra(doe) == 100 * c + 4 * q + r
  {
    hide LongYear;
    var g := (24 * c + q + 365 * r + doy) / 1460;
    SplitCycles(doe, c, q, r, doy);
    SplitCenturies(doe, c, q, r, doy);
    var n := doe - doe / 1460 + doe / 36524 - doe / 146096;
    assert n == 365 * (100 * c + 4 * q + r) + (doy - g);
    QuotientIs(n, 365, 100 * c + 4 * q + r, doy - g);
  }

  lemma SplitCycles(doe: int, c: int, q: int, r: int, doy: int)
    requires Splits(doe, c, q, r, doy)
    ensures var g := (24 * c + q + 365 * r + doy) / 1460;
            doe / 1460 == 25 * c + q + g && 0 <= doy - g < 365
  {
    var m := 24 * c + q + 365 * r + doy;
    var g := m / 1460;
    assert m == 1460 * g + m % 1460;
    assert 0 <= g <= 1;
    assert 0 <= doy - g < 365;
    hide LongYear;
    QuotientIs(doe, 1460, 25 * c + q + g, m % 1460);
  }

  lemma SplitCenturies(doe: int, c: int, q: int, r: int, doy: int)
    requires Splits(doe, c, q, r, doy)
    ensures doe / 36524 - doe / 146096 == c
  {
    var x := 1461 * q + 365 * r + doy;
    if x == 36524 {
      assert doe == 146096;
    } else {
      assert 0 <= x < 36524;
      hide LongYear;
      QuotientIs(doe, 36524, c, x);
      QuotientIs(doe, 146096, 0, doe);
    }
  }

  lemma DayOfPartsOfDay(z: int)
    ensures ValidParts(PartsOfDay(z))
    ensures DayOfParts(PartsOfDay(z)) == z
  {
    EraIsFloor(z + 719468);
    var doe := z + 719468 - EraOfDay(z + 719468) * 146097;
    hide YearOfEra, YearStart, EraOfDay;
    var c, q, r, doy := SplitDay(doe);
    SplitYear(doe, c, q, r, doy);
    SplitStart(c, q, r);
  }

  lemma SplitYearNumber(yoe: int) returns (c: int, q: int, r: int)
    requires 0 <= yoe < 400
    ensures 0 <= c < 4 && 0 <= q < 25 && 0 <= r < 4 && yoe == 100 * c + 4 * q + r
  {
    c := yoe / 100;
    q := (yoe - 100 * c) / 4;
    r := yoe - 100 * c - 4 * q;
  }

  lemma YearLengthBound(c: int, q: int, r: int)
    requires 0 <= c < 4 && 0 <= q < 25 && 0 <= r < 4
    ensures 36524 * c + 1461 * q + 365 * r + YearLength(100 * c + 4 * q + r) <= 146097
  {}

  lemma PartsOfDayOfParts(p: EraDay)
    requires ValidParts(p)
    ensures PartsOfDay(DayOfParts(p)) == p
  {
    hide YearOfEra, YearStart, YearLength, EraOfDay;
    var c, q, r := SplitYearNumber(p.yoe);
    SplitStart(c, q, r);
    YearLengthBound(c, q, r);
    var doe := YearStart(p.yoe) + p.doy;
    assert 0 <= doe < 146097;
    SplitYear(doe, c, q, r, p.doy);
    var z := DayOfParts(p) + 719468;
    EraIsFloor(z);
    QuotientIs(z, 146097, p.era, doe);
  }

  function NextParts(p: EraDay): EraDay {
    if p.doy + 1 < YearLength(p.yoe) then p.(doy := p.doy + 1)
    else if p.yoe < 399 then EraDay(p.era, p.yoe + 1, 0)
    else EraDay(p.era + 1, 0, 0)
  }

  lemma DayOfNextParts(p: EraDay)
    requires ValidParts(p)
    ensures ValidParts(NextParts(p))
    ensures DayOfParts(NextParts(p)) == DayOfParts(p) + 1
  {
    hide YearStart, LongYear;
    if p.yoe < 399 { NextYearStart(p.yoe); } else { LastYear(); }
  }

  lemma NextYearStart(yoe: int)
    requires 0 <= yoe < 399
    ensures YearStart(yoe + 1) == YearStart(yoe) + YearLength(yoe)
  {}

  lemma LastYear()
    ensures YearStart(399) + YearLength(399) == 146097 && YearStart(0) == 0
  {}

  // ---------------------------------------------------------------- months

  predicate MonthDay(m: int, d: int, long: bool) {
    1 <= m <= 12 && 1 <= d <= (if m == 2 then if long then 29 else 28 else DaysInMonth(0, m))
  }

  /** The five-thirds rule gives every month its own length. */
  lemma MonthOfDay(doy: int, long: bool)
    requires 0 <= doy < (if long then 366 else 365)
    ensures var mp := (5 * doy + 2) / 153; var d := doy - (153 * mp + 2) / 5 + 1;
            var m := if mp < 10 then mp + 3 else mp - 9;
            MonthDay(m, d, long) && DayOfYear(m, d) == doy
  {}

  lemma DayOfMonth(m: int, d: int, long: bool)
    requires MonthDay(m, d, long)
    ensures 0 <= DayOfYear(m, d) < (if long then 366 else 365)
    ensures var mp := (5 * DayOfYear(m, d) + 2) / 153;
            && m == (if mp < 10 then mp + 3 else mp - 9)
            && d == DayOfYear(m, d) - (153 * mp + 2) / 5 + 1
  {}

  lemma MonthEnds(y: int, m: int, d: int)
    requires 1 <= m <= 12 && 1 <= d <= DaysInMonth(y, m)
    ensures d < DaysInMonth(y, m) ==> DayOfYear(m, d + 1) == DayOfYear(m, d) + 1
    ensures d == DaysInMonth(y, m) && m != 2 && m != 12 ==> DayOfYear(m + 1, 1) == DayOfYear(m, d) + 1
    ensures d == DaysInMonth(y, m) && m == 12 ==> DayOfYear(1, 1) == DayOfYear(m, d) + 1
    ensures m == 2 ==> DayOfYear(m, d) == 336 + d
  {}

  /** A date is real exactly when its month and day fit its March-based year. */
  lemma ValidDateIsMonthDay(c: Date)
    ensures var y := MarchYear(c.y, c.m);
            ValidDate(c) <==> MonthDay(c.m, c.d, LongYear(y % 400))
  {
    var y := MarchYear(c.y, c.m);
    LeapIsLong(y / 400, y % 400);
  }

  lemma PartsOfCivilOfParts(p: EraDay)
    requires ValidParts(p)
    ensures ValidDate(CivilOfParts(p))
    ensures PartsOfCivil(CivilOfParts(p)) == p
  {
    var c := CivilOfParts(p);
    hide IsLeap, LongYear;
    MonthOfDay(p.doy, LongYear(p.yoe));
    var y := MarchYear(c.y, c.m);
    assert y == 400 * p.era + p.yoe;
    EraIsFloor(y);
    QuotientIs(y, 400, p.era, p.yoe);
    ValidDateIsMonthDay(c);
  }

  lemma CivilOfPartsOfCivil(c: Date)
    requires ValidDate(c)
    ensures ValidParts(PartsOfCivil(c))
    ensures CivilOfParts(PartsOfCivil(c)) == c
  {
    var y := MarchYear(c.y, c.m);
    EraIsFloor(y);
    ValidDateIsMonthDay(c);
    hide IsLeap, LongYear;
    DayOfMonth(c.m, c.d, LongYear(y % 400));
  }

  lemma PartsOfNextDay(c: Date)
    requires ValidDate(c)
    ensures PartsOfCivil(NextDay(c)) == NextParts(PartsOfCivil(c))
  {
    var y := MarchYear(c.y, c.m);
    CivilOfPartsOfCivil(c);
    MonthEnds(c.y, c.m, c.d);
    EraIsFloor(y);
    LeapIsLong(y / 400, y % 400);
    if c.m == 2 && c.d == DaysInMonth(c.y, 2) {
      EraIsFloor(y + 1);
    } else {
      assert MarchYear(NextDay(c).y, NextDay(c).m) == y;
    }
  }

  // ---------------------------------------------------------------- theorems

  /** Every day number names a real date, and that date's number is the day again. */
  lemma DaysInvertCivil(z: int)
    ensures ValidDate(CivilFromDays(z))
    ensures DaysFromCivil(CivilFromDays(z)) == z
  {
    hide PartsOfDay, DayOfParts, PartsOfCivil, CivilOfParts, ValidDate;
    DayOfPartsOfDay(z);
    PartsOfCivilOfParts(PartsOfDay(z));
  }

  /** Every real date survives conversion to a day number and back. */
  lemma CivilInvertsDays(c: Date)
    requires ValidDate(c)
    ensures CivilFromDays(DaysFromCivil(c)) == c
  {
    hide PartsOfDay, DayOfParts, PartsOfCivil, CivilOfParts, ValidDate;
    CivilOfPartsOfCivil(c);
    PartsOfDayOfParts(PartsOfCivil(c));
  }

  /** Stepping the calendar one day adds one to the day number. */
  lemma DaysOfNextDay(c: Date)
    requires ValidDate(c)
    ensures ValidDate(NextDay(c))
    ensures DaysFromCivil(NextDay(c)) == DaysFromCivil(c) + 1
  {
    assert ValidDate(NextDay(c));
    hide PartsOfDay, DayOfParts, PartsOfCivil, CivilOfParts, ValidDate, NextDay, NextParts;
    CivilOfPartsOfCivil(c);
    PartsOfNextDay(c);
    DayOfNextParts(PartsOfCivil(c));
  }

  /** The closed form walks the naive calendar: day z+1 is the date after day z. */
  lemma CivilSuccessor(z: int)
    ensures CivilFromDays(z + 1) == NextDay(CivilFromDays(z))
  {
    hide CivilFromDays, DaysFromCivil, ValidDate, NextDay;
    DaysInvertCivil(z);
    DaysOfNextDay(CivilFromDays(z));
    CivilInvertsDays(NextDay(CivilFromDays(z)));
  }

  /** Day zero is the Unix epoch; with `CivilSuccessor` this fixes every later date. */
  lemma CivilEpoch()
    ensures CivilFromDays(0) == Date(1970, 1, 1)
  {}

  /** From the epoch on, the closed form computes what stepping day by day computes. */
  lemma {:induction false} CivilRefinesNaive(n: nat)
    ensures CivilFromDays(n) == DaysAfterEpoch(n)
  {
    hide CivilFromDays, NextDay;
    if n == 0 {
      CivilEpoch();
    } else {
      CivilRefinesNaive(n - 1);
      CivilSuccessor(n - 1);
    }
  }

  lemma NextDayIsLater(c: Date)
    ensures Before(c, NextDay(c))
  {}

  lemma {:induction false} LaterDayIsLaterDate(a: int, b: int)
    requires a < b
    ensures Before(CivilFromDays(a), CivilFromDays(b))
    decreases b - a
  {
    hide CivilFromDays, NextDay;
    CivilSuccessor(b - 1);
    NextDayIsLater(CivilFromDays(b - 1));
    if a < b - 1 {
      LaterDayIsLaterDate(a, b - 1);
    }
  }

  /** Day numbers order dates as year, month, day do, in both directions. */
  lemma DaysOrderDates(a: Date, b: Date)
    requires ValidDate(a) && ValidDate(b)
    ensures DaysFromCivil(a) < DaysFromCivil(b) <==> Before(a, b)
  {
    hide CivilFromDays, DaysFromCivil, ValidDate;
    CivilInvertsDays(a);
    CivilInvertsDays(b);
    if DaysFromCivil(a) < DaysFromCivil(b) {
      LaterDayIsLaterDate(DaysFromCivil(a), DaysFromCivil(b));
    } else if DaysFromCivil(b) < DaysFromCivil(a) {
      LaterDayIsLaterDate(DaysFromCivil(b), DaysFromCivil(a));
    }
  }

  lemma DaysAreLinearInDay(y: int, m: int, d: int, k: int)
    ensures DaysFromCivil(Date(y, m, d + k)) == DaysFromCivil(Date(y, m, d)) + k
  {
    hide EraOfYear, YearStart;
  }

  /** The text parsers accept day 31 in every month; the surplus days of a short month
      are the first days of the next. */
  lemma SurplusDays(c: Date)
    requires 1 <= c.m <= 12 && DaysInMonth(c.y, c.m) < c.d <= 31
    ensures CivilFromDays(DaysFromCivil(c)) == Date(c.y, c.m + 1, c.d - DaysInMonth(c.y, c.m))
  {
    var last := DaysInMonth(c.y, c.m);
    var next := Date(c.y, c.m + 1, c.d - last);
    hide DaysFromCivil, CivilFromDays, IsLeap;
    DaysAreLinearInDay(c.y, c.m, last, c.d - last);
    DaysAreLinearInDay(c.y, c.m + 1, 1, c.d - last - 1);
    DaysOfNextDay(Date(c.y, c.m, last));
    CivilInvertsDays(next);
  }

  /** A month and a day up to 31 name a day of that year, and that very date only if real. */
  lemma NamedDay(c: Date)
    requires 1 <= c.m <= 12 && 1 <= c.d <= 31
    ensures CivilFromDays(DaysFromCivil(c)).y == c.y
    ensures CivilFromDays(DaysFromCivil(c)) == c <==> ValidDate(c)
  {
    hide DaysFromCivil, CivilFromDays, IsLeap;
    if ValidDate(c) { CivilInvertsDays(c); } else { SurplusDays(c); }
  }

  /** Every signed intermediate of both conversions around day `z` is a C int. */
  predicate IntermediatesFit(z: int) {
    var n := z + 719468;
    var c := CivilFromDays(z);
    var y := MarchYear(c.y, c.m);
    && IsInt32(n) && IsInt32(if n >= 0 then n else n - 146096) && IsInt32(EraOfDay(n) * 146097)
    && IsInt32(c.y) && IsInt32(y) && IsInt32(if y >= 0 then y else y - 399)
    && IsInt32(EraOfYear(y) * 400) && IsInt32(EraOfYear(y) * 146097) && IsInt32(DaysFromCivil(c) + 719468)
  }

  lemma MarchYearOfDay(z: int)
    ensures var c := CivilFromDays(z); var y := MarchYear(c.y, c.m); var era := (z + 719468) / 146097;
            EraOfDay(z + 719468) == era && EraOfYear(y) == era && 0 <= y - 400 * era < 400 && c.y - 1 <= y <= c.y
  {
    DayOfPartsOfDay(z);
    EraIsFloor(z + 719468);
    hide YearOfEra, YearStart, YearLength, EraOfDay, EraOfYear;
    var c, p := CivilFromDays(z), PartsOfDay(z);
    var y := MarchYear(c.y, c.m);
    assert y == p.yoe + p.era * 400;
    EraIsFloor(y);
    QuotientIs(y, 400, p.era, p.yoe);
  }

  /** Both conversions stay within C's 32-bit int exactly when z + 719468 does. */
  lemma ConversionsFitInt32(z: int)
    requires IsInt32(z)
    ensures IntermediatesFit(z) <==> IsInt32(z + 719468)
  {
    hide CivilFromDays, DaysFromCivil, EraOfDay, EraOfYear, MarchYear;
    DaysInvertCivil(z);
    MarchYearOfDay(z);
  }
}
