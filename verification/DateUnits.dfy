/**
 DATEADD and DATEDIFF in literal units: microseconds for the parts below a day, days, weeks
 and months above, for any two values and with the rounding of differences that are no whole
 number of units.
 */
module DateUnits {
  import opened CInt
  import opened Text
  import opened Calendar
  import opened IsoText
  import opened DateArith
  import IsoTheorems
  import IntegerLaws
  import DecimalArith

  /** Microseconds since 1970; a date stands for its midnight. */
  function Instant(x: Temporal): int {
    match x case DateValue(days) => days * 86_400_000_000 case TsValue(us) => us
  }

  /** `r` is the 64-bit integer that differs from `x` by a multiple of 2^64. */
  predicate WrapsTo(r: int, x: int) { IsInt64(r) && (r - x) % TWO_64 == 0 }

  lemma WrapWraps(x: int)
    ensures WrapsTo(Wrap64(x), x) && (IsInt64(x) ==> Wrap64(x) == x)
  {
    var k := IntegerLaws.WrapDiffers(x);
    IntegerLaws.ModIs(TWO_64 * k, TWO_64, k, 0);
    hide Wrap64;
  }

  /** How many whole units of `unit` are in `x`, rounded toward zero. */
  predicate Truncates(x: int, unit: int, q: int) {
    && Abs(x - q * unit) < unit
    && (x >= 0 ==> 0 <= q && q * unit <= x) && (x <= 0 ==> q <= 0 && x <= q * unit)
  }

  lemma DivTruncates(x: int, unit: int)
    requires unit > 0
    ensures Truncates(x, unit, Div(x, unit))
  {
    DecimalArith.TruncatedParts(x, unit);
    hide Div;
  }

  lemma PartsOfInstant(x: Temporal)
    ensures DaysOf(x) * DAY_US + TimeOf(x) == Instant(x) && 0 <= TimeOf(x) < 86_400_000_000
  {
    hide SplitTs;
  }

  /** The day of a value is the one its instant lies in. */
  lemma DayOfInstant(x: Temporal, day: int)
    ensures DaysOf(x) == day <==> day * 86_400_000_000 <= Instant(x) < (day + 1) * 86_400_000_000
  {
    PartsOfInstant(x);
    hide Instant, DaysOf, TimeOf;
    var d := DaysOf(x);
    if day < d { assert (day + 1) * 86_400_000_000 <= d * 86_400_000_000; }
    if day > d { assert day * 86_400_000_000 >= (d + 1) * 86_400_000_000; }
  }

  // ---------------------------------------------------------------- adding

  lemma UnitsInMicros()
    ensures UnitMicros(Hour) == 3_600_000_000 && UnitMicros(Minute) == 60_000_000 && UnitMicros(Second) == 1_000_000
  {}

  lemma SubDayAdds(part: Part, n: int, us: int)
    requires SubDay(part)
    ensures DateAdd(part, n, TsValue(us)) == Some(TsValue(Wrap64(us + Wrap64(n * UnitMicros(part)))))
  {
    PartsOfInstant(TsValue(us));
    hide Wrap64, UnitMicros, SplitTs, DaysOf, TimeOf;
  }

  lemma AddedMicros(us: int, delta: int)
    ensures WrapsTo(Wrap64(us + Wrap64(delta)), us + delta)
    ensures IsInt64(us + delta) ==> Wrap64(us + Wrap64(delta)) == us + delta
  {
    IntegerLaws.WrapInSum(delta, us);
    WrapWraps(us + delta);
    hide Wrap64;
  }

  /** Adding hours, minutes or seconds to a timestamp adds that many microseconds, modulo 2^64
      past the range of a timestamp; a date has no room for them. */
  lemma HoursAreMicros(n: int, us: int, days: int)
    ensures exists r: int ::
              && DateAdd(Hour, n, TsValue(us)) == Some(TsValue(r)) && WrapsTo(r, us + n * 3_600_000_000)
              && (IsInt64(us + n * 3_600_000_000) ==> r == us + n * 3_600_000_000)
    ensures exists r: int ::
              && DateAdd(Minute, n, TsValue(us)) == Some(TsValue(r)) && WrapsTo(r, us + n * 60_000_000)
              && (IsInt64(us + n * 60_000_000) ==> r == us + n * 60_000_000)
    ensures exists r: int ::
              && DateAdd(Second, n, TsValue(us)) == Some(TsValue(r)) && WrapsTo(r, us + n * 1_000_000)
              && (IsInt64(us + n * 1_000_000) ==> r == us + n * 1_000_000)
    ensures DateAdd(Hour, n, DateValue(days)) == None == DateAdd(Minute, n, DateValue(days))
    ensures DateAdd(Second, n, DateValue(days)) == None
  {
    hide *;
    BelowADay(n, days);
    UnitsInMicros();
    SubDayAdds(Hour, n, us);
    SubDayAdds(Minute, n, us);
    SubDayAdds(Second, n, us);
    AddedMicros(us, n * 3_600_000_000);
    AddedMicros(us, n * 60_000_000);
    AddedMicros(us, n * 1_000_000);
  }

  lemma BelowADay(n: int, days: int)
    ensures SubDay(Hour) && SubDay(Minute) && SubDay(Second)
    ensures DateAdd(Hour, n, DateValue(days)) == None == DateAdd(Minute, n, DateValue(days))
    ensures DateAdd(Second, n, DateValue(days)) == None
  {}

  /** The date `months` months after `c`, on its day or the last one of a shorter month. */
  predicate MonthsLater(c: Date, months: int, r: Date) {
    (r.y - c.y) * 12 + (r.m - c.m) == months && 1 <= r.m <= 12 && r.d == Min(c.d, DaysInMonth(r.y, r.m))
  }

  /** Days, weeks, months, quarters and years in days and months; the kind of value and the
      time of day stay. */
  lemma LongerPartsMove(part: Part, n: int, x: Temporal)
    requires !SubDay(part) && InRange(part, n, x)
    ensures DateAdd(part, n, x).Some?
    ensures var r := DateAdd(part, n, x).value; var c, e := CivilFromDays(DaysOf(x)), CivilFromDays(DaysOf(r));
            && (r.DateValue? <==> x.DateValue?) && TimeOf(r) == TimeOf(x)
            && match part {
                 case Day => DaysOf(r) == DaysOf(x) + n
                 case DayOfYearPart => DaysOf(r) == DaysOf(x) + n
                 case Week => DaysOf(r) == DaysOf(x) + 7 * n
                 case Year => MonthsLater(c, 12 * n, e)
                 case Quarter => MonthsLater(c, 3 * n, e)
                 case _ => MonthsLater(c, n, e)
               }
  {
    hide *;
    DateAddMovesDays(part, n, x);
    if part.Day? || part.DayOfYearPart? || part.Week? {
      DaysMoved(part, n, DaysOf(x));
    } else {
      ByMonths(part, n, x);
    }
  }

  lemma DaysMoved(part: Part, n: int, days: int)
    ensures part.Day? || part.DayOfYearPart? ==> ExactDays(part, n, days) == days + n
    ensures part.Week? ==> ExactDays(part, n, days) == days + 7 * n
  {
    hide CivilFromDays, DaysFromCivil, Shifted;
  }

  lemma ByMonths(part: Part, n: int, x: Temporal)
    requires !SubDay(part) && !part.Day? && !part.DayOfYearPart? && !part.Week? && InRange(part, n, x)
    requires DateAdd(part, n, x).Some? && DaysOf(DateAdd(part, n, x).value) == ExactDays(part, n, DaysOf(x))
    ensures var c, e := CivilFromDays(DaysOf(x)), CivilFromDays(DaysOf(DateAdd(part, n, x).value));
            MonthsLater(c, if part.Year? then 12 * n else if part.Quarter? then 3 * n else n, e)
  {
    var c := CivilFromDays(DaysOf(x));
    var k := n * UnitMonths(part);
    hide DateAdd, CivilFromDays, DaysFromCivil, DaysOf, Shifted, MonthsBetween, ValidDate, InRange, DaysInMonth;
    DaysInvertCivil(DaysOf(x));
    ShiftedIsReal(c, k);
    CivilInvertsDays(Shifted(c, k));
    ShiftedDay(c, k);
    RealMonth(Shifted(c, k));
    Between(c, Shifted(c, k));
  }

  lemma RealMonth(c: Date)
    requires ValidDate(c)
    ensures 1 <= c.m <= 12
  {}

  lemma Between(a: Date, b: Date)
    ensures MonthsBetween(a, b) == (b.y - a.y) * 12 + (b.m - a.m)
  {}

  // ---------------------------------------------------------------- taking the difference

  /** DATEDIFF below a day is the time elapsed between any two values in whole units, rounded
      toward zero; past 64 bits the elapsed time wraps first. */
  lemma ElapsedUnits(x: Temporal, y: Temporal)
    ensures exists e: int ::
              && WrapsTo(e, Instant(y) - Instant(x))
              && (IsInt64(Instant(y) - Instant(x)) ==> e == Instant(y) - Instant(x))
              && Counts(DateDiff(Hour, x, y), e, 3_600_000_000)
              && Counts(DateDiff(Minute, x, y), e, 60_000_000)
              && Counts(DateDiff(Second, x, y), e, 1_000_000)
  {
    hide *;
    var e := Wrap64(Instant(y) - Instant(x));
    WrapWraps(Instant(y) - Instant(x));
    SubDayDiffs(x, y);
    CountsBy(DateDiff(Hour, x, y), e, 3_600_000_000);
    CountsBy(DateDiff(Minute, x, y), e, 60_000_000);
    CountsBy(DateDiff(Second, x, y), e, 1_000_000);
  }

  predicate Counts(r: Option<int>, x: int, unit: int) { r.Some? && Truncates(x, unit, r.value) }

  lemma CountsBy(r: Option<int>, x: int, unit: int)
    requires unit > 0 && r == Some(Div(x, unit))
    ensures Counts(r, x, unit)
  {
    DivTruncates(x, unit);
    hide Div, Truncates;
  }

  lemma SubDayDiffs(x: Temporal, y: Temporal)
    ensures var e := Wrap64(Instant(y) - Instant(x));
            && DateDiff(Hour, x, y) == Some(Div(e, 3_600_000_000))
            && DateDiff(Minute, x, y) == Some(Div(e, 60_000_000))
            && DateDiff(Second, x, y) == Some(Div(e, 1_000_000))
  {
    PartsOfInstant(x);
    PartsOfInstant(y);
    hide Div, Wrap64, DaysOf, TimeOf, Instant, SplitTs;
  }

  /** From a day up, differences are of days or of calendar months, whatever the time of day:
      weeks, quarters and years in whole units rounded toward zero. */
  lemma LongerPartsDiffer(x: Temporal, y: Temporal)
    ensures DateDiff(Day, x, y) == Some(DaysOf(y) - DaysOf(x)) == DateDiff(DayOfYearPart, x, y)
    ensures Counts(DateDiff(Week, x, y), DaysOf(y) - DaysOf(x), 7)
    ensures var a, b := CivilFromDays(DaysOf(x)), CivilFromDays(DaysOf(y));
            var months := (b.y - a.y) * 12 + (b.m - a.m);
            && DateDiff(Month, x, y) == Some(months)
            && Counts(DateDiff(Quarter, x, y), months, 3) && Counts(DateDiff(Year, x, y), months, 12)
  {
    var a, b := CivilFromDays(DaysOf(x)), CivilFromDays(DaysOf(y));
    hide Div, DaysOf, CivilFromDays, Counts;
    CountsBy(DateDiff(Week, x, y), DaysOf(y) - DaysOf(x), 7);
    CountsBy(DateDiff(Quarter, x, y), (b.y - a.y) * 12 + (b.m - a.m), 3);
    CountsBy(DateDiff(Year, x, y), (b.y - a.y) * 12 + (b.m - a.m), 12);
  }
}
