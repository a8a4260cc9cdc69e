/** The expression engine's DATEADD and DATEDIFF. */
module DateArith {
  import opened CInt
  import opened Text
  import opened Calendar
  import opened IsoText
  import IsoTheorems

  datatype Part = Year | Quarter | Month | DayOfYearPart | Day | Week | Weekday | Hour | Minute | Second

  datatype Temporal = DateValue(days: int) | TsValue(us: int)

  predicate ValidTemporal(x: Temporal) {
    match x
    case DateValue(days) => IsInt32(days)
    case TsValue(us) => IsInt64(us)
  }

  function DaysOf(x: Temporal): int {
    match x
    case DateValue(days) => days
    case TsValue(us) => SplitTs(us).0
  }

  function TimeOf(x: Temporal): int {
    match x
    case DateValue(_) => 0
    case TsValue(us) => SplitTs(us).1
  }

  predicate SubDay(part: Part) { part.Hour? || part.Minute? || part.Second? }

  function UnitMicros(part: Part): int
    requires SubDay(part)
  {
    match part
    case Hour => HOUR_US
    case Minute => MINUTE_US
    case Second => SECOND_US
  }

  /** Months per unit; every part that is neither days nor a time counts as months. */
  function UnitMonths(part: Part): int {
    match part
    case Year => 12
    case Quarter => 3
    case _ => 1
  }

  /** The year and zero-based month `months` after that of `c`, as C computes them. */
  function ShiftMonths(c: Date, months: int): (r: (int, int))
    ensures 0 <= r.1 < 12
  {
    var total := Wrap64(c.y * 12 + (c.m - 1) + months);
    var quotient := Wrap32(Div(total, 12));
    (if total < 0 && Mod(total, 12) != 0 then Wrap32(quotient - 1) else quotient, Mod(Mod(total, 12) + 12, 12))
  }

  function AddMonths(days: int, months: int): int {
    var c := CivilFromDays(days);
    var (ny, nm0) := ShiftMonths(c, months);
    Wrap32(DaysFromCivil(Date(ny, nm0 + 1, Min(c.d, DaysInMonth(ny, nm0 + 1)))))
  }

  function AddDays(part: Part, n: int, days: int): int {
    match part
    case Day => Wrap32(days + n)
    case DayOfYearPart => Wrap32(days + n)
    case Week => Wrap32(Wrap64(days + Wrap64(n * 7)))
    case _ => AddMonths(days, Wrap64(n * UnitMonths(part)))
  }

  function DateAdd(part: Part, n: int, x: Temporal): Option<Temporal> {
    if SubDay(part) then
      if x.DateValue? then None
      else Some(TsValue(Wrap64(DaysOf(x) * DAY_US + TimeOf(x) + Wrap64(n * UnitMicros(part)))))
    else
      var days := AddDays(part, n, DaysOf(x));
      Some(if x.DateValue? then DateValue(days) else TsValue(Wrap64(days * DAY_US + TimeOf(x))))
  }

  function MonthsBetween(a: Date, b: Date): int { (b.y - a.y) * 12 + (b.m - a.m) }

  function DateDiff(part: Part, x: Temporal, y: Temporal): Option<int> {
    match part
    case Weekday => None
    case Day => Some(DaysOf(y) - DaysOf(x))
    case DayOfYearPart => Some(DaysOf(y) - DaysOf(x))
    case Week => Some(Div(DaysOf(y) - DaysOf(x), 7))
    case Year => Some(Div(MonthsBetween(CivilFromDays(DaysOf(x)), CivilFromDays(DaysOf(y))), 12))
    case Quarter => Some(Div(MonthsBetween(CivilFromDays(DaysOf(x)), CivilFromDays(DaysOf(y))), 3))
    case Month => Some(MonthsBetween(CivilFromDays(DaysOf(x)), CivilFromDays(DaysOf(y))))
    case _ => Some(Div(Wrap64(DaysOf(y) * DAY_US + TimeOf(y) - (DaysOf(x) * DAY_US + TimeOf(x))), UnitMicros(part)))
  }

  // ---------------------------------------------------------------- month arithmetic, exactly

  /** The month `months` after that of `c`, with the day cut to that month's length. */
  function Shifted(c: Date, months: int): Date {
    var total := c.y * 12 + (c.m - 1) + months;
    var ny, nm := total / 12, total % 12 + 1;
    Date(ny, nm, Min(c.d, DaysInMonth(ny, nm)))
  }

  lemma ShiftedIsReal(c: Date, months: int)
    requires ValidDate(c)
    ensures ValidDate(Shifted(c, months))
    ensures MonthsBetween(c, Shifted(c, months)) == months
  {
    var total := c.y * 12 + (c.m - 1) + months;
    assert total == 12 * (total / 12) + total % 12;
    hide IsLeap;
  }

  /** Truncating division with C's corrections is the floor. */
  lemma ShiftMonthsIsFloor(c: Date, months: int)
    requires IsInt32(c.y) && 1 <= c.m <= 12
    requires IsInt64(months) && IsInt64(c.y * 12 + (c.m - 1) + months)
    requires -0x7fff_ffff <= (c.y * 12 + (c.m - 1) + months) / 12 < 0x8000_0000
    ensures var total := c.y * 12 + (c.m - 1) + months; ShiftMonths(c, months) == (total / 12, total % 12)
  {
    var total := c.y * 12 + (c.m - 1) + months;
    assert Div(total, 12) == if total >= 0 || total % 12 == 0 then total / 12 else total / 12 + 1;
  }

  predicate FitsCalendar(days: int) { IsInt32(days) && IsInt32(days + 719468) }

  function ExactDays(part: Part, n: int, days: int): int {
    match part
    case Day => days + n
    case DayOfYearPart => days + n
    case Week => days + 7 * n
    case _ => DaysFromCivil(Shifted(CivilFromDays(days), n * UnitMonths(part)))
  }

  /** `x` and the exact result are representable; nothing else is asked of `n`. */
  predicate InRange(part: Part, n: int, x: Temporal) {
    && ValidTemporal(x) && FitsCalendar(DaysOf(x)) && IsInt64(n)
    && if SubDay(part) then x.TsValue? && IsInt64(n * UnitMicros(part)) && IsInt64(x.us + n * UnitMicros(part))
       else
         var days := ExactDays(part, n, DaysOf(x));
         FitsCalendar(days) && (x.TsValue? ==> IsInt64(days * DAY_US + TimeOf(x)))
  }

  lemma CalendarYearFits(days: int)
    requires FitsCalendar(days)
    ensures ValidDate(CivilFromDays(days))
    ensures -0x4000_0000 <= CivilFromDays(days).y < 0x4000_0000
  {
    hide CivilFromDays, DaysFromCivil, EraOfDay;
    DaysInvertCivil(days);
    MarchYearOfDay(days);
  }

  /** Within range the wrapping arithmetic is exact. */
  lemma AddMonthsExact(days: int, months: int)
    requires FitsCalendar(days) && FitsCalendar(DaysFromCivil(Shifted(CivilFromDays(days), months)))
    ensures IsInt64(months)
    ensures AddMonths(days, months) == DaysFromCivil(Shifted(CivilFromDays(days), months))
  {
    var c := CivilFromDays(days);
    var s := Shifted(c, months);
    hide CivilFromDays, DaysFromCivil, ShiftMonths, IsLeap;
    CalendarYearFits(days);
    ShiftedIsReal(c, months);
    CivilInvertsDays(s);
    CalendarYearFits(DaysFromCivil(s));
    ShiftMonthsIsFloor(c, months);
  }

  lemma AddDaysExact(part: Part, n: int, days: int)
    requires !SubDay(part) && IsInt64(n) && FitsCalendar(days) && FitsCalendar(ExactDays(part, n, days))
    ensures AddDays(part, n, days) == ExactDays(part, n, days)
  {
    hide CivilFromDays, DaysFromCivil, Shifted, AddMonths;
    if part.Year? || part.Quarter? || part.Month? || part.Weekday? {
      AddMonthsExact(days, n * UnitMonths(part));
    }
  }

  /** Adding day-sized or larger units moves the day and keeps the kind of value and the time of day. */
  lemma DateAddMovesDays(part: Part, n: int, x: Temporal)
    requires !SubDay(part) && InRange(part, n, x)
    ensures var r := DateAdd(part, n, x);
            && r.Some? && (r.value.DateValue? <==> x.DateValue?)
            && DaysOf(r.value) == ExactDays(part, n, DaysOf(x)) && TimeOf(r.value) == TimeOf(x)
  {
    hide AddDays, ExactDays, SplitTs;
    AddDaysExact(part, n, DaysOf(x));
    if x.TsValue? {
      var days := ExactDays(part, n, DaysOf(x));
      IsoTheorems.SplitUnique(days * DAY_US + TimeOf(x), days, TimeOf(x));
    }
  }

  /** Year, quarter and month shifts land in the month that many months away, on the same
      day or on that month's last day when it is shorter. */
  lemma DateAddClampsDay(part: Part, n: int, x: Temporal)
    requires part.Year? || part.Quarter? || part.Month?
    requires InRange(part, n, x)
    ensures var c := CivilFromDays(DaysOf(x)); var r := DateAdd(part, n, x);
            && r.Some?
            && var e := CivilFromDays(DaysOf(r.value));
            && MonthsBetween(c, e) == n * UnitMonths(part)
            && e.d == Min(c.d, DaysInMonth(e.y, e.m))
  {
    hide DateAdd, CivilFromDays, DaysFromCivil, DaysOf, Shifted, MonthsBetween, ValidDate;
    DateAddMovesDays(part, n, x);
    var c := CivilFromDays(DaysOf(x));
    DaysInvertCivil(DaysOf(x));
    ShiftedIsReal(c, n * UnitMonths(part));
    CivilInvertsDays(Shifted(c, n * UnitMonths(part)));
    ShiftedDay(c, n * UnitMonths(part));
  }

  lemma ShiftedDay(c: Date, months: int)
    ensures var e := Shifted(c, months); e.d == Min(c.d, DaysInMonth(e.y, e.m))
  {}

  lemma DivExact(n: int, k: int)
    requires k > 0
    ensures Div(n * k, k) == n
  {
    if n >= 0 {
      assert n * k >= 0;
      QuotientIs(n * k, k, n, 0);
    } else {
      assert n * k < 0 && -(n * k) == (-n) * k;
      QuotientIs(-(n * k), k, -n, 0);
    }
  }

  /** DATEDIFF counts exactly the units DATEADD added, for every part but the weekday and
      any signed count whose result is representable. */
  lemma DateDiffUndoesDateAdd(part: Part, n: int, x: Temporal)
    requires !part.Weekday? && InRange(part, n, x)
    ensures DateAdd(part, n, x).Some?
    ensures DateDiff(part, x, DateAdd(part, n, x).value) == Some(n)
  {
    hide CivilFromDays, DaysFromCivil, Shifted, SplitTs, MonthsBetween;
    if SubDay(part) {
      assert DaysOf(x) * DAY_US + TimeOf(x) == x.us;
      DivExact(n, UnitMicros(part));
    } else {
      DateAddMovesDays(part, n, x);
      if part.Year? || part.Quarter? || part.Month? {
        DateAddClampsDay(part, n, x);
        hide DateAdd, InRange;
        DivExact(n, UnitMonths(part));
      } else {
        hide DateAdd, InRange;
        DivExact(n, 7);
      }
    }
  }

  /** The weekday part is not the exception it should be: DATEADD shifts whole months for
      it while DATEDIFF refuses it. */
  lemma WeekdayAddsMonths(n: int, x: Temporal, y: Temporal)
    ensures DateAdd(Weekday, n, x) == DateAdd(Month, n, x)
    ensures DateDiff(Weekday, x, y) == None
  {
    hide AddMonths, CivilFromDays;
  }

  /** Shifting by the month difference reaches the other value's month. */
  lemma DateAddReachesMonth(x: Temporal, y: Temporal)
    requires InRange(Month, DateDiff(Month, x, y).value, x) && ValidTemporal(y)
    ensures var r := DateAdd(Month, DateDiff(Month, x, y).value, x);
            && r.Some?
            && CivilFromDays(DaysOf(r.value)).y == CivilFromDays(DaysOf(y)).y
            && CivilFromDays(DaysOf(r.value)).m == CivilFromDays(DaysOf(y)).m
  {
    var n := DateDiff(Month, x, y).value;
    hide DateAdd, InRange, CivilFromDays, DaysFromCivil, DaysOf, ValidDate;
    DateAddClampsDay(Month, n, x);
    DaysInvertCivil(DaysOf(y));
    DaysInvertCivil(DaysOf(DateAdd(Month, n, x).value));
    SameMonths(CivilFromDays(DaysOf(x)), CivilFromDays(DaysOf(y)), CivilFromDays(DaysOf(DateAdd(Month, n, x).value)));
  }

  lemma SameMonths(x: Date, y: Date, z: Date)
    requires ValidDate(y) && ValidDate(z) && MonthsBetween(x, y) == MonthsBetween(x, z)
    ensures y.y == z.y && y.m == z.m
  {}

  lemma ShiftsCompose(c: Date, a: int, b: int)
    requires ValidDate(c)
    ensures Shifted(Shifted(c, a), b) == Shifted(c, a + b)
       <==> Shifted(c, a + b).d <= DaysInMonth(Shifted(c, a).y, Shifted(c, a).m)
  {
    var total := c.y * 12 + (c.m - 1) + a;
    assert total == 12 * (total / 12) + total % 12;
    assert total / 12 * 12 + (total % 12 + 1 - 1) + b == total + b;
    hide IsLeap;
  }

  lemma SameTemporal(x: Temporal, y: Temporal)
    requires (x.DateValue? <==> y.DateValue?) && DaysOf(x) == DaysOf(y) && TimeOf(x) == TimeOf(y)
    ensures x == y
  {}

  predicate Lands(part: Part, n: int, x: Temporal, r: Temporal) {
    && (r.DateValue? <==> x.DateValue?) && TimeOf(r) == TimeOf(x)
    && CivilFromDays(DaysOf(r)) == Shifted(CivilFromDays(DaysOf(x)), n * UnitMonths(part))
  }

  lemma MonthShiftLands(part: Part, n: int, x: Temporal)
    requires part.Year? || part.Quarter? || part.Month?
    requires InRange(part, n, x)
    ensures DateAdd(part, n, x).Some? && Lands(part, n, x, DateAdd(part, n, x).value)
  {
    var c := CivilFromDays(DaysOf(x));
    DaysInvertCivil(DaysOf(x));
    DateAddMovesDays(part, n, x);
    ShiftedIsReal(c, n * UnitMonths(part));
    CivilInvertsDays(Shifted(c, n * UnitMonths(part)));
    hide DateAdd, Shifted, InRange, CivilFromDays, DaysFromCivil;
  }

  /** Values of one kind and time of day are the same exactly when their dates are. */
  lemma SameCivil(x: Temporal, y: Temporal)
    requires (x.DateValue? <==> y.DateValue?) && TimeOf(x) == TimeOf(y)
    ensures x == y <==> CivilFromDays(DaysOf(x)) == CivilFromDays(DaysOf(y))
  {
    DaysInvertCivil(DaysOf(x));
    DaysInvertCivil(DaysOf(y));
    hide CivilFromDays, DaysFromCivil;
    if DaysOf(x) == DaysOf(y) { SameTemporal(x, y); }
  }

  lemma Distributes(a: int, b: int, k: int)
    ensures (a + b) * k == a * k + b * k
  {}

  /** Two year, quarter or month shifts of a date or timestamp equal their sum exactly when the
      month passed through does not cut the day below where the single shift puts it. */
  lemma MonthShiftsCompose(part: Part, a: int, b: int, x: Temporal)
    requires part.Year? || part.Quarter? || part.Month?
    requires InRange(part, a, x) && InRange(part, a + b, x)
    ensures DateAdd(part, a, x).Some? && DateAdd(part, a + b, x).Some?
    ensures InRange(part, b, DateAdd(part, a, x).value) ==>
              var mid, end := CivilFromDays(DaysOf(DateAdd(part, a, x).value)), CivilFromDays(DaysOf(DateAdd(part, a + b, x).value));
              DateAdd(part, b, DateAdd(part, a, x).value) == DateAdd(part, a + b, x) <==> end.d <= DaysInMonth(mid.y, mid.m)
  {
    hide *;
    MonthShiftLands(part, a, x);
    MonthShiftLands(part, a + b, x);
    var y, z := DateAdd(part, a, x).value, DateAdd(part, a + b, x).value;
    if InRange(part, b, y) {
      MonthShiftLands(part, b, y);
      LandTogether(part, a, b, x, y, z, DateAdd(part, b, y).value);
    }
  }

  lemma LandTogether(part: Part, a: int, b: int, x: Temporal, y: Temporal, z: Temporal, w: Temporal)
    requires Lands(part, a, x, y) && Lands(part, a + b, x, z) && Lands(part, b, y, w)
    ensures var mid, end := CivilFromDays(DaysOf(y)), CivilFromDays(DaysOf(z));
            w == z <==> end.d <= DaysInMonth(mid.y, mid.m)
  {
    hide *;
    var c, k := CivilFromDays(DaysOf(x)), UnitMonths(part);
    LandsParts(part, a, x, y);
    LandsParts(part, a + b, x, z);
    LandsParts(part, b, y, w);
    Distributes(a, b, k);
    DaysInvertCivil(DaysOf(x));
    ShiftsTogether(c, a * k, b * k, CivilFromDays(DaysOf(y)), CivilFromDays(DaysOf(z)), CivilFromDays(DaysOf(w)));
    SameCivil(w, z);
  }

  lemma LandsParts(part: Part, n: int, x: Temporal, r: Temporal)
    requires Lands(part, n, x, r)
    ensures (r.DateValue? <==> x.DateValue?) && TimeOf(r) == TimeOf(x)
    ensures CivilFromDays(DaysOf(r)) == Shifted(CivilFromDays(DaysOf(x)), n * UnitMonths(part))
  {}

  lemma ShiftsTogether(c: Date, p: int, q: int, mid: Date, end: Date, last: Date)
    requires ValidDate(c) && mid == Shifted(c, p) && end == Shifted(c, p + q) && last == Shifted(mid, q)
    ensures last == end <==> end.d <= DaysInMonth(mid.y, mid.m)
  {
    hide *;
    ShiftsCompose(c, p, q);
  }
}
