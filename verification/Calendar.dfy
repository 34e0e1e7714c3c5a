/** Dates, and the windows quotas are counted in: the first half of app/services/quota.py. */
module Calendar {
  import opened Models

  datatype Date = Date(year: int, month: int, day: int)

  predicate Leap(year: int) {
    year % 4 == 0 && (year % 100 != 0 || year % 400 == 0)
  }

  function DaysIn(year: int, month: int): int {
    if month == 2 then (if Leap(year) then 29 else 28)
    else if month == 4 || month == 6 || month == 9 || month == 11 then 30
    else 31
  }

  predicate Valid(d: Date) {
    1 <= d.year && 1 <= d.month <= 12 && 1 <= d.day <= DaysIn(d.year, d.month)
  }

  function FirstOfNextMonth(year: int, month: int): Date {
    if month == 12 then Date(year + 1, 1, 1) else Date(year, month + 1, 1)
  }

  function NextDay(d: Date): Date {
    if d.day < DaysIn(d.year, d.month) then d.(day := d.day + 1) else FirstOfNextMonth(d.year, d.month)
  }

  function AddDays(d: Date, n: nat): Date {
    if n == 0 then d else NextDay(AddDays(d, n - 1))
  }

  // ---- days as a line ----

  /** Months since the start of year one, and the days before each. */
  function MonthIndex(d: Date): int {
    12 * (d.year - 1) + d.month - 1
  }

  function MonthDays(k: nat): nat {
    DaysIn(k / 12 + 1, k % 12 + 1)
  }

  function DaysBefore(k: nat): nat {
    if k == 0 then 0 else DaysBefore(k - 1) + MonthDays(k - 1)
  }

  /** Days since 1 January of year one. */
  function DayNumber(d: Date): int
    requires Valid(d)
  {
    DaysBefore(MonthIndex(d)) + d.day - 1
  }

  lemma MonthOf(d: Date)
    requires Valid(d)
    ensures 0 <= MonthIndex(d) && MonthDays(MonthIndex(d)) == DaysIn(d.year, d.month)
  {
    assert MonthIndex(d) / 12 + 1 == d.year && MonthIndex(d) % 12 + 1 == d.month;
  }

  /** A month starts as many days after the one before it as that one has. */
  lemma NextMonthStarts(d: Date)
    requires Valid(d)
    ensures var next := FirstOfNextMonth(d.year, d.month);
            Valid(next) && 0 <= MonthIndex(d) && DayNumber(next) == DaysBefore(MonthIndex(d)) + DaysIn(d.year, d.month)
  {
    MonthOf(d);
    MonthFollows(MonthIndex(d), MonthIndex(FirstOfNextMonth(d.year, d.month)));
  }

  lemma MonthFollows(k: nat, next: int)
    requires next == k + 1
    ensures DaysBefore(next) == DaysBefore(k) + MonthDays(k)
  {
  }

  lemma NextDayIsOneLater(d: Date)
    requires Valid(d)
    ensures Valid(NextDay(d)) && DayNumber(NextDay(d)) == DayNumber(d) + 1
  {
    if d.day < DaysIn(d.year, d.month) {
      assert MonthIndex(NextDay(d)) == MonthIndex(d);
    } else {
      NextMonthStarts(d);
    }
  }

  lemma {:induction false} AddDaysIsLater(d: Date, n: nat)
    requires Valid(d)
    ensures Valid(AddDays(d, n)) && DayNumber(AddDays(d, n)) == DayNumber(d) + n
  {
    if n > 0 {
      AddDaysIsLater(d, n - 1);
      NextDayIsOneLater(AddDays(d, n - 1));
    }
  }

  lemma {:induction false} WithinMonth(d: Date, n: nat)
    requires Valid(d) && d.day + n <= DaysIn(d.year, d.month)
    ensures AddDays(d, n) == d.(day := d.day + n)
  {
    if n > 0 { WithinMonth(d, n - 1); }
  }

  lemma {:induction false} AddDaysSplits(d: Date, m: nat, n: nat)
    ensures AddDays(d, m + n) == AddDays(AddDays(d, m), n)
  {
    if n > 0 { AddDaysSplits(d, m, n - 1); }
  }

  /** Thirty-two days on from the first, then back to the first, is the next month, whatever the month:
      leap Februaries and Decembers included. */
  lemma ThirtyTwoDaysReachesNextMonth(year: int, month: int)
    requires 1 <= year && 1 <= month <= 12
    ensures AddDays(Date(year, month, 1), 32).(day := 1) == FirstOfNextMonth(year, month)
  {
    var length := DaysIn(year, month);
    var first, next := Date(year, month, 1), FirstOfNextMonth(year, month);
    WithinMonth(first, length - 1);
    AddDaysSplits(first, length - 1, 1);
    assert AddDays(Date(year, month, length), 1) == NextDay(AddDays(Date(year, month, length), 0));
    AddDaysSplits(first, length, 32 - length);
    WithinMonth(next, 32 - length);
  }

  lemma {:induction false} MonthsFollow(k: nat, later: nat)
    requires k < later
    ensures DaysBefore(k) + MonthDays(k) <= DaysBefore(later)
  {
    assert 0 <= MonthDays(later - 1);
    MonthFollows(later - 1, later);
    if k + 1 < later { MonthsFollow(k, later - 1); }
  }

  // ---- the line of days in closed form ----

  /** Days before a year that `y` have gone before: leap years are every fourth, but not the hundredths unless
      they are four-hundredths. */
  function DaysBeforeYear(y: nat): int {
    365 * y + y / 4 - y / 100 + y / 400
  }

  /** Days of a year before its month. */
  function DaysBeforeMonth(year: int, month: int): int {
    (367 * month - 362) / 12 - if month <= 2 then 0 else if Leap(year) then 1 else 2
  }

  lemma NextYearStarts(y: nat)
    ensures DaysBeforeYear(y + 1) == DaysBeforeYear(y) + if Leap(y + 1) then 366 else 365
  {
    hide Leap;
    LeapExactly(y + 1);
    Fourths(y);
    Hundredths(y);
    FourHundredths(y);
  }

  lemma LeapExactly(year: int)
    ensures (if Leap(year) then 1 else 0)
            == (if year % 4 == 0 then 1 else 0) - (if year % 100 == 0 then 1 else 0) + (if year % 400 == 0 then 1 else 0)
  {
    if year % 400 == 0 {
      HundredthOfItself(4 * (year / 400));
    }
    if year % 100 == 0 {
      FourthOfItself(25 * (year / 100));
    }
  }

  lemma HundredthOfItself(x: int)
    ensures (100 * x) % 100 == 0
  {
  }

  lemma FourthOfItself(x: int)
    ensures (4 * x) % 4 == 0
  {
  }

  lemma Fourths(y: nat)
    ensures (y + 1) / 4 == y / 4 + if (y + 1) % 4 == 0 then 1 else 0
  {
  }

  lemma Hundredths(y: nat)
    ensures (y + 1) / 100 == y / 100 + if (y + 1) % 100 == 0 then 1 else 0
  {
  }

  lemma FourHundredths(y: nat)
    ensures (y + 1) / 400 == y / 400 + if (y + 1) % 400 == 0 then 1 else 0
  {
  }

  lemma NextMonthIsLater(year: int, month: int)
    requires 1 <= month <= 12
    ensures DaysBeforeMonth(year, month) + DaysIn(year, month)
            == if month < 12 then DaysBeforeMonth(year, month + 1) else if Leap(year) then 366 else 365
    ensures DaysBeforeMonth(year, 1) == 0
  {
  }

  lemma NothingBefore()
    ensures DaysBefore(0) == DaysBeforeYear(0) == 0 && DaysBeforeMonth(1, 1) == 0
  {
  }

  /** Every month starts where the two closed forms put it. */
  lemma {:induction false} MonthsStartExactly(y: nat, month: nat)
    requires 1 <= month <= 12
    ensures DaysBefore(12 * y + month - 1) == DaysBeforeYear(y) + DaysBeforeMonth(y + 1, month)
    decreases y, month
  {
    hide Leap, DaysIn, DaysBeforeYear, DaysBeforeMonth, DaysBefore;
    var k := 12 * y + month - 1;
    NothingBefore();
    if month > 1 {
      MonthsStartExactly(y, month - 1);
      NextMonthIsLater(y + 1, month - 1);
      MonthFollows(k - 1, k);
      assert (k - 1) / 12 == y && (k - 1) % 12 == month - 2;
    } else if y > 0 {
      MonthsStartExactly(y - 1, 12);
      NextMonthIsLater(y, 12);
      NextMonthIsLater(y + 1, 1);
      NextYearStarts(y - 1);
      MonthFollows(k - 1, k);
      assert (k - 1) / 12 == y - 1 && (k - 1) % 12 == 11;
    }
  }

  /** So the day number of any date, and of the Unix epoch. */
  lemma DayNumberExactly(d: Date)
    requires Valid(d)
    ensures DayNumber(d) == DaysBeforeYear(d.year - 1) + DaysBeforeMonth(d.year, d.month) + d.day - 1
    ensures d == Date(1970, 1, 1) ==> DayNumber(d) == EPOCH_DAY
  {
    hide DaysBefore, DaysBeforeYear, DaysBeforeMonth, DaysIn;
    MonthsStartExactly(d.year - 1, d.month);
    EpochYearStarts();
  }

  lemma EpochYearStarts()
    ensures DaysBeforeYear(1969) == EPOCH_DAY && DaysBeforeMonth(1970, 1) == 0
  {
  }

  // ---- moments and windows ----

  /** A datetime: a date and the microseconds since its midnight. */
  datatype Moment = Moment(date: Date, micros: int)

  predicate ValidMoment(m: Moment) {
    Valid(m.date) && 0 <= m.micros < DAY
  }

  /** Days from 1 January of year one to the Unix epoch. */
  const EPOCH_DAY: int := 719_162

  /** Midnight of a day, and a time on it, as instants. */
  function Line(day: int, micros: int): Instant {
    (day - EPOCH_DAY) * 86_400_000_000 + micros
  }

  function At(m: Moment): Instant
    requires Valid(m.date)
  {
    Line(DayNumber(m.date), m.micros)
  }

  /** Times of day never carry over midnight, so days order instants. */
  lemma DaysOrder(a: int, b: int, micros: int)
    requires 0 <= micros < DAY
    ensures Line(a, 0) <= Line(b, micros) <==> a <= b
    ensures Line(b, micros) < Line(a, 0) <==> b < a
    ensures Line(a, 0) == Line(b, 0) <==> a == b
    ensures Line(a + 1, 0) == Line(a, 0) + DAY
  {
  }

  datatype WindowKind = Daily | BillingPeriod

  function CalendarMonth(now: Moment): (Moment, Moment) {
    var start := Moment(now.date.(day := 1), 0);
    (start, Moment(AddDays(start.date, 32).(day := 1), 0))
  }

  predicate InPeriod(start: Option<Instant>, end: Option<Instant>, t: Instant) {
    start.Some? && end.Some? && start.value <= t < end.value
  }

  function WindowFor(kind: WindowKind, periodStart: Option<Instant>, periodEnd: Option<Instant>, now: Moment): (Instant, Instant)
    requires ValidMoment(now)
  {
    if kind.Daily? then
      AddDaysIsLater(now.date, 1);
      (At(Moment(now.date, 0)), At(Moment(AddDays(now.date, 1), 0)))
    else if InPeriod(periodStart, periodEnd, At(now)) then (periodStart.value, periodEnd.value)
    else
      ThirtyTwoDaysReachesNextMonth(now.date.year, now.date.month);
      (At(CalendarMonth(now).0), At(CalendarMonth(now).1))
  }

  /** The day numbers a window runs between, for the two kinds that start and end at midnight. */
  lemma DailyWindow(ps: Option<Instant>, pe: Option<Instant>, now: Moment)
    requires ValidMoment(now)
    ensures WindowFor(Daily, ps, pe, now) == (Line(DayNumber(now.date), 0), Line(DayNumber(now.date) + 1, 0))
  {
    AddDaysIsLater(now.date, 1);
  }

  lemma FirstIsValid(d: Date)
    requires Valid(d)
    ensures Valid(d.(day := 1)) && AddDays(d.(day := 1), 32).(day := 1) == FirstOfNextMonth(d.year, d.month)
  {
    ThirtyTwoDaysReachesNextMonth(d.year, d.month);
  }

  lemma CalendarWindow(ps: Option<Instant>, pe: Option<Instant>, now: Moment)
    requires ValidMoment(now) && !InPeriod(ps, pe, At(now))
    ensures var k := MonthIndex(now.date);
            0 <= k && WindowFor(BillingPeriod, ps, pe, now) == (Line(DaysBefore(k), 0), Line(DaysBefore(k) + MonthDays(k), 0))
  {
    hide Leap, DaysIn, NextDay, AddDays, DaysBefore;
    var d := now.date;
    var first, next := d.(day := 1), FirstOfNextMonth(d.year, d.month);
    FirstIsValid(d);
    ThirtyTwoDaysReachesNextMonth(d.year, d.month);
    MonthOf(d);
    NextMonthStarts(d);
    assert MonthIndex(first) == MonthIndex(d);
    assert CalendarMonth(now) == (Moment(first, 0), Moment(next, 0));
    assert At(Moment(next, 0)) == Line(DayNumber(next), 0);
  }

  /** In its billing period, the first instant included and the last not, the window is the period. */
  lemma PeriodWindow(ps: Instant, pe: Instant, now: Moment)
    requires ValidMoment(now) && ps <= At(now) < pe
    ensures WindowFor(BillingPeriod, Some(ps), Some(pe), now) == (ps, pe)
  {
  }

  /** The current instant is inside its own window. */
  lemma NowIsInItsWindow(kind: WindowKind, ps: Option<Instant>, pe: Option<Instant>, now: Moment)
    requires ValidMoment(now)
    ensures var (start, end) := WindowFor(kind, ps, pe, now); start <= At(now) < end
  {
    var n, k := DayNumber(now.date), MonthIndex(now.date);
    MonthOf(now.date);
    if kind.Daily? {
      DailyWindow(ps, pe, now);
      DaysOrder(n, n, now.micros);
      DaysOrder(n + 1, n, now.micros);
    } else if !InPeriod(ps, pe, At(now)) {
      CalendarWindow(ps, pe, now);
      DaysOrder(DaysBefore(k), n, now.micros);
      DaysOrder(DaysBefore(k) + MonthDays(k), n, now.micros);
    }
  }

  lemma SameMonth(a: Moment, b: Moment)
    requires ValidMoment(a) && ValidMoment(b)
    requires var k := MonthIndex(a.date);
             0 <= k && Line(DaysBefore(k), 0) <= At(b) < Line(DaysBefore(k) + MonthDays(k), 0)
    ensures MonthIndex(a.date) == MonthIndex(b.date)
  {
    var k, l := MonthIndex(a.date), MonthIndex(b.date);
    MonthOf(a.date);
    MonthOf(b.date);
    DaysOrder(DaysBefore(k), DayNumber(b.date), b.micros);
    DaysOrder(DaysBefore(k) + MonthDays(k), DayNumber(b.date), b.micros);
    if k < l { MonthsFollow(k, l); }
    if l < k { MonthsFollow(l, k); }
  }

  /** Windows tile time. Two instants in one daily window have that window; so do two in one billing
      window, exactly unless the first fell outside the billing period and the second inside it. */
  lemma WindowsTile(kind: WindowKind, ps: Option<Instant>, pe: Option<Instant>, a: Moment, b: Moment)
    requires ValidMoment(a) && ValidMoment(b)
    requires var (start, end) := WindowFor(kind, ps, pe, a); start <= At(b) < end
    ensures WindowFor(kind, ps, pe, b) == WindowFor(kind, ps, pe, a)
            <==> || kind.Daily?
                 || (ps.Some? && pe.Some? && ps.value <= At(a) < pe.value)
                 || !(ps.Some? && pe.Some? && ps.value <= At(b) < pe.value)
  {
    if kind.Daily? {
      DailyWindow(ps, pe, a);
      DailyWindow(ps, pe, b);
      DaysOrder(DayNumber(a.date), DayNumber(b.date), b.micros);
      DaysOrder(DayNumber(a.date) + 1, DayNumber(b.date), b.micros);
    } else if !InPeriod(ps, pe, At(a)) {
      NowIsInItsWindow(kind, ps, pe, a);
      if !InPeriod(ps, pe, At(b)) {
        CalendarWindow(ps, pe, a);
        CalendarWindow(ps, pe, b);
        SameMonth(a, b);
      }
    }
  }

  /** They do overlap: when a billing period starts within a month, a call before its start counts in the
      calendar month, which runs on past the start, and a later one of that month counts in the period. */
  lemma APeriodStartSplitsItsMonth(a: Moment, ps: Instant, pe: Instant, b: Moment)
    requires ValidMoment(a) && ValidMoment(b) && (a.date.year, a.date.month) == (b.date.year, b.date.month)
    requires At(a) < ps <= At(b) < pe
    ensures var first, second := WindowFor(BillingPeriod, Some(ps), Some(pe), a), WindowFor(BillingPeriod, Some(ps), Some(pe), b);
            first.0 < second.0 <= At(b) < first.1 && second == (ps, pe)
  {
    var k := MonthIndex(a.date);
    MonthOf(a.date);
    CalendarWindow(Some(ps), Some(pe), a);
    DaysOrder(DaysBefore(k), DayNumber(a.date), a.micros);
    DaysOrder(DaysBefore(k) + MonthDays(k), DayNumber(b.date), b.micros);
  }
}
