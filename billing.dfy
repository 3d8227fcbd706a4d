/**
 * Monthly billing dates. `generate_monthly_bills` bills the calendar month containing the
 * given date: the period runs from its first day to the first day of the next month,
 * found as `(first + 32 days).replace(day=1)`, and the bill falls due on the 15th of that
 * next month at 23:59. A provider with an unpaid bill past its due date is locked out of
 * new bookings.
 */
module Billing {
  import opened Wrappers
  import opened Time
  import opened Models

  /** A `datetime.date` of the proleptic Gregorian calendar. */
  datatype CivilDate = CivilDate(year: int, month: int, day: int)

  predicate IsLeap(y: int) {
    y % 4 == 0 && (y % 100 != 0 || y % 400 == 0)
  }

  function DaysInMonth(y: int, m: int): (n: int)
    requires 1 <= m <= 12
    ensures 28 <= n <= 31
  {
    if m == 2 then (if IsLeap(y) then 29 else 28)
    else if m == 4 || m == 6 || m == 9 || m == 11 then 30
    else 31
  }

  /** The dates Python can represent: years 1 to 9999. */
  predicate ValidDate(d: CivilDate) {
    1 <= d.year <= 9999 && 1 <= d.month <= 12 && 1 <= d.day <= DaysInMonth(d.year, d.month)
  }

  /** The following day; None past 9999-12-31, where Python raises OverflowError. */
  function NextDay(d: CivilDate): (r: Option<CivilDate>)
    requires ValidDate(d)
    ensures r.Some? ==> ValidDate(r.value)
    ensures r.None? <==> d == CivilDate(9999, 12, 31)
  {
    if d.day < DaysInMonth(d.year, d.month) then Some(d.(day := d.day + 1))
    else if d.month < 12 then Some(CivilDate(d.year, d.month + 1, 1))
    else if d.year < 9999 then Some(CivilDate(d.year + 1, 1, 1))
    else None
  }

  /** `d + timedelta(days=n)`, one day at a time; None when the result is out of range. */
  function AddDays(d: CivilDate, n: nat): (r: Option<CivilDate>)
    requires ValidDate(d)
    ensures r.Some? ==> ValidDate(r.value)
    decreases n
  {
    if n == 0 then Some(d)
    else match NextDay(d)
      case None => None
      case Some(e) => AddDays(e, n - 1)
  }

  /** Days from 0001-01-01 to January 1st of year `y`. */
  function DaysBeforeYear(y: int): int
    requires y >= 1
  {
    var p := y - 1;
    365 * p + p / 4 - p / 100 + p / 400
  }

  /** Days in year `y` before the first of month `m`; month 13 stands for the whole year. */
  function DaysBeforeMonth(y: int, m: int): int
    requires 1 <= m <= 13
    decreases m
  {
    if m == 1 then 0 else DaysBeforeMonth(y, m - 1) + DaysInMonth(y, m - 1)
  }

  /** `d.toordinal() - 1`: the day index the engine's instants count from. */
  function DayNumber(d: CivilDate): Day
    requires ValidDate(d)
  {
    DaysBeforeYear(d.year) + DaysBeforeMonth(d.year, d.month) + d.day - 1
  }

  /** The first day of the month after the one `d` falls in, when that is still in range. */
  function NextMonthStart(d: CivilDate): CivilDate {
    if d.month < 12 then CivilDate(d.year, d.month + 1, 1) else CivilDate(d.year + 1, 1, 1)
  }

  /** The billed range `[start, end)` and the due instant. */
  datatype BillingPeriod = BillingPeriod(start: CivilDate, end: CivilDate, due: Instant)

  /** The dates `generate_monthly_bills` computes for `month`; None when `start + 32 days` overflows. */
  function Period(month: CivilDate): Option<BillingPeriod>
    requires ValidDate(month)
  {
    var start := month.(day := 1);
    match AddDays(start, 32)
    case None => None
    case Some(e) =>
      var end := e.(day := 1);
      Some(BillingPeriod(start, end, DayNumber(end.(day := 15)) * DayUs + 23 * HourUs + 59 * MinuteUs))
  }

  lemma {:induction false} AddDaysWithinMonth(d: CivilDate, n: nat)
    requires ValidDate(d) && d.day + n <= DaysInMonth(d.year, d.month)
    ensures AddDays(d, n) == Some(d.(day := d.day + n))
    decreases n
  {
    if n > 0 {
      AddDaysWithinMonth(d.(day := d.day + 1), n - 1);
    }
  }

  lemma {:induction false} AddDaysSplit(d: CivilDate, a: nat, b: nat)
    requires ValidDate(d)
    ensures AddDays(d, a + b) == match AddDays(d, a) case None => None case Some(e) => AddDays(e, b)
    decreases a
  {
    if a > 0 {
      match NextDay(d)
      case None =>
      case Some(e) => AddDaysSplit(e, a - 1, b);
    }
  }

  /** The year's twelve months add up to 365 days, or 366 in a leap year. */
  lemma YearLength(y: int)
    ensures DaysBeforeMonth(y, 13) == if IsLeap(y) then 366 else 365
  {
    assert DaysBeforeMonth(y, 3) == 31 + DaysInMonth(y, 2);
    assert DaysBeforeMonth(y, 13) == DaysBeforeMonth(y, 3) + 306;
  }

  /** Year `y` is a multiple of 4 exactly when it adds one to `p / 4` over year `y - 1`; likewise for 100 and 400. */
  lemma QuotientSteps(y: int)
    ensures y / 4 - (y - 1) / 4 == if y % 4 == 0 then 1 else 0
    ensures y / 100 - (y - 1) / 100 == if y % 100 == 0 then 1 else 0
    ensures y / 400 - (y - 1) / 400 == if y % 400 == 0 then 1 else 0
  {
  }

  lemma DaysBeforeYearStep(y: int)
    requires y >= 1
    ensures DaysBeforeYear(y + 1) == DaysBeforeYear(y) + if IsLeap(y) then 366 else 365
  {
    QuotientSteps(y);
  }

  /** The first of the next month is as many days after the first of a month as that month has. */
  lemma NextMonthDayNumber(d: CivilDate)
    requires ValidDate(d) && !(d.year == 9999 && d.month == 12)
    ensures ValidDate(NextMonthStart(d))
    ensures DayNumber(NextMonthStart(d)) == DayNumber(d.(day := 1)) + DaysInMonth(d.year, d.month)
  {
    if d.month == 12 {
      YearLength(d.year);
      DaysBeforeYearStep(d.year);
    }
  }

  /** The following day is the next day number: `NextDay` is `d + timedelta(days=1)`. */
  lemma NextDayNumber(d: CivilDate)
    requires ValidDate(d) && NextDay(d).Some?
    ensures DayNumber(NextDay(d).value) == DayNumber(d) + 1
  {
    if d.day == DaysInMonth(d.year, d.month) {
      NextMonthDayNumber(d);
    }
  }

  /** `d + timedelta(days=n)`, when in range, is the date `n` day numbers later. */
  lemma {:induction false} AddDaysNumber(d: CivilDate, n: nat)
    requires ValidDate(d) && AddDays(d, n).Some?
    ensures DayNumber(AddDays(d, n).value) == DayNumber(d) + n
    decreases n
  {
    if n > 0 {
      var e := NextDay(d).value;
      NextDayNumber(d);
      AddDaysNumber(e, n - 1);
    }
  }

  /** From the first of a month, `k - 1` of the 32 days reach its last day, the `k`-th. */
  lemma FirstToLast(month: CivilDate)
    requires ValidDate(month)
    ensures var k := DaysInMonth(month.year, month.month);
      AddDays(month.(day := 1), 32) == AddDays(month.(day := k), 33 - k)
  {
    var k := DaysInMonth(month.year, month.month);
    AddDaysWithinMonth(month.(day := 1), k - 1);
    AddDaysSplit(month.(day := 1), k - 1, 33 - k);
  }

  /** From the last day of a month, `m` days (`m` at most 28) end on day `m` of the next month. */
  lemma PastLast(last: CivilDate, m: nat)
    requires ValidDate(last) && last.day == DaysInMonth(last.year, last.month) && 1 <= m <= 28
    ensures AddDays(last, m) == if last.year == 9999 && last.month == 12 then None else Some(NextMonthStart(last).(day := m))
  {
    AddDaysSplit(last, 1, m - 1);
    assert AddDays(last, 1) == NextDay(last);
    if !(last.year == 9999 && last.month == 12) {
      AddDaysWithinMonth(NextMonthStart(last), m - 1);
    }
  }

  /**
   * Thirty-two days after the first of a month fall in the next month, on day
   * `33 - k` for a month of `k` days; from December 9999 they are out of range.
   */
  lemma ThirtyTwoDaysAfterFirst(month: CivilDate)
    requires ValidDate(month)
    ensures var k := DaysInMonth(month.year, month.month);
      AddDays(month.(day := 1), 32)
        == if month.year == 9999 && month.month == 12 then None else Some(NextMonthStart(month).(day := 33 - k))
  {
    var k := DaysInMonth(month.year, month.month);
    FirstToLast(month);
    PastLast(month.(day := k), 33 - k);
  }

  /** The dates of a month's period: its first, the first of the next month, and 23:59 on the 15th of that one. */
  lemma PeriodDates(month: CivilDate)
    requires ValidDate(month)
    ensures var next := NextMonthStart(month);
      Period(month) == if month.year == 9999 && month.month == 12 then None
        else Some(BillingPeriod(month.(day := 1), next, DayNumber(next.(day := 15)) * DayUs + 23 * HourUs + 59 * MinuteUs))
  {
    ThirtyTwoDaysAfterFirst(month);
  }

  /** 23:59 on a day: an instant of that day, 23 hours 59 minutes after its midnight. */
  lemma EndOfDayInstant(d: Day)
    ensures DateOf(d * DayUs + 23 * HourUs + 59 * MinuteUs) == d
    ensures (d * DayUs + 23 * HourUs + 59 * MinuteUs) % DayUs == 23 * HourUs + 59 * MinuteUs
  {
    var t := d * DayUs + 23 * HourUs + 59 * MinuteUs;
    assert d * DayUs <= t < d * DayUs + DayUs;
  }

  /**
   * The period of a month is that whole calendar month: it starts on the first and ends
   * on the first of the following month, exactly as many days later as the month has.
   * Only December 9999 has no period, because adding 32 days overflows.
   */
  lemma PeriodIsCalendarMonth(month: CivilDate)
    requires ValidDate(month)
    ensures Period(month).Some? <==> !(month.year == 9999 && month.month == 12)
    ensures Period(month).Some? ==>
      && Period(month).value.start == CivilDate(month.year, month.month, 1)
      && Period(month).value.end == NextMonthStart(month)
      && DayNumber(Period(month).value.end) == DayNumber(Period(month).value.start) + DaysInMonth(month.year, month.month)
  {
    PeriodDates(month);
    if !(month.year == 9999 && month.month == 12) {
      NextMonthDayNumber(month);
    }
  }

  /** The bill falls due at 23:59 on the 15th of the month after the billed one, 14 days after the period ends. */
  lemma PeriodDueDate(month: CivilDate)
    requires ValidDate(month) && Period(month).Some?
    ensures DateOf(Period(month).value.due) == DayNumber(Period(month).value.end) + 14
    ensures Period(month).value.due % DayUs == 23 * HourUs + 59 * MinuteUs
  {
    PeriodDates(month);
    var next := NextMonthStart(month);
    assert DayNumber(next.(day := 15)) == DayNumber(next) + 14;
    EndOfDayInstant(DayNumber(next.(day := 15)));
  }

  /** The lock query's condition on one bill: the provider's, unpaid, with a due date strictly before now. */
  predicate Overdue(b: Bill, providerId: int, now: Instant) {
    b.providerId == providerId && !b.isPaid && b.dueDate.Some? && b.dueDate.value < now
  }

  /** create_booking's lock: some bill of the provider is overdue. A bill without a due date never is. */
  predicate Locked(bills: seq<Bill>, providerId: int, now: Instant) {
    exists i :: 0 <= i < |bills| && Overdue(bills[i], providerId, now)
  }

  /**
   * An unpaid bill for a month locks its provider from the moment its due date has passed,
   * and has no effect on other providers.
   */
  lemma UnpaidBillLocksAfterDue(bills: seq<Bill>, providerId: int, month: CivilDate, other: int, now: Instant)
    requires ValidDate(month) && Period(month).Some?
    ensures var bs := bills + [Bill(providerId, false, Some(Period(month).value.due))];
      && (Locked(bs, providerId, now) <==> Locked(bills, providerId, now) || Period(month).value.due < now)
      && (other != providerId ==> (Locked(bs, other, now) <==> Locked(bills, other, now)))
  {
    var bs := bills + [Bill(providerId, false, Some(Period(month).value.due))];
    assert bs[|bills|] == Bill(providerId, false, Some(Period(month).value.due));
    if Locked(bills, providerId, now) {
      var i :| 0 <= i < |bills| && Overdue(bills[i], providerId, now);
      assert bs[i] == bills[i];
    }
    if Locked(bills, other, now) {
      var i :| 0 <= i < |bills| && Overdue(bills[i], other, now);
      assert bs[i] == bills[i];
    }
    if Locked(bs, other, now) && other != providerId {
      var i :| 0 <= i < |bs| && Overdue(bs[i], other, now);
      assert i < |bills| && bills[i] == bs[i];
    }
    if Locked(bs, providerId, now) && !(Period(month).value.due < now) {
      var i :| 0 <= i < |bs| && Overdue(bs[i], providerId, now);
      assert i < |bills| && bills[i] == bs[i];
    }
  }
}
