/**
 * Naive local date-times as the booking engine stores them. An instant is a whole
 * number of microseconds since 0001-01-01 00:00, the first day of the proleptic
 * Gregorian calendar and a Monday; a day is a whole number of days since that day.
 */
module Time {
  import opened Wrappers

  type Instant = int
  type Day = int

  const MinuteUs: int := 60_000_000
  const HourUs: int := 3_600_000_000
  const DayUs: int := 86_400_000_000

  /** `t.date()`: the day an instant falls on. */
  function DateOf(t: Instant): (d: Day)
    ensures d * DayUs <= t < d * DayUs + DayUs
  {
    t / DayUs
  }

  /** Adding whole days to an instant moves its date by as many days. */
  lemma DateOfShift(t: Instant, k: int)
    ensures DateOf(t + k * DayUs) == DateOf(t) + k
  {
    var d0, d1 := DateOf(t), DateOf(t + k * DayUs);
    assert (d1 - k) * DayUs <= t < (d1 - k) * DayUs + DayUs;
  }

  /** `(t + timedelta(days=k)).date()`: the date `k` days after the date of `t`. */
  function DateAfter(t: Instant, k: int): (d: Day)
    ensures d == DateOf(t) + k
  {
    DateOfShift(t, k);
    DateOf(t + k * DayUs)
  }

  /** `d.weekday()`: 0 is Monday and 6 is Sunday. */
  function Weekday(d: Day): (w: int)
    ensures 0 <= w < 7
    ensures (d - w) % 7 == 0
  {
    d % 7
  }

  /** `t.replace(second=0, microsecond=0)`: the start of the minute an instant falls in. */
  function TruncateToMinute(t: Instant): (r: Instant)
    ensures r <= t < r + MinuteUs
    ensures r % MinuteUs == 0
  {
    t - t % MinuteUs
  }

  /**
   * `datetime(d.year, d.month, d.day, hour, minute)`. Python raises ValueError for an
   * hour outside 0..23 or a minute outside 0..59; that is None here.
   */
  function AtTimeOfDay(d: Day, hour: int, minute: int): (r: Option<Instant>)
    ensures r.Some? <==> 0 <= hour < 24 && 0 <= minute < 60
    ensures r.Some? ==> DateOf(r.value) == d && r.value % MinuteUs == 0
    ensures r.Some? ==> r.value == d * DayUs + hour * HourUs + minute * MinuteUs
  {
    if 0 <= hour < 24 && 0 <= minute < 60 then
      var t := d * DayUs + hour * HourUs + minute * MinuteUs;
      assert t == (d * 1440 + hour * 60 + minute) * MinuteUs;
      assert d * DayUs <= t < d * DayUs + DayUs;
      Some(t)
    else
      None
  }

  /** The window of `list_todays_bookings_for_provider`: today's midnight to tomorrow's. */
  function TodayWindow(now: Instant): (w: (Instant, Instant))
    ensures w.0 <= now < w.1
    ensures w.1 - w.0 == DayUs
    ensures w.0 % DayUs == 0
  {
    var start := DateOf(now) * DayUs;
    (start, start + DayUs)
  }

  /**
   * The window of `list_upcoming_bookings_for_provider`: from tomorrow's midnight, computed
   * as the date of `now + 1 day`, for `daysAhead` days.
   */
  function UpcomingWindow(now: Instant, daysAhead: int): (w: (Instant, Instant))
    ensures w.0 == TodayWindow(now).1
    ensures w.1 - w.0 == daysAhead * DayUs
  {
    DateOfShift(now, 1);
    var start := DateOf(now + DayUs) * DayUs;
    (start, start + daysAhead * DayUs)
  }
}
