/**
 * What `get_provider_availability` computes, as functions: the open weekday rules, each
 * day's window, the slot enumeration in steps of the service duration, and the per-day
 * entries over the next `days` days; with the properties the engine promises of them.
 */
module AvailabilitySpec {
  import opened Wrappers
  import opened Time
  import opened Text
  import opened Models
  import opened Bookings
  import opened Seqs

  /** One entry of the result: a date and its free slot starts, in increasing order. */
  datatype DayAvailability = DayAvailability(date: Day, slots: seq<Instant>)

  datatype AvailabilityError = ServiceNotFoundForProvider | InvalidTime

  /** The rows the engine keeps: not closed, and both times present and non-empty. */
  predicate IsOpenRule(wh: ProviderWorkingHours) {
    && !wh.isClosed
    && wh.startTime.Some? && wh.startTime.value != ""
    && wh.endTime.Some? && wh.endTime.value != ""
  }

  /** `wh_by_weekday`: the open rows by weekday, a later row replacing an earlier one. */
  function OpenRules(rows: seq<ProviderWorkingHours>): (m: map<int, ProviderWorkingHours>)
    ensures forall w :: w in m ==> m[w].weekday == w && IsOpenRule(m[w])
    decreases |rows|
  {
    if rows == [] then map[]
    else
      var m := OpenRules(rows[..|rows| - 1]);
      var wh := rows[|rows| - 1];
      if IsOpenRule(wh) then m[wh.weekday := wh] else m
  }

  /** An open row for weekday `w`. */
  predicate OpenFor(wh: ProviderWorkingHours, w: int) {
    wh.weekday == w && IsOpenRule(wh)
  }

  /** Row `i` is the last open row for weekday `w`. */
  predicate LastOpenFor(rows: seq<ProviderWorkingHours>, i: int, w: int) {
    0 <= i < |rows| && OpenFor(rows[i], w) && forall j :: i < j < |rows| ==> !OpenFor(rows[j], w)
  }

  /** A weekday has a rule exactly when some open row names it. */
  lemma {:induction false} OpenRulesHas(rows: seq<ProviderWorkingHours>, w: int)
    ensures w in OpenRules(rows) <==> exists i :: 0 <= i < |rows| && OpenFor(rows[i], w)
    decreases |rows|
  {
    if rows != [] {
      var init := rows[..|rows| - 1];
      OpenRulesHas(init, w);
      if exists i :: 0 <= i < |rows| && OpenFor(rows[i], w) {
        var i :| 0 <= i < |rows| && OpenFor(rows[i], w);
        if i < |init| {
          assert init[i] == rows[i];
        }
      }
      if exists i :: 0 <= i < |init| && OpenFor(init[i], w) {
        var i :| 0 <= i < |init| && OpenFor(init[i], w);
        assert rows[i] == init[i];
      }
    }
  }

  /** The rule for a weekday is the last open row naming it. */
  lemma {:induction false} OpenRulesLast(rows: seq<ProviderWorkingHours>, w: int)
    requires w in OpenRules(rows)
    ensures exists i :: LastOpenFor(rows, i, w) && OpenRules(rows)[w] == rows[i]
    decreases |rows|
  {
    var init := rows[..|rows| - 1];
    var wh := rows[|rows| - 1];
    if OpenFor(wh, w) {
      assert LastOpenFor(rows, |rows| - 1, w);
    } else {
      OpenRulesLast(init, w);
      var i :| LastOpenFor(init, i, w) && OpenRules(init)[w] == init[i];
      assert rows[i] == init[i];
      assert LastOpenFor(rows, i, w);
    }
  }

  /** Python's `text or default` on an optional string. */
  function OrDefault(text: Option<string>, default: string): string {
    if text.Some? && text.value != "" then text.value else default
  }

  /** A rule's times on a given day: unparsable, rejected by `datetime`, or opening and closing instants. */
  datatype RuleTimes = BadFormat | BadRange | Times(opening: Instant, closing: Instant)

  /**
   * Both times read as `map(int, (time or default).split(":"))`, with the defaults 09:00
   * and 17:00, then `datetime(year, month, day, hour, minute)` on the day.
   */
  function TimesOn(wh: ProviderWorkingHours, day: Day): (t: RuleTimes)
    ensures t.Times? ==> DateOf(t.opening) == day && t.opening % MinuteUs == 0 && DateOf(t.closing) == day
  {
    match (ParseHHMM(OrDefault(wh.startTime, "09:00")), ParseHHMM(OrDefault(wh.endTime, "17:00")))
    case (Some(s), Some(e)) =>
      (match (AtTimeOfDay(day, s.0, s.1), AtTimeOfDay(day, e.0, e.1))
       case (Some(opening), Some(closing)) => Times(opening, closing)
       case _ => BadRange)
    case _ => BadFormat
  }

  /** What a day offers: no rule, unparsable times, times `datetime` rejects, or an open window. */
  datatype DayWindow = NoRule | Unparsable | OutOfRange | Open(start: Instant, end: Instant)

  /**
   * A day's window `[day_start, day_end)` from the rule for its weekday. For today, once
   * the opening time has passed, the window starts at the current minute instead.
   */
  function Window(rules: map<int, ProviderWorkingHours>, day: Day, now: Instant): DayWindow {
    var w := Weekday(day);
    if w !in rules then NoRule
    else
      match TimesOn(rules[w], day)
      case BadFormat => Unparsable
      case BadRange => OutOfRange
      case Times(opening, closing) =>
        if day == DateOf(now) && now > opening then Open(TruncateToMinute(now), closing)
        else Open(opening, closing)
  }

  /** A minute-aligned instant no later than `t` is no later than `t` truncated to the minute. */
  lemma AlignedBeforeTruncated(a: Instant, t: Instant)
    requires a % MinuteUs == 0 && a <= t
    ensures a <= TruncateToMinute(t)
  {
    var qa, qt := a / MinuteUs, t / MinuteUs;
    assert a == qa * MinuteUs;
    assert TruncateToMinute(t) == qt * MinuteUs;
    assert t < qt * MinuteUs + MinuteUs;
  }

  /** Truncating to the minute stays on the same day. */
  lemma TruncateSameDay(t: Instant)
    ensures DateOf(TruncateToMinute(t)) == DateOf(t)
  {
    var d := DateOf(t);
    assert (d * DayUs) % MinuteUs == 0 by {
      assert d * DayUs == (d * 1440) * MinuteUs;
    }
    AlignedBeforeTruncated(d * DayUs, t);
  }

  /**
   * An open window lies on its day, starts on a minute, never before the rule's opening
   * time, and, today, never before the current minute; it ends at the closing time.
   */
  lemma WindowBounds(rules: map<int, ProviderWorkingHours>, day: Day, now: Instant)
    requires Window(rules, day, now).Open?
    ensures var w := Window(rules, day, now);
      var t := TimesOn(rules[Weekday(day)], day);
      && t.Times?
      && DateOf(w.start) == day && w.start % MinuteUs == 0
      && t.opening <= w.start && w.end == t.closing
      && (day == DateOf(now) ==> w.start >= TruncateToMinute(now))
  {
    var t := TimesOn(rules[Weekday(day)], day);
    var w := Window(rules, day, now);
    if day == DateOf(now) && now > t.opening {
      assert w.start == TruncateToMinute(now);
      AlignedBeforeTruncated(t.opening, now);
      TruncateSameDay(now);
    } else {
      assert w.start == t.opening;
      assert TruncateToMinute(now) <= now;
    }
  }

  /** The confirmed bookings that `get_provider_availability` loads for a window: those starting in it. */
  function Blocking(bookings: seq<Booking>, windowStart: Instant, windowEnd: Instant): seq<Booking> {
    Filter(bookings, (b: Booking) => b.status == Confirmed && windowStart <= b.start < windowEnd)
  }

  /** Some loaded booking overlaps the slot `[s, e)`. */
  predicate Conflict(s: Instant, e: Instant, blocking: seq<Booking>) {
    exists i :: 0 <= i < |blocking| && Overlaps(s, e, blocking[i].start, blocking[i].end)
  }

  /** The `k`-th candidate start: `from + k * len`. */
  function Candidate(from: Instant, len: int, k: nat): Instant {
    from + k * len
  }

  /** A positive step in microseconds. */
  type Step = x: int | x > 0 witness MinuteUs

  /** The slot loop: candidates `from, from + len, ...` that fit before `end`, minus those in conflict. */
  function Slots(from: Instant, end: Instant, len: Step, blocking: seq<Booking>): seq<Instant>
    decreases end - from
  {
    if from + len <= end then
      (if Conflict(from, from + len, blocking) then [] else [from]) + Slots(from + len, end, len, blocking)
    else []
  }

  /** Every slot is a candidate of the form `from + k * len` that fits and is free. */
  lemma {:induction false} SlotsSound(from: Instant, end: Instant, len: Step, blocking: seq<Booking>, s: Instant)
    requires len > 0
    requires s in Slots(from, end, len, blocking)
    ensures from <= s && s + len <= end
    ensures exists k: nat :: s == Candidate(from, len, k)
    ensures !Conflict(s, s + len, blocking)
    decreases end - from
  {
    if s != from || Conflict(from, from + len, blocking) {
      SlotsSound(from + len, end, len, blocking, s);
      var k: nat :| s == Candidate(from + len, len, k);
      assert s == Candidate(from, len, k + 1);
    } else {
      assert s == Candidate(from, len, 0);
    }
  }

  /** Every candidate that fits and is free is a slot. */
  lemma {:induction false} SlotsComplete(from: Instant, end: Instant, len: Step, blocking: seq<Booking>, k: nat)
    requires len > 0
    requires Candidate(from, len, k) + len <= end
    requires !Conflict(Candidate(from, len, k), Candidate(from, len, k) + len, blocking)
    ensures Candidate(from, len, k) in Slots(from, end, len, blocking)
    decreases k
  {
    if k > 0 {
      assert Candidate(from, len, k) == Candidate(from + len, len, k - 1);
      SlotsComplete(from + len, end, len, blocking, k - 1);
    }
  }

  predicate Increasing(s: seq<Instant>) {
    forall i, j :: 0 <= i < j < |s| ==> s[i] < s[j]
  }

  /** The slots of a day are strictly increasing. */
  lemma {:induction false} SlotsIncreasing(from: Instant, end: Instant, len: Step, blocking: seq<Booking>)
    ensures Increasing(Slots(from, end, len, blocking))
    decreases end - from
  {
    if from + len <= end {
      var r := Slots(from, end, len, blocking);
      var head := if Conflict(from, from + len, blocking) then [] else [from];
      var tail := Slots(from + len, end, len, blocking);
      assert r == head + tail;
      SlotsIncreasing(from + len, end, len, blocking);
      forall i, j | 0 <= i < j < |r| ensures r[i] < r[j] {
        var t := r[j];
        assert t == tail[j - |head|] && t in tail;
        if i < |head| {
          assert r[i] == from;
          SlotsSound(from + len, end, len, blocking, t);
        } else {
          assert r[i] == tail[i - |head|];
        }
      }
    }
  }

  /** A day's entry: an error for out-of-range times, nothing when it has no window or no free slot. */
  function DayEntry(rules: map<int, ProviderWorkingHours>, bookings: seq<Booking>, len: Step, day: Day, now: Instant)
    : (r: Result<Option<DayAvailability>, AvailabilityError>)
    ensures r.Failure? <==> Window(rules, day, now) == OutOfRange
    ensures r.Success? && r.value.Some? ==> r.value.value.date == day && r.value.value.slots != []
  {
    match Window(rules, day, now)
    case OutOfRange => Failure(InvalidTime)
    case Open(ws, de) =>
      var slots := Slots(ws, de, len, Blocking(bookings, ws, de));
      Success(if slots == [] then None else Some(DayAvailability(day, slots)))
    case _ => Success(None)
  }

  /** A non-empty entry holds exactly the free slots of its day's open window. */
  lemma EntryIsWindowSlots(rules: map<int, ProviderWorkingHours>, bookings: seq<Booking>, len: Step, day: Day, now: Instant)
    requires DayEntry(rules, bookings, len, day, now) != Success(None)
    requires DayEntry(rules, bookings, len, day, now).Success?
    ensures var w := Window(rules, day, now);
      && w.Open?
      && DayEntry(rules, bookings, len, day, now).value.value.slots == Slots(w.start, w.end, len, Blocking(bookings, w.start, w.end))
  {
  }

  /** Per-day entries, as a function of the date. */
  type Entries = Day -> Result<Option<DayAvailability>, AvailabilityError>

  /** The loop over day offsets `k .. days - 1` from `today`: the first error ends it, empty days are skipped. */
  function Collect(entry: Entries, today: Day, k: int, days: int): Result<seq<DayAvailability>, AvailabilityError>
    decreases days - k
  {
    if k >= days then Success([])
    else
      match entry(today + k)
      case Failure(e) => Failure(e)
      case Success(e) =>
        match Collect(entry, today, k + 1, days)
        case Failure(err) => Failure(err)
        case Success(rest) => Success((if e.Some? then [e.value] else []) + rest)
  }

  /** The day entries of one provider's rules and bookings, for a slot length and a current time. */
  function EntriesOf(rules: map<int, ProviderWorkingHours>, bookings: seq<Booking>, len: Step, now: Instant): Entries {
    d => DayEntry(rules, bookings, len, d, now)
  }

  /** The entry of a date is that date's DayEntry. */
  lemma EntriesOfDay(rules: map<int, ProviderWorkingHours>, bookings: seq<Booking>, len: Step, now: Instant, d: Day)
    ensures EntriesOf(rules, bookings, len, now)(d) == DayEntry(rules, bookings, len, d, now)
  {
  }

  /** The availability for `days` days from today, given the weekday rules and a slot length. */
  function FromRules(rules: map<int, ProviderWorkingHours>, bookings: seq<Booking>, len: Step, days: int, now: Instant)
    : Result<seq<DayAvailability>, AvailabilityError>
  {
    Collect(EntriesOf(rules, bookings, len, now), DateOf(now), 0, days)
  }

  /** The result of `get_provider_availability` once the service and its rows are loaded. */
  function Availability(rows: seq<ProviderWorkingHours>, bookings: seq<Booking>, durationMinutes: int, days: int, now: Instant)
    : Result<seq<DayAvailability>, AvailabilityError>
    requires durationMinutes > 0
  {
    FromRules(OpenRules(rows), bookings, durationMinutes * MinuteUs, days, now)
  }

  /** The collection fails exactly when some day's entry in the range fails. */
  lemma {:induction false} CollectFails(entry: Entries, today: Day, k: int, days: int)
    ensures Collect(entry, today, k, days).Failure? <==>
      exists d :: today + k <= d < today + days && entry(d).Failure?
    decreases days - k
  {
    if k < days {
      CollectFails(entry, today, k + 1, days);
      if entry(today + k).Failure? {
        var d := today + k;
        assert today + k <= d < today + days && entry(d).Failure?;
      }
    }
  }

  /** The head entry and the rest of a successful collection from offset `k`. */
  lemma CollectStep(entry: Entries, today: Day, k: int, days: int)
    requires k < days
    requires Collect(entry, today, k, days).Success?
    ensures entry(today + k).Success?
    ensures Collect(entry, today, k + 1, days).Success?
    ensures var e := entry(today + k).value;
      Collect(entry, today, k, days).value
        == (if e.Some? then [e.value] else []) + Collect(entry, today, k + 1, days).value
  {
  }

  /** Each collected entry is a non-empty entry for a day in range, and the days increase. */
  lemma {:induction false} CollectEntries(entry: Entries, today: Day, k: int, days: int)
    requires Collect(entry, today, k, days).Success?
    requires forall d :: entry(d).Success? && entry(d).value.Some? ==> entry(d).value.value.date == d
    ensures var es := Collect(entry, today, k, days).value;
      && (forall i :: 0 <= i < |es| ==> today + k <= es[i].date < today + days)
      && (forall i, j :: 0 <= i < j < |es| ==> es[i].date < es[j].date)
      && (forall i :: 0 <= i < |es| ==> entry(es[i].date) == Success(Some(es[i])))
    decreases days - k
  {
    if k < days {
      CollectStep(entry, today, k, days);
      CollectEntries(entry, today, k + 1, days);
      var es := Collect(entry, today, k, days).value;
      var rest := Collect(entry, today, k + 1, days).value;
      var e := entry(today + k).value;
      var head := if e.Some? then [e.value] else [];
      assert es == head + rest;
      forall i | 0 <= i < |es|
        ensures today + k <= es[i].date < today + days
        ensures entry(es[i].date) == Success(Some(es[i]))
      {
        if i >= |head| {
          assert es[i] == rest[i - |head|];
        }
      }
      forall i, j | 0 <= i < j < |es| ensures es[i].date < es[j].date {
        assert es[j] == rest[j - |head|];
        if i >= |head| {
          assert es[i] == rest[i - |head|];
        }
      }
    }
  }

  /** Every day in range whose entry is non-empty appears in a successful collection. */
  lemma {:induction false} CollectCovers(entry: Entries, today: Day, k: int, days: int, d: Day)
    requires Collect(entry, today, k, days).Success?
    requires today + k <= d < today + days
    requires entry(d).Success? && entry(d).value.Some?
    ensures var es := Collect(entry, today, k, days).value;
      exists i :: 0 <= i < |es| && es[i] == entry(d).value.value
    decreases days - k
  {
    CollectStep(entry, today, k, days);
    var es := Collect(entry, today, k, days).value;
    var rest := Collect(entry, today, k + 1, days).value;
    var e := entry(today + k).value;
    var head := if e.Some? then [e.value] else [];
    assert es == head + rest;
    if d == today + k {
      assert es[0] == e.value;
    } else {
      CollectCovers(entry, today, k + 1, days, d);
      var i :| 0 <= i < |rest| && rest[i] == entry(d).value.value;
      assert es[|head| + i] == rest[i];
    }
  }

  /** The slot loop's conflict test, stated on the whole booking table. */
  lemma ConflictOnTable(s: Instant, e: Instant, bookings: seq<Booking>, ws: Instant, de: Instant)
    ensures Conflict(s, e, Blocking(bookings, ws, de)) <==>
      exists j :: 0 <= j < |bookings| && bookings[j].status == Confirmed && ws <= bookings[j].start < de
        && Overlaps(s, e, bookings[j].start, bookings[j].end)
  {
    var blocking := Blocking(bookings, ws, de);
    if Conflict(s, e, blocking) {
      var i :| 0 <= i < |blocking| && Overlaps(s, e, blocking[i].start, blocking[i].end);
      assert blocking[i] in bookings;
      var j :| 0 <= j < |bookings| && bookings[j] == blocking[i];
    }
    if exists j :: 0 <= j < |bookings| && bookings[j].status == Confirmed && ws <= bookings[j].start < de
        && Overlaps(s, e, bookings[j].start, bookings[j].end) {
      var j :| 0 <= j < |bookings| && bookings[j].status == Confirmed && ws <= bookings[j].start < de
        && Overlaps(s, e, bookings[j].start, bookings[j].end);
      assert bookings[j] in blocking;
      var i :| 0 <= i < |blocking| && blocking[i] == bookings[j];
    }
  }

  /** An entry is exactly the free slots of an open window on its date, and there is at least one. */
  ghost predicate EntryMatches(rules: map<int, ProviderWorkingHours>, bookings: seq<Booking>, len: Step, now: Instant, e: DayAvailability) {
    var w := Window(rules, e.date, now);
    && w.Open?
    && e.slots == Slots(w.start, w.end, len, Blocking(bookings, w.start, w.end))
    && e.slots != []
  }

  /** The call fails (`ValueError`) exactly when a day in the range has an hour or minute out of range. */
  lemma FromRulesFails(rules: map<int, ProviderWorkingHours>, bookings: seq<Booking>, len: Step, days: int, now: Instant)
    ensures FromRules(rules, bookings, len, days, now).Failure? <==>
      exists d :: DateOf(now) <= d < DateOf(now) + days && Window(rules, d, now) == OutOfRange
  {
    var entry := EntriesOf(rules, bookings, len, now);
    CollectFails(entry, DateOf(now), 0, days);
    forall d ensures entry(d).Failure? <==> Window(rules, d, now) == OutOfRange {
    }
  }

  /**
   * A successful result lists days from today on, in increasing order, each with a rule
   * for its weekday, an open window and at least one slot; its slots are exactly the
   * free candidates in that window.
   */
  lemma FromRulesEntries(rules: map<int, ProviderWorkingHours>, bookings: seq<Booking>, len: Step, days: int, now: Instant)
    requires FromRules(rules, bookings, len, days, now).Success?
    ensures var es := FromRules(rules, bookings, len, days, now).value;
      && (forall i :: 0 <= i < |es| ==> DateOf(now) <= es[i].date < DateOf(now) + days)
      && (forall i, j :: 0 <= i < j < |es| ==> es[i].date < es[j].date)
      && (forall i :: 0 <= i < |es| ==> Weekday(es[i].date) in rules)
      && (forall i :: 0 <= i < |es| ==> EntryMatches(rules, bookings, len, now, es[i]))
  {
    var entry := EntriesOf(rules, bookings, len, now);
    CollectEntries(entry, DateOf(now), 0, days);
    var es := FromRules(rules, bookings, len, days, now).value;
    forall i | 0 <= i < |es|
      ensures Weekday(es[i].date) in rules
      ensures EntryMatches(rules, bookings, len, now, es[i])
    {
      assert entry(es[i].date) == Success(Some(es[i]));
      EntryIsWindowSlots(rules, bookings, len, es[i].date, now);
    }
  }

  /**
   * Every offered slot lies on its entry's date inside the day's window, is a whole number
   * of slot lengths after the window start, is not before the current minute, and
   * overlaps no confirmed booking that starts in the window.
   */
  lemma FromRulesSlotIsFree(rules: map<int, ProviderWorkingHours>, bookings: seq<Booking>, len: Step, days: int, now: Instant,
                            i: int, s: Instant)
    requires FromRules(rules, bookings, len, days, now).Success?
    requires 0 <= i < |FromRules(rules, bookings, len, days, now).value|
    requires s in FromRules(rules, bookings, len, days, now).value[i].slots
    ensures var e := FromRules(rules, bookings, len, days, now).value[i];
      var w := Window(rules, e.date, now);
      && w.Open?
      && w.start <= s && s + len <= w.end
      && DateOf(s) == e.date
      && s >= TruncateToMinute(now)
      && (exists k: nat :: s == Candidate(w.start, len, k))
      && forall j :: 0 <= j < |bookings| && bookings[j].status == Confirmed && w.start <= bookings[j].start < w.end
           ==> !Overlaps(s, s + len, bookings[j].start, bookings[j].end)
  {
    FromRulesEntries(rules, bookings, len, days, now);
    var e := FromRules(rules, bookings, len, days, now).value[i];
    var w := Window(rules, e.date, now);
    SlotsSound(w.start, w.end, len, Blocking(bookings, w.start, w.end), s);
    ConflictOnTable(s, s + len, bookings, w.start, w.end);
    WindowBounds(rules, e.date, now);
    if e.date > DateOf(now) {
      assert e.date * DayUs > now;
    }
  }

  /**
   * Every candidate start in an open window of a day in range that fits before the
   * closing time and overlaps no confirmed booking starting in the window is offered.
   */
  lemma FromRulesComplete(rules: map<int, ProviderWorkingHours>, bookings: seq<Booking>, len: Step, days: int, now: Instant,
                          d: Day, k: nat)
    requires FromRules(rules, bookings, len, days, now).Success?
    requires DateOf(now) <= d < DateOf(now) + days
    requires Window(rules, d, now).Open?
    requires var w := Window(rules, d, now);
      var s := Candidate(w.start, len, k);
      && s + len <= w.end
      && forall j :: 0 <= j < |bookings| && bookings[j].status == Confirmed && w.start <= bookings[j].start < w.end
           ==> !Overlaps(s, s + len, bookings[j].start, bookings[j].end)
    ensures var es := FromRules(rules, bookings, len, days, now).value;
      exists i :: 0 <= i < |es| && es[i].date == d && Candidate(Window(rules, d, now).start, len, k) in es[i].slots
  {
    var entry := EntriesOf(rules, bookings, len, now);
    var w := Window(rules, d, now);
    var s := Candidate(w.start, len, k);
    ConflictOnTable(s, s + len, bookings, w.start, w.end);
    SlotsComplete(w.start, w.end, len, Blocking(bookings, w.start, w.end), k);
    assert entry(d).Success? && entry(d).value.Some?;
    CollectCovers(entry, DateOf(now), 0, days, d);
  }

  /**
   * Cancelling a booking frees its time: a candidate that no other confirmed booking
   * starting in the window overlaps is a slot once that booking is cancelled.
   */
  lemma CancelFreesSlot(bookings: seq<Booking>, idx: int, ws: Instant, de: Instant, len: Step, k: nat)
    requires 0 <= idx < |bookings|
    requires Candidate(ws, len, k) + len <= de
    requires forall j :: 0 <= j < |bookings| && j != idx && bookings[j].status == Confirmed && ws <= bookings[j].start < de
               ==> !Overlaps(Candidate(ws, len, k), Candidate(ws, len, k) + len, bookings[j].start, bookings[j].end)
    ensures Candidate(ws, len, k) in Slots(ws, de, len, Blocking(bookings[idx := bookings[idx].(status := Cancelled)], ws, de))
  {
    var after := bookings[idx := bookings[idx].(status := Cancelled)];
    var s := Candidate(ws, len, k);
    ConflictOnTable(s, s + len, after, ws, de);
    SlotsComplete(ws, de, len, Blocking(after, ws, de), k);
  }

  /** A rule whose times were written by `FormatHHMM` opens and closes at those times of the day. */
  lemma TimesOnFormatted(wh: ProviderWorkingHours, day: Day, sh: int, sm: int, eh: int, em: int)
    requires 0 <= sh < 24 && 0 <= sm < 60 && 0 <= eh < 24 && 0 <= em < 60
    requires wh.startTime == Some(FormatHHMM(sh, sm)) && wh.endTime == Some(FormatHHMM(eh, em))
    ensures TimesOn(wh, day) == Times(AtTimeOfDay(day, sh, sm).value, AtTimeOfDay(day, eh, em).value)
  {
    ParseFormatHHMM(sh, sm);
    ParseFormatHHMM(eh, em);
    assert ParseHHMM(OrDefault(wh.startTime, "09:00")) == Some((sh, sm));
    assert ParseHHMM(OrDefault(wh.endTime, "17:00")) == Some((eh, em));
  }

  /** The entry of a day whose window is open: its free slots, or nothing when there are none. */
  lemma DayEntryOfOpen(rules: map<int, ProviderWorkingHours>, bookings: seq<Booking>, len: Step, day: Day, now: Instant, ws: Instant, de: Instant)
    requires Window(rules, day, now) == Open(ws, de)
    ensures var slots := Slots(ws, de, len, Blocking(bookings, ws, de));
      DayEntry(rules, bookings, len, day, now) == Success(if slots == [] then None else Some(DayAvailability(day, slots)))
  {
  }

  /** A window exactly one slot long, with nothing loaded, holds that one slot. */
  lemma SlotsOfOneSlot(from: Instant, len: Step)
    ensures Slots(from, from + len, len, []) == [from]
  {
    assert Slots(from + len, from + len, len, []) == [];
    assert !Conflict(from, from + len, []);
  }

  /** A window shorter than a slot holds no slot. */
  lemma SlotsTooShort(from: Instant, end: Instant, len: Step, blocking: seq<Booking>)
    requires end < from + len
    ensures Slots(from, end, len, blocking) == []
  {
  }

  /** The rule 09:00 to 10:00, open on the weekday of `day`. */
  function NineToTen(day: Day): ProviderWorkingHours {
    ProviderWorkingHours(1, 1, Weekday(day), false, Some("09:00"), Some("10:00"))
  }

  /** On a future day the rule 09:00 to 10:00 gives the window 09:00 to 10:00. */
  lemma NineToTenWindow(day: Day, now: Instant)
    requires DateOf(now) < day
    ensures Window(map[Weekday(day) := NineToTen(day)], day, now) == Open(day * DayUs + 9 * HourUs, day * DayUs + 10 * HourUs)
  {
    assert FormatHHMM(9, 0) == "09:00";
    assert FormatHHMM(10, 0) == "10:00";
    TimesOnFormatted(NineToTen(day), day, 9, 0, 10, 0);
    assert now < day * DayUs;
  }

  /** A future day open 09:00 to 10:00 on which no booking is loaded offers 09:00 to a 60-minute service. */
  lemma NineToTenUnblocked(day: Day, now: Instant, bookings: seq<Booking>)
    requires DateOf(now) < day
    requires Blocking(bookings, day * DayUs + 9 * HourUs, day * DayUs + 10 * HourUs) == []
    ensures DayEntry(map[Weekday(day) := NineToTen(day)], bookings, 60 * MinuteUs, day, now)
        == Success(Some(DayAvailability(day, [day * DayUs + 9 * HourUs])))
  {
    var ws, de := day * DayUs + 9 * HourUs, day * DayUs + 10 * HourUs;
    NineToTenWindow(day, now);
    SlotsOfOneSlot(ws, 60 * MinuteUs);
    assert de == ws + 60 * MinuteUs;
    assert Slots(ws, de, 60 * MinuteUs, Blocking(bookings, ws, de)) == [ws];
    DayEntryOfOpen(map[Weekday(day) := NineToTen(day)], bookings, 60 * MinuteUs, day, now, ws, de);
  }

  /**
   * A future day open 09:00 to 10:00 with no bookings offers the single slot 09:00 to a
   * 60-minute service and nothing to a 61-minute one.
   */
  lemma OneHourDay(day: Day, now: Instant)
    requires DateOf(now) < day
    ensures DayEntry(map[Weekday(day) := NineToTen(day)], [], 60 * MinuteUs, day, now)
        == Success(Some(DayAvailability(day, [day * DayUs + 9 * HourUs])))
    ensures DayEntry(map[Weekday(day) := NineToTen(day)], [], 61 * MinuteUs, day, now) == Success(None)
  {
    var opening := day * DayUs + 9 * HourUs;
    NineToTenUnblocked(day, now, []);
    NineToTenWindow(day, now);
    SlotsTooShort(opening, opening + HourUs, 61 * MinuteUs, []);
    DayEntryOfOpen(map[Weekday(day) := NineToTen(day)], [], 61 * MinuteUs, day, now, opening, opening + HourUs);
  }

  /**
   * Bookings are only loaded when they start inside the window, so one that starts before
   * opening and runs into it does not block the day: a future day open 09:00 to 10:00
   * offers 09:00 to a 60-minute service although a confirmed 08:30 to 09:30 booking of the
   * same provider overlaps it, and create_booking's overlap query would reject that slot.
   */
  lemma OverhangingBookingIgnored(day: Day, now: Instant)
    requires DateOf(now) < day
    ensures var opening := day * DayUs + 9 * HourUs;
      var early := Booking(1, 2, 3, opening - 30 * MinuteUs, opening + 30 * MinuteUs, Confirmed);
      var services := map[3 := Service(1, "cut", 60)];
      && DayEntry(map[Weekday(day) := NineToTen(day)], OfProvider([early], services, 1), 60 * MinuteUs, day, now)
         == Success(Some(DayAvailability(day, [opening])))
      && SlotTaken([early], services, 1, opening, opening + 60 * MinuteUs)
  {
    var opening := day * DayUs + 9 * HourUs;
    var early := Booking(1, 2, 3, opening - 30 * MinuteUs, opening + 30 * MinuteUs, Confirmed);
    var services := map[3 := Service(1, "cut", 60)];
    var mine := OfProvider([early], services, 1);
    assert BelongsTo(services, early, 1);
    assert early in mine;
    assert mine == [early];
    var loaded := Blocking(mine, opening, opening + HourUs);
    assert early.start < opening;
    assert loaded == [];
    NineToTenUnblocked(day, now, mine);
    assert [early][0] == early;
  }
}
