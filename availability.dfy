/**
 * The loops of `get_provider_availability`, once the service is found and the working
 * hours are loaded: build the weekday rules, walk the days, walk each day's candidates
 * in steps of the service duration, and test each candidate against the loaded bookings.
 */
module Availability {
  import opened Wrappers
  import opened Time
  import opened Models
  import opened Bookings
  import opened AvailabilitySpec

  /** `not (slot_end <= b.start_time or slot_start >= b.end_time)`, the source's own overlap test. */
  predicate SlotOverlaps(slotStart: Instant, slotEnd: Instant, b: Booking)
    ensures SlotOverlaps(slotStart, slotEnd, b) <==> Overlaps(slotStart, slotEnd, b.start, b.end)
  {
    !(slotEnd <= b.start || slotStart >= b.end)
  }

  /** The `for b in bookings` loop with its `break`: does any loaded booking overlap the slot? */
  method HasConflict(slotStart: Instant, slotEnd: Instant, blocking: seq<Booking>) returns (conflict: bool)
    ensures conflict == Conflict(slotStart, slotEnd, blocking)
  {
    conflict := false;
    var j := 0;
    while j < |blocking| && !conflict
      invariant 0 <= j <= |blocking|
      invariant conflict ==> Conflict(slotStart, slotEnd, blocking)
      invariant !conflict ==> forall m :: 0 <= m < j ==> !Overlaps(slotStart, slotEnd, blocking[m].start, blocking[m].end)
    {
      if SlotOverlaps(slotStart, slotEnd, blocking[j]) {
        conflict := true;
      }
      j := j + 1;
    }
  }

  /** One candidate of the slot loop: its slot, if free, joins the partial result, and the loop moves on. */
  lemma SlotsNext(acc: seq<Instant>, from: Instant, end: Instant, len: Step, blocking: seq<Booking>)
    requires from + len <= end
    ensures acc + Slots(from, end, len, blocking)
         == (acc + (if Conflict(from, from + len, blocking) then [] else [from])) + Slots(from + len, end, len, blocking)
  {
    var found := if Conflict(from, from + len, blocking) then [] else [from];
    var later := Slots(from + len, end, len, blocking);
    assert Slots(from, end, len, blocking) == found + later;
    assert acc + (found + later) == (acc + found) + later;
  }

  /** The `while slot_start + slot_duration <= day_end` loop of one day. */
  method DaySlots(dayStart: Instant, dayEnd: Instant, len: Step, blocking: seq<Booking>) returns (slots: seq<Instant>)
    ensures slots == Slots(dayStart, dayEnd, len, blocking)
  {
    ghost var all := Slots(dayStart, dayEnd, len, blocking);
    slots := [];
    var slotStart := dayStart;
    assert [] + all == all;
    while slotStart + len <= dayEnd
      invariant slots + Slots(slotStart, dayEnd, len, blocking) == all
      decreases dayEnd - slotStart
    {
      var slotEnd := slotStart + len;
      var conflict := HasConflict(slotStart, slotEnd, blocking);
      SlotsNext(slots, slotStart, dayEnd, len, blocking);
      if !conflict {
        slots := slots + [slotStart];
      } else {
        assert slots + [] == slots;
      }
      slotStart := slotEnd;
    }
    assert Slots(slotStart, dayEnd, len, blocking) == [];
    assert slots + [] == slots;
  }

  /** A partial result `acc` followed by what the rest of the loop yields. */
  function Prepend(acc: seq<DayAvailability>, rest: Result<seq<DayAvailability>, AvailabilityError>)
    : (r: Result<seq<DayAvailability>, AvailabilityError>)
    ensures r.Failure? <==> rest.Failure?
    ensures r.Success? ==> r.value == acc + rest.value
  {
    match rest
    case Failure(e) => Failure(e)
    case Success(v) => Success(acc + v)
  }

  /** What a successful day adds to the result: its entry, if it has one. */
  function Found(e: Option<DayAvailability>): (r: seq<DayAvailability>)
    ensures e.None? ==> r == []
    ensures e.Some? ==> r == [e.value]
  {
    if e.Some? then [e.value] else []
  }

  /** One more day of the loop: a failing day ends it with its error; otherwise the day's entry, if any, moves from the rest onto the partial result. */
  lemma PrependDay(entry: Entries, today: Day, k: int, d: Day, days: int, acc: seq<DayAvailability>,
                   r: Result<Option<DayAvailability>, AvailabilityError>)
    requires k < days && d == today + k && entry(d) == r
    ensures r.Failure? ==> Prepend(acc, Collect(entry, today, k, days)) == Failure(r.error)
    ensures r.Success? ==>
      Prepend(acc, Collect(entry, today, k, days)) == Prepend(acc + Found(r.value), Collect(entry, today, k + 1, days))
  {
    if r.Success? {
      var rest := Collect(entry, today, k + 1, days);
      if rest.Success? {
        assert acc + (Found(r.value) + rest.value) == (acc + Found(r.value)) + rest.value;
      }
    }
  }

  /**
   * One iteration of the `for offset in range(days)` loop: no rule or a bad time format
   * gives nothing, a `datetime` that Python rejects is an error, and otherwise the day's
   * free slots, if there are any.
   */
  method ComputeDay(rules: map<int, ProviderWorkingHours>, bookings: seq<Booking>, len: Step, day: Day, now: Instant)
    returns (r: Result<Option<DayAvailability>, AvailabilityError>)
    ensures r == EntriesOf(rules, bookings, len, now)(day)
  {
    EntriesOfDay(rules, bookings, len, now, day);
    var weekday := Weekday(day);
    if weekday !in rules {
      assert Window(rules, day, now) == NoRule;
      return Success(None);
    }
    var wh := rules[weekday];
    match TimesOn(wh, day)
    case BadFormat =>
      assert Window(rules, day, now) == Unparsable;
      return Success(None);
    case BadRange =>
      assert Window(rules, day, now) == OutOfRange;
      return Failure(InvalidTime);
    case Times(opening, closing) =>
      var dayStart, dayEnd := opening, closing;
      if day == DateOf(now) && now > dayStart {
        dayStart := TruncateToMinute(now);
      }
      assert Window(rules, day, now) == Open(dayStart, dayEnd);
      var blocking := Blocking(bookings, dayStart, dayEnd);
      var slotsForDay := DaySlots(dayStart, dayEnd, len, blocking);
      DayEntryOfOpen(rules, bookings, len, day, now, dayStart, dayEnd);
      if slotsForDay == [] {
        return Success(None);
      }
      return Success(Some(DayAvailability(day, slotsForDay)));
  }

  /** The `for offset in range(days)` loop; the first error ends the whole call. */
  method CollectDays(rules: map<int, ProviderWorkingHours>, bookings: seq<Booking>, len: Step, days: int, now: Instant)
    returns (r: Result<seq<DayAvailability>, AvailabilityError>)
    ensures r == FromRules(rules, bookings, len, days, now)
  {
    ghost var full := FromRules(rules, bookings, len, days, now);
    var availability: seq<DayAvailability> := [];
    var offset := 0;
    if full.Success? {
      assert [] + full.value == full.value;
    }
    while offset < days
      invariant 0 <= offset
      invariant days > 0 ==> offset <= days
      invariant full == Prepend(availability, Collect(EntriesOf(rules, bookings, len, now), DateOf(now), offset, days))
      decreases days - offset
    {
      var day := DateAfter(now, offset);
      var dayResult := ComputeDay(rules, bookings, len, day, now);
      PrependDay(EntriesOf(rules, bookings, len, now), DateOf(now), offset, day, days, availability, dayResult);
      if dayResult.Failure? {
        return Failure(dayResult.error);
      }
      availability := availability + Found(dayResult.value);
      offset := offset + 1;
    }
    assert availability + [] == availability;
    return Success(availability);
  }

  /** The whole computation once the provider's working-hours rows are loaded: `wh_by_weekday`, then the days. */
  method ComputeAvailability(rows: seq<ProviderWorkingHours>, bookings: seq<Booking>, durationMinutes: int, days: int, now: Instant)
    returns (r: Result<seq<DayAvailability>, AvailabilityError>)
    requires durationMinutes > 0
    ensures r == Availability(rows, bookings, durationMinutes, days, now)
  {
    var rules: map<int, ProviderWorkingHours> := map[];
    var i := 0;
    while i < |rows|
      invariant 0 <= i <= |rows|
      invariant rules == OpenRules(rows[..i])
    {
      var wh := rows[i];
      assert rows[..i + 1][..i] == rows[..i];
      if !wh.isClosed && !(wh.startTime.None? || wh.startTime.value == "" || wh.endTime.None? || wh.endTime.value == "") {
        rules := rules[wh.weekday := wh];
      }
      i := i + 1;
    }
    assert rows[..|rows|] == rows;
    r := CollectDays(rules, bookings, durationMinutes * MinuteUs, days, now);
  }
}
