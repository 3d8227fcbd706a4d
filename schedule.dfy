/**
 * The provider working-hours table: the seven closed default rows that
 * `get_or_create_working_hours_for_provider` inserts, and the fold over the request
 * items that `set_working_hours_for_provider` performs on the rows it found.
 */
module Schedule {
  import opened Wrappers
  import opened Time
  import opened Models
  import opened Seqs
  import opened AvailabilitySpec

  /** The rows of one provider, in table order. */
  function HoursOf(table: seq<ProviderWorkingHours>, providerId: int): (r: seq<ProviderWorkingHours>)
    ensures forall i :: 0 <= i < |r| ==> r[i] in table && r[i].providerId == providerId
    ensures forall i :: 0 <= i < |table| && table[i].providerId == providerId ==> table[i] in r
  {
    Filter(table, (wh: ProviderWorkingHours) => wh.providerId == providerId)
  }

  function WeekdayKey(wh: ProviderWorkingHours): int {
    wh.weekday
  }

  /** The query both functions return: the provider's rows ordered by weekday. */
  function SortedHours(table: seq<ProviderWorkingHours>, providerId: int): (r: seq<ProviderWorkingHours>)
    ensures SortedBy(r, WeekdayKey)
    ensures multiset(r) == multiset(HoursOf(table, providerId))
  {
    SortBy(HoursOf(table, providerId), WeekdayKey)
  }

  /** The seven rows created for a provider without any: weekdays 0 to 6, closed, 09:00 to 17:00. */
  function DefaultWeek(providerId: int, firstId: int): (r: seq<ProviderWorkingHours>)
    ensures |r| == 7
    ensures forall i :: 0 <= i < |r| ==>
      && r[i].id == firstId + i && r[i].providerId == providerId && r[i].weekday == i
      && r[i].isClosed && r[i].startTime == Some("09:00") && r[i].endTime == Some("17:00")
  {
    seq(7, i => ProviderWorkingHours(firstId + i, providerId, i, true, Some("09:00"), Some("17:00")))
  }

  /** The first `k + 1` default rows are the first `k` and the row for weekday `k`. */
  lemma DefaultWeekSnoc(providerId: int, firstId: int, k: int)
    requires 0 <= k < 7
    ensures DefaultWeek(providerId, firstId)[..k + 1]
      == DefaultWeek(providerId, firstId)[..k] + [ProviderWorkingHours(firstId + k, providerId, k, true, Some("09:00"), Some("17:00"))]
  {
    var week := DefaultWeek(providerId, firstId);
    assert week[..k + 1] == week[..k] + [week[k]];
  }

  /** Rows that are all closed give no weekday rule. */
  lemma {:induction false} OpenRulesAllClosed(rows: seq<ProviderWorkingHours>)
    requires forall i :: 0 <= i < |rows| ==> rows[i].isClosed
    ensures OpenRules(rows) == map[]
    decreases |rows|
  {
    if rows != [] {
      OpenRulesAllClosed(rows[..|rows| - 1]);
    }
  }

  /** Without weekday rules no day is offered. */
  lemma {:induction false} CollectAllEmpty(entry: Entries, today: Day, k: int, days: int)
    requires forall d :: entry(d) == Success(None)
    ensures Collect(entry, today, k, days) == Success([])
    decreases days - k
  {
    if k < days {
      CollectAllEmpty(entry, today, k + 1, days);
      assert entry(today + k) == Success(None);
      var none: seq<DayAvailability> := [];
      assert none + none == none;
    }
  }

  /** A provider whose only rows are the defaults has no availability at all. */
  lemma DefaultWeekOffersNothing(providerId: int, firstId: int, bookings: seq<Booking>, durationMinutes: int, days: int, now: Instant)
    requires durationMinutes > 0
    ensures Availability(DefaultWeek(providerId, firstId), bookings, durationMinutes, days, now) == Success([])
  {
    OpenRulesAllClosed(DefaultWeek(providerId, firstId));
    var entry := EntriesOf(map[], bookings, durationMinutes * MinuteUs, now);
    forall d ensures entry(d) == Success(None) {
      assert Window(map[], d, now) == NoRule;
    }
    CollectAllEmpty(entry, DateOf(now), 0, days);
  }

  /** After the defaults are added for a provider that had no rows, the provider's rows are exactly the defaults, in order. */
  lemma DefaultsAreTheProvidersRows(table: seq<ProviderWorkingHours>, providerId: int, firstId: int)
    requires HoursOf(table, providerId) == []
    ensures HoursOf(table + DefaultWeek(providerId, firstId), providerId) == DefaultWeek(providerId, firstId)
    ensures SortedHours(table + DefaultWeek(providerId, firstId), providerId) == DefaultWeek(providerId, firstId)
  {
    var week := DefaultWeek(providerId, firstId);
    var p := (wh: ProviderWorkingHours) => wh.providerId == providerId;
    FilterAppend(table, week, p);
    FilterAll(week, p);
    assert SortedBy(week, WeekdayKey);
    SortBySorted(week, WeekdayKey);
  }

  /** One element of the request's `hours_list`; a missing `is_closed` key is None. */
  datatype HoursItem = HoursItem(weekday: int, isClosed: Option<bool>, startTime: Option<string>, endTime: Option<string>)

  /** `item.get("is_closed", True)`. */
  function ClosedFlag(item: HoursItem): bool {
    if item.isClosed.Some? then item.isClosed.value else true
  }

  /**
   * The `existing` dict: weekday to the position of a row of the provider with that
   * weekday; when there are several, the last one in table order.
   */
  function ExistingByWeekday(table: seq<ProviderWorkingHours>, providerId: int): (m: map<int, nat>)
    ensures forall w :: w in m ==> m[w] < |table| && table[m[w]].providerId == providerId && table[m[w]].weekday == w
    decreases |table|
  {
    if table == [] then map[]
    else
      var m := ExistingByWeekday(table[..|table| - 1], providerId);
      var wh := table[|table| - 1];
      if wh.providerId == providerId then m[wh.weekday := |table| - 1] else m
  }

  /** Every weekday for which the provider has a row is in the dict, at its last such row. */
  lemma {:induction false} ExistingByWeekdayCovers(table: seq<ProviderWorkingHours>, providerId: int, k: int)
    requires 0 <= k < |table| && table[k].providerId == providerId
    ensures table[k].weekday in ExistingByWeekday(table, providerId)
    ensures ExistingByWeekday(table, providerId)[table[k].weekday] >= k
    decreases |table|
  {
    if k < |table| - 1 {
      var init := table[..|table| - 1];
      assert init[k] == table[k];
      ExistingByWeekdayCovers(init, providerId, k);
    }
  }

  /** The working-hours rows with the next id the database will assign. */
  datatype HoursTable = HoursTable(rows: seq<ProviderWorkingHours>, nextId: int)

  predicate PositionsIn(existing: map<int, nat>, rows: seq<ProviderWorkingHours>) {
    forall w :: w in existing ==> existing[w] < |rows|
  }

  /** An existing row after an item is applied to it: new closed flag and times, the rest kept. */
  function Updated(row: ProviderWorkingHours, item: HoursItem): ProviderWorkingHours {
    row.(isClosed := ClosedFlag(item), startTime := item.startTime, endTime := item.endTime)
  }

  /** The row created for an item whose weekday has no existing row. */
  function NewRow(providerId: int, id: int, item: HoursItem): ProviderWorkingHours {
    ProviderWorkingHours(id, providerId, item.weekday, ClosedFlag(item), item.startTime, item.endTime)
  }

  /** One iteration of the `for item in hours_list` loop. */
  function ApplyItem(t: HoursTable, existing: map<int, nat>, providerId: int, item: HoursItem): (r: HoursTable)
    requires PositionsIn(existing, t.rows)
    ensures PositionsIn(existing, r.rows)
  {
    if item.weekday in existing then
      var k := existing[item.weekday];
      HoursTable(t.rows[k := Updated(t.rows[k], item)], t.nextId)
    else
      HoursTable(t.rows + [NewRow(providerId, t.nextId, item)], t.nextId + 1)
  }

  /** The whole loop: the items applied in order. The dict is not updated for rows the loop creates. */
  function ApplyItems(t: HoursTable, existing: map<int, nat>, providerId: int, items: seq<HoursItem>): (r: HoursTable)
    requires PositionsIn(existing, t.rows)
    ensures PositionsIn(existing, r.rows)
    decreases |items|
  {
    if items == [] then t
    else ApplyItem(ApplyItems(t, existing, providerId, items[..|items| - 1]), existing, providerId, items[|items| - 1])
  }

  /** Item `j` names the weekday, and no later item does. */
  predicate IsLastFor(items: seq<HoursItem>, weekday: int, j: int) {
    && 0 <= j < |items| && items[j].weekday == weekday
    && forall k :: j < k < |items| ==> items[k].weekday != weekday
  }

  /** The last item naming a weekday: the one whose values the row keeps. */
  function LastItemFor(items: seq<HoursItem>, weekday: int): (r: Option<HoursItem>)
    ensures r.Some? ==> r.value in items && r.value.weekday == weekday
    ensures r.Some? ==> exists j :: IsLastFor(items, weekday, j) && items[j] == r.value
    ensures r.None? ==> forall i :: 0 <= i < |items| ==> items[i].weekday != weekday
    decreases |items|
  {
    if items == [] then None
    else if items[|items| - 1].weekday == weekday then
      assert IsLastFor(items, weekday, |items| - 1);
      Some(items[|items| - 1])
    else
      var prefix := items[..|items| - 1];
      var r := LastItemFor(prefix, weekday);
      if r.Some? then LastForExtends(items, prefix, weekday, r.value); r else r
  }

  /** The last item for a weekday among all but the final item stays last when the final one names another weekday. */
  lemma LastForExtends(items: seq<HoursItem>, prefix: seq<HoursItem>, weekday: int, item: HoursItem)
    requires items != [] && prefix == items[..|items| - 1] && items[|items| - 1].weekday != weekday
    requires exists j :: IsLastFor(prefix, weekday, j) && prefix[j] == item
    ensures exists j :: IsLastFor(items, weekday, j) && items[j] == item
  {
    var j :| IsLastFor(prefix, weekday, j) && prefix[j] == item;
    assert IsLastFor(items, weekday, j);
  }

  /** The items that create rows: those whose weekday had no row of the provider before the call. */
  function NewItems(items: seq<HoursItem>, existing: map<int, nat>): seq<HoursItem> {
    Filter(items, (item: HoursItem) => item.weekday !in existing)
  }

  /** A position of the dict after the rows for the items are applied: the last item's values, or untouched. */
  function AfterItems(row: ProviderWorkingHours, items: seq<HoursItem>, weekday: int): ProviderWorkingHours {
    match LastItemFor(items, weekday)
    case None => row
    case Some(item) => Updated(row, item)
  }

  /** Rows `n ..` of `rows` are exactly the rows made for `news`, with consecutive ids from `firstId`. */
  predicate ListsNewRows(rows: seq<ProviderWorkingHours>, n: nat, providerId: int, firstId: int, news: seq<HoursItem>) {
    && |rows| == n + |news|
    && forall i :: 0 <= i < |news| ==> rows[n + i] == NewRow(providerId, firstId + i, news[i])
  }

  /**
   * One item either rewrites a row the dict points at, all below `n`, or appends a new
   * row with the next id: rows `n ..` keep listing the new rows, now one more if the item's
   * weekday had no row.
   */
  lemma ApplyItemAppends(mid: HoursTable, existing: map<int, nat>, providerId: int, item: HoursItem,
                         n: nat, firstId: int, before: seq<HoursItem>)
    requires PositionsIn(existing, mid.rows)
    requires forall w :: w in existing ==> existing[w] < n
    requires ListsNewRows(mid.rows, n, providerId, firstId, before) && mid.nextId == firstId + |before|
    ensures var r := ApplyItem(mid, existing, providerId, item);
      var after := before + (if item.weekday !in existing then [item] else []);
      ListsNewRows(r.rows, n, providerId, firstId, after) && r.nextId == firstId + |after|
  {
    var r := ApplyItem(mid, existing, providerId, item);
    if item.weekday in existing {
      var k := existing[item.weekday];
      assert before + [] == before;
      forall i | 0 <= i < |before| ensures r.rows[n + i] == NewRow(providerId, firstId + i, before[i]) {
        assert n + i != k;
      }
    } else {
      var after := before + [item];
      forall i | 0 <= i < |after| ensures r.rows[n + i] == NewRow(providerId, firstId + i, after[i]) {
        if i < |before| {
          assert after[i] == before[i];
        }
      }
    }
  }

  /** One more item is one more new item exactly when its weekday has no row. */
  lemma NewItemsSnoc(init: seq<HoursItem>, item: HoursItem, existing: map<int, nat>)
    ensures NewItems(init + [item], existing) == NewItems(init, existing) + (if item.weekday !in existing then [item] else [])
  {
    FilterAppend(init, [item], (it: HoursItem) => it.weekday !in existing);
  }

  /**
   * The rows the loop creates, stated without the loop: one per item whose weekday had
   * no row, in item order, with consecutive ids from the next free one.
   */
  lemma {:induction false} ApplyItemsAppends(t: HoursTable, existing: map<int, nat>, providerId: int, items: seq<HoursItem>)
    requires PositionsIn(existing, t.rows)
    ensures ListsNewRows(ApplyItems(t, existing, providerId, items).rows, |t.rows|, providerId, t.nextId, NewItems(items, existing))
    ensures ApplyItems(t, existing, providerId, items).nextId == t.nextId + |NewItems(items, existing)|
    decreases |items|
  {
    if items != [] {
      var init := items[..|items| - 1];
      var item := items[|items| - 1];
      assert items == init + [item];
      ApplyItemsAppends(t, existing, providerId, init);
      NewItemsSnoc(init, item, existing);
      var before := NewItems(init, existing);
      var mid := ApplyItems(t, existing, providerId, init);
      assert ApplyItems(t, existing, providerId, items) == ApplyItem(mid, existing, providerId, item);
      ApplyItemAppends(mid, existing, providerId, item, |t.rows|, t.nextId, before);
    } else {
      assert NewItems(items, existing) == [];
    }
  }

  /**
   * The rows that were there before, stated without the loop: those the dict does not
   * point at are untouched, and each one it points at takes the values of the last item
   * for its weekday.
   */
  lemma {:induction false} ApplyItemsUpdates(t: HoursTable, existing: map<int, nat>, providerId: int, items: seq<HoursItem>)
    requires PositionsIn(existing, t.rows)
    requires forall w :: w in existing ==> t.rows[existing[w]].weekday == w
    ensures |ApplyItems(t, existing, providerId, items).rows| >= |t.rows|
    ensures forall k :: 0 <= k < |t.rows| && k !in existing.Values ==> ApplyItems(t, existing, providerId, items).rows[k] == t.rows[k]
    ensures forall w :: w in existing ==>
      ApplyItems(t, existing, providerId, items).rows[existing[w]] == AfterItems(t.rows[existing[w]], items, w)
    decreases |items|
  {
    if items != [] {
      var init := items[..|items| - 1];
      var item := items[|items| - 1];
      ApplyItemsUpdates(t, existing, providerId, init);
      var r := ApplyItems(t, existing, providerId, items);
      forall w | w in existing
        ensures r.rows[existing[w]] == AfterItems(t.rows[existing[w]], items, w)
      {
        if item.weekday != w && item.weekday in existing {
          assert existing[item.weekday] != existing[w];
        }
      }
      forall k | 0 <= k < |t.rows| && k !in existing.Values
        ensures r.rows[k] == t.rows[k]
      {
        if item.weekday in existing {
          assert existing[item.weekday] in existing.Values;
        }
      }
    }
  }

  /** `set_working_hours_for_provider` on the table: the fold from the dict of the provider's rows. */
  function SetHours(t: HoursTable, providerId: int, items: seq<HoursItem>): HoursTable {
    ApplyItems(t, ExistingByWeekday(t.rows, providerId), providerId, items)
  }

  /**
   * After the call, every listed weekday has a row of the provider holding the values
   * of the last item for that weekday (closed defaulting to true).
   */
  lemma SetHoursListed(t: HoursTable, providerId: int, items: seq<HoursItem>, w: int)
    requires LastItemFor(items, w).Some?
    ensures var item := LastItemFor(items, w).value;
      exists k :: 0 <= k < |SetHours(t, providerId, items).rows|
        && SetHours(t, providerId, items).rows[k].providerId == providerId
        && SetHours(t, providerId, items).rows[k].weekday == w
        && SetHours(t, providerId, items).rows[k].isClosed == ClosedFlag(item)
        && SetHours(t, providerId, items).rows[k].startTime == item.startTime
        && SetHours(t, providerId, items).rows[k].endTime == item.endTime
  {
    var existing := ExistingByWeekday(t.rows, providerId);
    var item := LastItemFor(items, w).value;
    var r := SetHours(t, providerId, items);
    if w in existing {
      ApplyItemsUpdates(t, existing, providerId, items);
      assert r.rows[existing[w]] == Updated(t.rows[existing[w]], item);
    } else {
      ApplyItemsAppends(t, existing, providerId, items);
      var i :| 0 <= i < |items| && items[i] == item;
      var news := NewItems(items, existing);
      assert item in news;
      var j :| 0 <= j < |news| && news[j] == item;
      assert r.rows[|t.rows| + j] == NewRow(providerId, t.nextId + j, item);
    }
  }

  /** Rows of other providers, and the provider's rows for weekdays no item names, are untouched. */
  lemma SetHoursUnlisted(t: HoursTable, providerId: int, items: seq<HoursItem>, k: int)
    requires 0 <= k < |t.rows|
    requires t.rows[k].providerId != providerId || LastItemFor(items, t.rows[k].weekday).None?
    ensures k < |SetHours(t, providerId, items).rows|
    ensures SetHours(t, providerId, items).rows[k] == t.rows[k]
  {
    var existing := ExistingByWeekday(t.rows, providerId);
    ApplyItemsUpdates(t, existing, providerId, items);
    if k in existing.Values {
      var w :| w in existing && existing[w] == k;
      assert t.rows[k].weekday == w;
    }
  }

  /** Every row the call adds belongs to the provider and carries a weekday some item lists. */
  lemma SetHoursNewRows(t: HoursTable, providerId: int, items: seq<HoursItem>, k: int)
    requires |t.rows| <= k < |SetHours(t, providerId, items).rows|
    ensures SetHours(t, providerId, items).rows[k].providerId == providerId
    ensures exists i :: 0 <= i < |items| && items[i].weekday == SetHours(t, providerId, items).rows[k].weekday
    ensures SetHours(t, providerId, items).rows[k].id >= t.nextId
  {
    var existing := ExistingByWeekday(t.rows, providerId);
    ApplyItemsAppends(t, existing, providerId, items);
    var news := NewItems(items, existing);
    var item := news[k - |t.rows|];
    assert item in items;
  }
}
