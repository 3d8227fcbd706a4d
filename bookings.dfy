/**
 * Booking intervals and the engine's non-overlap rule: among the confirmed bookings of
 * one provider no two half-open intervals `[start, end)` intersect.
 */
module Bookings {
  import opened Wrappers
  import opened Time
  import opened Models
  import opened Seqs

  /**
   * Half-open intersection of `[aStart, aEnd)` and `[bStart, bEnd)`. It is both
   * create_booking's `start < new_end and end > new_start` and availability's
   * `not (slot_end <= b.start or slot_start >= b.end)`.
   */
  predicate Overlaps(aStart: Instant, aEnd: Instant, bStart: Instant, bEnd: Instant) {
    aStart < bEnd && bStart < aEnd
  }

  /** The booking's service exists and belongs to the provider (the join through services). */
  predicate BelongsTo(services: map<int, Service>, b: Booking, providerId: int) {
    b.serviceId in services && services[b.serviceId].providerId == providerId
  }

  /** Two bookings of the same provider, through their services. */
  predicate SameProvider(services: map<int, Service>, a: Booking, b: Booking) {
    a.serviceId in services && b.serviceId in services
    && services[a.serviceId].providerId == services[b.serviceId].providerId
  }

  /** The engine's invariant: confirmed bookings of one provider never overlap. */
  ghost predicate NoDoubleBooking(bookings: seq<Booking>, services: map<int, Service>) {
    forall i, j :: 0 <= i < j < |bookings| ==>
      bookings[i].status == Confirmed && bookings[j].status == Confirmed
      && SameProvider(services, bookings[i], bookings[j])
      ==> !Overlaps(bookings[i].start, bookings[i].end, bookings[j].start, bookings[j].end)
  }

  /** create_booking's conflict query: a confirmed booking of the provider overlapping `[start, end)`. */
  predicate SlotTaken(bookings: seq<Booking>, services: map<int, Service>, providerId: int, start: Instant, end: Instant) {
    exists i :: 0 <= i < |bookings| && bookings[i].status == Confirmed
      && BelongsTo(services, bookings[i], providerId)
      && Overlaps(bookings[i].start, bookings[i].end, start, end)
  }

  /** All bookings whose service belongs to the provider, in table order. */
  function OfProvider(bookings: seq<Booking>, services: map<int, Service>, providerId: int): (r: seq<Booking>)
    ensures forall i :: 0 <= i < |r| ==> r[i] in bookings && BelongsTo(services, r[i], providerId)
    ensures forall i :: 0 <= i < |bookings| && BelongsTo(services, bookings[i], providerId) ==> bookings[i] in r
  {
    Filter(bookings, (b: Booking) => BelongsTo(services, b, providerId))
  }

  /**
   * For a confirmed booking appended to a table that keeps the invariant, the conflict
   * query is exact: the table still keeps it if and only if the query finds nothing.
   */
  lemma AppendKeepsNoDoubleBooking(bookings: seq<Booking>, services: map<int, Service>, b: Booking)
    requires NoDoubleBooking(bookings, services)
    requires b.serviceId in services && b.status == Confirmed
    ensures NoDoubleBooking(bookings + [b], services)
        <==> !SlotTaken(bookings, services, services[b.serviceId].providerId, b.start, b.end)
  {
    var bs := bookings + [b];
    var pid := services[b.serviceId].providerId;
    if SlotTaken(bookings, services, pid, b.start, b.end) {
      var i :| 0 <= i < |bookings| && bookings[i].status == Confirmed
        && BelongsTo(services, bookings[i], pid)
        && Overlaps(bookings[i].start, bookings[i].end, b.start, b.end);
      assert bs[i] == bookings[i] && bs[|bookings|] == b;
      assert SameProvider(services, bs[i], bs[|bookings|]);
    } else {
      forall i, j | 0 <= i < j < |bs| && bs[i].status == Confirmed && bs[j].status == Confirmed
        && SameProvider(services, bs[i], bs[j])
        ensures !Overlaps(bs[i].start, bs[i].end, bs[j].start, bs[j].end)
      {
        if j == |bookings| {
          assert BelongsTo(services, bookings[i], pid);
        }
      }
    }
  }

  /** Cancelling any booking keeps the invariant: it only removes a confirmed interval. */
  lemma CancelKeepsNoDoubleBooking(bookings: seq<Booking>, services: map<int, Service>, k: nat)
    requires NoDoubleBooking(bookings, services)
    requires k < |bookings|
    ensures NoDoubleBooking(bookings[k := bookings[k].(status := Cancelled)], services)
  {
  }
}
