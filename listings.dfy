/**
 * The read-only booking listings: a provider's bookings from now on, a customer's
 * bookings newest first, and a provider's confirmed bookings of today and of the coming
 * days. Each is a filter over the joined tables followed by an ordering on the start time.
 */
module Listings {
  import opened Wrappers
  import opened Time
  import opened Models
  import opened Bookings
  import opened Seqs

  function StartKey(b: Booking): int {
    b.start
  }

  /** `order_by(start_time.desc())` as an ascending order on the negated start. */
  function LatestFirstKey(b: Booking): int {
    -b.start
  }

  /**
   * A row of `list_bookings_for_provider`: the service, its provider and the customer all
   * exist, the service is the provider's, and the booking starts at or after `now`.
   * Every status is listed.
   */
  predicate ProviderListed(services: map<int, Service>, providers: map<int, Provider>, users: map<int, User>,
                           providerId: int, now: Instant, b: Booking) {
    && BelongsTo(services, b, providerId) && providerId in providers
    && b.customerId in users && b.start >= now
  }

  function ProviderBookings(bookings: seq<Booking>, services: map<int, Service>, providers: map<int, Provider>,
                            users: map<int, User>, providerId: int, now: Instant): (r: seq<Booking>)
    ensures SortedBy(r, StartKey)
    ensures |r| <= |bookings|
    ensures forall b :: b in r <==> b in bookings && ProviderListed(services, providers, users, providerId, now, b)
  {
    var p := (b: Booking) => ProviderListed(services, providers, users, providerId, now, b);
    SortFilterMembers(bookings, p, StartKey);
    SortBy(Filter(bookings, p), StartKey)
  }

  /** A row of `list_bookings_for_customer`: the customer's booking, joined to an existing service. */
  predicate CustomerListed(services: map<int, Service>, customerId: int, b: Booking) {
    b.customerId == customerId && b.serviceId in services
  }

  /** A customer's bookings, latest start first; nothing at all for an unknown customer id. */
  function CustomerBookings(bookings: seq<Booking>, services: map<int, Service>, users: map<int, User>,
                            customerId: int): (r: seq<Booking>)
    ensures customerId !in users ==> r == []
    ensures forall i, j :: 0 <= i < j < |r| ==> r[i].start >= r[j].start
    ensures |r| <= |bookings|
    ensures forall b :: b in r <==> customerId in users && b in bookings && CustomerListed(services, customerId, b)
  {
    if customerId !in users then []
    else
      var p := (b: Booking) => CustomerListed(services, customerId, b);
      SortFilterMembers(bookings, p, LatestFirstKey);
      var r := SortBy(Filter(bookings, p), LatestFirstKey);
      assert forall i, j :: 0 <= i < j < |r| ==> LatestFirstKey(r[i]) <= LatestFirstKey(r[j]);
      r
  }

  /** A row of the today and upcoming listings: a confirmed booking of the provider, with its customer, starting in `[from, to)`. */
  predicate ConfirmedIn(services: map<int, Service>, users: map<int, User>, providerId: int, from: Instant, to: Instant, b: Booking) {
    && BelongsTo(services, b, providerId) && b.customerId in users
    && from <= b.start < to && b.status == Confirmed
  }

  function ConfirmedBetween(bookings: seq<Booking>, services: map<int, Service>, users: map<int, User>,
                            providerId: int, from: Instant, to: Instant): (r: seq<Booking>)
    ensures SortedBy(r, StartKey)
    ensures |r| <= |bookings|
    ensures forall b :: b in r <==> b in bookings && ConfirmedIn(services, users, providerId, from, to, b)
  {
    var p := (b: Booking) => ConfirmedIn(services, users, providerId, from, to, b);
    SortFilterMembers(bookings, p, StartKey);
    SortBy(Filter(bookings, p), StartKey)
  }

  /** `list_todays_bookings_for_provider`. */
  function TodaysBookings(bookings: seq<Booking>, services: map<int, Service>, users: map<int, User>,
                          providerId: int, now: Instant): seq<Booking> {
    var w := TodayWindow(now);
    ConfirmedBetween(bookings, services, users, providerId, w.0, w.1)
  }

  /** `list_upcoming_bookings_for_provider`. */
  function UpcomingBookings(bookings: seq<Booking>, services: map<int, Service>, users: map<int, User>,
                            providerId: int, now: Instant, daysAhead: int): seq<Booking> {
    var w := UpcomingWindow(now, daysAhead);
    ConfirmedBetween(bookings, services, users, providerId, w.0, w.1)
  }

  /** Today's listing is exactly the provider's confirmed bookings dated today, in start order. */
  lemma TodaysAreDatedToday(bookings: seq<Booking>, services: map<int, Service>, users: map<int, User>,
                            providerId: int, now: Instant, b: Booking)
    ensures SortedBy(TodaysBookings(bookings, services, users, providerId, now), StartKey)
    ensures b in TodaysBookings(bookings, services, users, providerId, now) <==>
      && b in bookings && BelongsTo(services, b, providerId) && b.customerId in users
      && b.status == Confirmed && DateOf(b.start) == DateOf(now)
  {
    var w := TodayWindow(now);
    var d := DateOf(b.start);
    assert w.0 == DateOf(now) * DayUs;
    if w.0 <= b.start < w.1 {
      assert (d - DateOf(now)) * DayUs < DayUs && (DateOf(now) - d) * DayUs < DayUs;
    }
  }

  /**
   * The upcoming listing holds the provider's confirmed bookings dated from tomorrow
   * to `daysAhead` days after today, in start order.
   */
  lemma UpcomingAreDatedAhead(bookings: seq<Booking>, services: map<int, Service>, users: map<int, User>,
                              providerId: int, now: Instant, daysAhead: int, b: Booking)
    ensures SortedBy(UpcomingBookings(bookings, services, users, providerId, now, daysAhead), StartKey)
    ensures b in UpcomingBookings(bookings, services, users, providerId, now, daysAhead) <==>
      && b in bookings && BelongsTo(services, b, providerId) && b.customerId in users
      && b.status == Confirmed && DateOf(now) < DateOf(b.start) <= DateOf(now) + daysAhead
  {
    var w := UpcomingWindow(now, daysAhead);
    var t := DateOf(now) + 1;
    var d := DateOf(b.start);
    assert w.0 == t * DayUs && w.1 == (t + daysAhead) * DayUs;
    if w.0 <= b.start < w.1 {
      assert t * DayUs < d * DayUs + DayUs && d * DayUs < (t + daysAhead) * DayUs;
      assert t - 1 < d < t + daysAhead;
    }
    if t <= d < t + daysAhead {
      assert t * DayUs <= d * DayUs && (d + 1) * DayUs <= (t + daysAhead) * DayUs;
    }
  }

  /** No booking is in both today's and the upcoming listing. */
  lemma TodayAndUpcomingDisjoint(bookings: seq<Booking>, services: map<int, Service>, users: map<int, User>,
                                 providerId: int, now: Instant, daysAhead: int, b: Booking)
    ensures !(b in TodaysBookings(bookings, services, users, providerId, now)
              && b in UpcomingBookings(bookings, services, users, providerId, now, daysAhead))
  {
    TodaysAreDatedToday(bookings, services, users, providerId, now, b);
    UpcomingAreDatedAhead(bookings, services, users, providerId, now, daysAhead, b);
  }
}
