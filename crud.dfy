/**
 * The database and the crud operations that change it (backend/app/crud.py). Each table
 * is a field; an operation is a method that reassigns the tables it writes, and a
 * rejected request leaves every table as it was, since nothing is committed.
 */
module Crud {
  import opened Wrappers
  import opened Time
  import opened Models
  import opened Seqs
  import opened Bookings
  import opened Promotions
  import opened Billing
  import opened AvailabilitySpec
  import Compute = Availability
  import opened Schedule
  import opened Professions

  /** The `ValueError`s `create_booking` raises. */
  datatype BookingError = ServiceNotFound | ProviderNotFound | ProviderLocked | SlotAlreadyBooked

  /** `cancel_booking_for_customer`'s query: the booking with this id, made by this customer. */
  function OwnedByCustomer(bookingId: int, customerId: int): Booking -> bool {
    (b: Booking) => b.id == bookingId && b.customerId == customerId
  }

  /** `cancel_booking_for_provider`'s query: the booking with this id, through its service, of this existing provider. */
  function OwnedByProvider(services: map<int, Service>, providers: map<int, Provider>, bookingId: int, providerId: int): Booking -> bool {
    (b: Booking) => b.id == bookingId && BelongsTo(services, b, providerId) && providerId in providers
  }

  /**
   * What the engine keeps true: booking ids increase in table order and stay below the
   * next id, every promotion is within its quota, and no provider is double-booked.
   */
  ghost predicate Invariant(bookings: seq<Booking>, nextBookingId: int, promotions: map<int, Promotion>, services: map<int, Service>) {
    && (forall i, j :: 0 <= i < j < |bookings| ==> bookings[i].id < bookings[j].id)
    && (forall i :: 0 <= i < |bookings| ==> bookings[i].id < nextBookingId)
    && (forall pid :: pid in promotions ==> WithinQuota(promotions[pid]))
    && NoDoubleBooking(bookings, services)
  }

  class Database {
    var users: map<int, User>
    var providers: map<int, Provider>
    var services: map<int, Service>
    var bills: seq<Bill>
    var bookings: seq<Booking>
    var nextBookingId: int
    var promotions: map<int, Promotion>
    var workingHours: seq<ProviderWorkingHours>
    var nextHoursId: int
    var professions: seq<ProviderProfession>
    var nextProfessionId: int

    /** `Invariant` of the booking and promotion tables. */
    ghost predicate Valid()
      reads this`bookings, this`nextBookingId, this`promotions, this`services
    {
      Invariant(bookings, nextBookingId, promotions, services)
    }

    /** A database holding the given users, providers, services and bills, and nothing else. */
    constructor (users: map<int, User>, providers: map<int, Provider>, services: map<int, Service>, bills: seq<Bill>)
      ensures this.users == users && this.providers == providers && this.services == services && this.bills == bills
      ensures bookings == [] && promotions == map[] && workingHours == [] && professions == []
      ensures nextBookingId == 1 && nextHoursId == 1 && nextProfessionId == 1
      ensures Valid()
    {
      this.users := users;
      this.providers := providers;
      this.services := services;
      this.bills := bills;
      bookings := [];
      nextBookingId := 1;
      promotions := map[];
      workingHours := [];
      nextHoursId := 1;
      professions := [];
      nextProfessionId := 1;
    }

    /**
     * `upsert_promotion`: the provider's promotion gets the new grant, with consumption
     * clamped down to it, or is created with none consumed. Other providers' promotions
     * are untouched. The quota stays kept unless a new promotion is given a negative grant.
     */
    method UpsertPromotion(providerId: int, freeTotal: int) returns (promo: Promotion)
      modifies this`promotions
      ensures promo == Upserted(if providerId in old(promotions) then Some(old(promotions)[providerId]) else None, freeTotal)
      ensures promotions == old(promotions)[providerId := promo]
      ensures old(Valid()) && (providerId in old(promotions) || freeTotal >= 0) ==> Valid()
    {
      if providerId in promotions {
        promo := promotions[providerId].(freeTotal := freeTotal);
        if freeTotal < promo.freeUsed {
          promo := promo.(freeUsed := freeTotal);
        }
      } else {
        promo := Promotion(freeTotal, 0);
      }
      promotions := promotions[providerId := promo];
    }

    /**
     * `create_booking`. It is rejected, in this order of checks, when the service is
     * missing, when its provider is missing, when the provider has an overdue unpaid bill
     * (due strictly before `utcNow`), or when a confirmed booking of the provider overlaps
     * `[start, start + duration)`; a rejection changes nothing, and there is no other
     * rejection of rows whose columns are set. Otherwise exactly one
     * confirmed booking with the next id is appended, and the provider's promotion, if
     * any, consumes one credit while credits remain.
     */
    method CreateBooking(serviceId: int, customerId: int, start: Instant, utcNow: Instant) returns (r: Result<Booking, BookingError>)
      modifies this`bookings, this`nextBookingId, this`promotions
      ensures serviceId !in services ==> r == Failure(ServiceNotFound)
      ensures serviceId in services && services[serviceId].providerId !in providers ==> r == Failure(ProviderNotFound)
      ensures (serviceId in services && services[serviceId].providerId in providers
        && Locked(bills, services[serviceId].providerId, utcNow)) ==> r == Failure(ProviderLocked)
      ensures (serviceId in services && services[serviceId].providerId in providers
        && !Locked(bills, services[serviceId].providerId, utcNow)
        && SlotTaken(old(bookings), services, services[serviceId].providerId, start, start + services[serviceId].durationMinutes * MinuteUs))
        ==> r == Failure(SlotAlreadyBooked)
      ensures r.Failure? ==> bookings == old(bookings) && nextBookingId == old(nextBookingId) && promotions == old(promotions)
      ensures r.Failure? ==>
        || serviceId !in services
        || services[serviceId].providerId !in providers
        || Locked(bills, services[serviceId].providerId, utcNow)
        || SlotTaken(old(bookings), services, services[serviceId].providerId, start, start + services[serviceId].durationMinutes * MinuteUs)
      ensures r.Success? ==>
        && serviceId in services && services[serviceId].providerId in providers
        && !Locked(bills, services[serviceId].providerId, utcNow)
        && !SlotTaken(old(bookings), services, services[serviceId].providerId, start, start + services[serviceId].durationMinutes * MinuteUs)
        && r.value == Booking(old(nextBookingId), customerId, serviceId, start, start + services[serviceId].durationMinutes * MinuteUs, Confirmed)
        && bookings == old(bookings) + [r.value]
        && nextBookingId == old(nextBookingId) + 1
        && promotions == if services[serviceId].providerId in old(promotions)
                         then old(promotions)[services[serviceId].providerId := AfterBooking(old(promotions)[services[serviceId].providerId])]
                         else old(promotions)
      ensures old(Valid()) ==> Valid()
    {
      if serviceId !in services {
        return Failure(ServiceNotFound);
      }
      var service := services[serviceId];
      if service.providerId !in providers {
        return Failure(ProviderNotFound);
      }
      var providerId := service.providerId;
      if Locked(bills, providerId, utcNow) {
        return Failure(ProviderLocked);
      }
      // The credit is consumed before the overlap check; a rejection rolls it back.
      var before := promotions;
      if providerId in promotions && promotions[providerId].freeUsed < promotions[providerId].freeTotal {
        promotions := promotions[providerId := promotions[providerId].(freeUsed := promotions[providerId].freeUsed + 1)];
      }
      var end := start + service.durationMinutes * MinuteUs;
      if SlotTaken(bookings, services, providerId, start, end) {
        promotions := before;
        return Failure(SlotAlreadyBooked);
      }
      var booking := Booking(nextBookingId, customerId, serviceId, start, end, Confirmed);
      if NoDoubleBooking(bookings, services) {
        AppendKeepsNoDoubleBooking(bookings, services, booking);
      }
      bookings := bookings + [booking];
      nextBookingId := nextBookingId + 1;
      r := Success(booking);
    }

    /**
     * `cancel_booking_for_customer`: false and no change unless the customer made a
     * booking with this id; otherwise that booking's status becomes cancelled, whatever it
     * was, and nothing else changes.
     */
    method CancelForCustomer(bookingId: int, customerId: int) returns (ok: bool)
      modifies this`bookings
      ensures ok <==> exists k :: 0 <= k < |old(bookings)| && old(bookings)[k].id == bookingId && old(bookings)[k].customerId == customerId
      ensures !ok ==> bookings == old(bookings)
      ensures ok ==> var k := FindFirst(old(bookings), OwnedByCustomer(bookingId, customerId)).value;
        bookings == old(bookings)[k := old(bookings)[k].(status := Cancelled)]
      ensures old(Valid()) ==> Valid()
    {
      match FindFirst(bookings, OwnedByCustomer(bookingId, customerId))
      case None =>
        ok := false;
      case Some(k) =>
        bookings := bookings[k := bookings[k].(status := Cancelled)];
        ok := true;
    }

    /**
     * `cancel_booking_for_provider`: false and no change unless the provider exists and
     * a booking with this id is for one of its services; otherwise that booking's status
     * becomes cancelled, whatever it was, and nothing else changes.
     */
    method CancelForProvider(bookingId: int, providerId: int) returns (ok: bool)
      modifies this`bookings
      ensures ok <==> providerId in providers && exists k :: (0 <= k < |old(bookings)| && old(bookings)[k].id == bookingId
        && BelongsTo(services, old(bookings)[k], providerId))
      ensures !ok ==> bookings == old(bookings)
      ensures ok ==> var k := FindFirst(old(bookings), OwnedByProvider(services, providers, bookingId, providerId)).value;
        bookings == old(bookings)[k := old(bookings)[k].(status := Cancelled)]
      ensures old(Valid()) ==> Valid()
    {
      match FindFirst(bookings, OwnedByProvider(services, providers, bookingId, providerId))
      case None =>
        ok := false;
      case Some(k) =>
        bookings := bookings[k := bookings[k].(status := Cancelled)];
        ok := true;
    }

    /**
     * `get_or_create_working_hours_for_provider`: a provider without rows gets the seven
     * closed default rows, which are returned; otherwise nothing changes and the
     * provider's rows are returned ordered by weekday. Either way the result is the
     * provider's rows ordered by weekday.
     */
    method GetOrCreateWorkingHours(providerId: int) returns (rows: seq<ProviderWorkingHours>)
      modifies this`workingHours, this`nextHoursId
      ensures HoursOf(old(workingHours), providerId) == [] ==>
        && workingHours == old(workingHours) + DefaultWeek(providerId, old(nextHoursId))
        && nextHoursId == old(nextHoursId) + 7
        && rows == DefaultWeek(providerId, old(nextHoursId))
      ensures HoursOf(old(workingHours), providerId) != [] ==>
        workingHours == old(workingHours) && nextHoursId == old(nextHoursId)
      ensures rows == SortedHours(workingHours, providerId)
      ensures old(Valid()) ==> Valid()
    {
      rows := SortedHours(workingHours, providerId);
      if |rows| == 0 {
        assert |HoursOf(workingHours, providerId)| == |multiset(rows)| == 0;
        rows := AddDefaultWeek(providerId);
        DefaultsAreTheProvidersRows(old(workingHours), providerId, old(nextHoursId));
      } else {
        assert |HoursOf(workingHours, providerId)| == |multiset(rows)| > 0;
      }
    }

    /** The `for weekday in range(7)` loop: one closed 09:00-17:00 row per weekday, with the next ids. */
    method AddDefaultWeek(providerId: int) returns (defaults: seq<ProviderWorkingHours>)
      modifies this`workingHours, this`nextHoursId
      ensures defaults == DefaultWeek(providerId, old(nextHoursId))
      ensures workingHours == old(workingHours) + defaults
      ensures nextHoursId == old(nextHoursId) + 7
      ensures old(Valid()) ==> Valid()
    {
      defaults := [];
      var weekday := 0;
      while weekday < 7
        invariant 0 <= weekday <= 7
        invariant defaults == DefaultWeek(providerId, old(nextHoursId))[..weekday]
        invariant workingHours == old(workingHours) + defaults
        invariant nextHoursId == old(nextHoursId) + weekday
      {
        var wh := ProviderWorkingHours(nextHoursId, providerId, weekday, true, Some("09:00"), Some("17:00"));
        DefaultWeekSnoc(providerId, old(nextHoursId), weekday);
        workingHours := workingHours + [wh];
        defaults := defaults + [wh];
        nextHoursId := nextHoursId + 1;
        weekday := weekday + 1;
      }
      assert DefaultWeek(providerId, old(nextHoursId))[..7] == DefaultWeek(providerId, old(nextHoursId));
    }

    /**
     * `set_working_hours_for_provider`: the items are applied in order to the rows found
     * by weekday at the start (no row is looked up again after it is created), and the
     * provider's rows are returned ordered by weekday.
     */
    method SetWorkingHours(providerId: int, items: seq<HoursItem>) returns (rows: seq<ProviderWorkingHours>)
      modifies this`workingHours, this`nextHoursId
      ensures HoursTable(workingHours, nextHoursId) == SetHours(HoursTable(old(workingHours), old(nextHoursId)), providerId, items)
      ensures rows == SortedHours(workingHours, providerId)
      ensures old(Valid()) ==> Valid()
    {
      var existing := ExistingByWeekday(workingHours, providerId);
      ghost var t := HoursTable(workingHours, nextHoursId);
      var i := 0;
      while i < |items|
        invariant 0 <= i <= |items|
        invariant PositionsIn(existing, t.rows)
        invariant HoursTable(workingHours, nextHoursId) == ApplyItems(t, existing, providerId, items[..i])
      {
        var item := items[i];
        assert items[..i + 1][..i] == items[..i];
        if item.weekday in existing {
          var k := existing[item.weekday];
          workingHours := workingHours[k := workingHours[k].(isClosed := ClosedFlag(item), startTime := item.startTime, endTime := item.endTime)];
        } else {
          workingHours := workingHours + [ProviderWorkingHours(nextHoursId, providerId, item.weekday, ClosedFlag(item), item.startTime, item.endTime)];
          nextHoursId := nextHoursId + 1;
        }
        i := i + 1;
      }
      assert items[..|items|] == items;
      rows := SortedHours(workingHours, providerId);
    }

    /**
     * `set_professions_for_provider`: the provider's rows are deleted, the cleaned names
     * are inserted in order with fresh ids, and the list read back is exactly the cleaned
     * names. Other providers' rows are kept.
     */
    method SetProfessions(providerId: int, names: seq<string>) returns (result: seq<string>)
      modifies this`professions, this`nextProfessionId
      ensures professions == Replaced(old(professions), providerId, old(nextProfessionId), names)
      ensures nextProfessionId == old(nextProfessionId) + |Cleaned(names)|
      ensures result == NamesOf(professions, providerId)
      ensures result == Cleaned(names)
      ensures old(Valid()) ==> Valid()
    {
      professions := OthersOf(professions, providerId);
      var cleaned := CleanProfessions(names);
      ghost var kept := professions;
      var i := 0;
      while i < |cleaned|
        invariant 0 <= i <= |cleaned|
        invariant nextProfessionId == old(nextProfessionId) + i
        invariant professions == kept + ProfessionRows(providerId, old(nextProfessionId), cleaned[..i])
      {
        var row := ProviderProfession(nextProfessionId, providerId, cleaned[i]);
        ProfessionRowsSnoc(providerId, old(nextProfessionId), cleaned, i);
        professions := professions + [row];
        nextProfessionId := nextProfessionId + 1;
        i := i + 1;
      }
      assert Valid() == old(Valid());
      assert cleaned[..|cleaned|] == cleaned;
      ReplacedReadsBack(old(professions), providerId, old(nextProfessionId), names);
      result := NamesOf(professions, providerId);
    }

    /**
     * `get_provider_availability`: it fails, changing nothing, unless the service exists
     * and is the provider's. Otherwise it loads the working hours through
     * `GetOrCreateWorkingHours` (creating the defaults for a provider without rows) and
     * returns the availability of the provider's bookings over those rows.
     */
    method ProviderAvailability(providerId: int, serviceId: int, days: int, now: Instant)
      returns (r: Result<seq<DayAvailability>, AvailabilityError>)
      requires serviceId in services && services[serviceId].providerId == providerId ==> services[serviceId].durationMinutes > 0
      modifies this`workingHours, this`nextHoursId
      ensures !(serviceId in services && services[serviceId].providerId == providerId) ==>
        r == Failure(ServiceNotFoundForProvider) && workingHours == old(workingHours) && nextHoursId == old(nextHoursId)
      ensures serviceId in services && services[serviceId].providerId == providerId ==>
        && (HoursOf(old(workingHours), providerId) == [] ==>
              workingHours == old(workingHours) + DefaultWeek(providerId, old(nextHoursId)) && nextHoursId == old(nextHoursId) + 7)
        && (HoursOf(old(workingHours), providerId) != [] ==>
              workingHours == old(workingHours) && nextHoursId == old(nextHoursId))
        && r == Availability(SortedHours(workingHours, providerId), OfProvider(bookings, services, providerId),
                             services[serviceId].durationMinutes, days, now)
      ensures old(Valid()) ==> Valid()
    {
      if !(serviceId in services && services[serviceId].providerId == providerId) {
        return Failure(ServiceNotFoundForProvider);
      }
      var rows := GetOrCreateWorkingHours(providerId);
      r := Compute.ComputeAvailability(rows, OfProvider(bookings, services, providerId), services[serviceId].durationMinutes, days, now);
    }
  }
}
