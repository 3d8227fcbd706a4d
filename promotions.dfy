/**
 * Free-booking promotions: an administrator grants a provider a number of bookings
 * without the platform fee, and each booking made while credits remain consumes one.
 */
module Promotions {
  import opened Wrappers
  import opened Models

  /** The counter invariant: no more free bookings consumed than granted. */
  predicate WithinQuota(p: Promotion) {
    p.freeUsed <= p.freeTotal
  }

  /**
   * `upsert_promotion`'s new row: the grant becomes `freeTotal`, consumption is kept but
   * clamped down to the new grant, and a new promotion has used none.
   */
  function Upserted(existing: Option<Promotion>, freeTotal: int): (p: Promotion)
    ensures p.freeTotal == freeTotal
    ensures existing.Some? ==> WithinQuota(p)
    ensures existing.None? ==> p.freeUsed == 0 && (WithinQuota(p) <==> freeTotal >= 0)
    ensures existing.Some? && existing.value.freeUsed <= freeTotal ==> p.freeUsed == existing.value.freeUsed
    ensures existing.Some? && existing.value.freeUsed > freeTotal ==> p.freeUsed == freeTotal
  {
    match existing
    case Some(prev) =>
      if freeTotal < prev.freeUsed then Promotion(freeTotal, freeTotal) else Promotion(freeTotal, prev.freeUsed)
    case None => Promotion(freeTotal, 0)
  }

  /** Whether a booking made now is free of the platform fee. */
  predicate IsFreeBooking(p: Promotion) {
    p.freeUsed < p.freeTotal
  }

  /** create_booking's conditional increment: one credit consumed, only while credits remain. */
  function AfterBooking(p: Promotion): (q: Promotion)
    ensures q.freeTotal == p.freeTotal
    ensures q.freeUsed == p.freeUsed + 1 <==> IsFreeBooking(p)
    ensures q.freeUsed == p.freeUsed || q.freeUsed == p.freeUsed + 1
    ensures WithinQuota(p) ==> WithinQuota(q)
  {
    if IsFreeBooking(p) then p.(freeUsed := p.freeUsed + 1) else p
  }

  /** The promotion after `n` successive bookings. */
  function AfterBookings(p: Promotion, n: nat): Promotion
    decreases n
  {
    if n == 0 then p else AfterBookings(AfterBooking(p), n - 1)
  }

  /**
   * Bookings are free exactly while credits remain: after `n` bookings a promotion within
   * its quota has used `min(used + n, total)` credits. This holds for a negative `used`
   * too, which a negative grant on an existing promotion leaves behind.
   */
  lemma {:induction false} FreeBookingsGranted(p: Promotion, n: nat)
    requires WithinQuota(p)
    ensures AfterBookings(p, n).freeTotal == p.freeTotal
    ensures AfterBookings(p, n).freeUsed == if p.freeUsed + n <= p.freeTotal then p.freeUsed + n else p.freeTotal
    decreases n
  {
    if n > 0 {
      FreeBookingsGranted(AfterBooking(p), n - 1);
    }
  }
}
