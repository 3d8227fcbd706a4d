/**
 * The rows the booking engine reads and writes (backend/app/models.py), as values.
 * Identifiers are integers; a table keyed by its id is a map, a table whose row order
 * or row identity the engine depends on is a sequence of rows carrying their own id.
 */
module Models {
  import opened Wrappers
  import opened Time

  datatype User = User(email: string, fullName: string)

  datatype Provider = Provider(userId: int, accountNumber: Option<string>)

  /** A service offered by a provider; `durationMinutes` sets both booking length and slot step. */
  datatype Service = Service(providerId: int, name: string, durationMinutes: int)

  datatype BookingStatus = Confirmed | Pending | Cancelled | Completed

  datatype Booking = Booking(
    id: int,
    customerId: int,
    serviceId: int,
    start: Instant,
    end: Instant,
    status: BookingStatus)

  /** A monthly bill; an unpaid bill past its due date locks the provider out of new bookings. */
  datatype Bill = Bill(providerId: int, isPaid: bool, dueDate: Option<Instant>)

  /** Free bookings granted to a provider and how many have been consumed. */
  datatype Promotion = Promotion(freeTotal: int, freeUsed: int)

  /** One weekday rule of a provider's week; times are the raw `"HH:MM"` text, possibly missing. */
  datatype ProviderWorkingHours = ProviderWorkingHours(
    id: int,
    providerId: int,
    weekday: int,
    isClosed: bool,
    startTime: Option<string>,
    endTime: Option<string>)

  datatype ProviderProfession = ProviderProfession(id: int, providerId: int, name: string)
}
