# Booking engine of a services marketplace, in Dafny

This project models the booking engine of a marketplace. Customers book services from
providers, and the engine lives in `backend/app/crud.py`.

The model covers:

- **Availability.** The free start times of a service over the next days, built from the
  provider's weekly working-hours rows, the current local time and the provider's
  confirmed bookings.
- **Booking creation.** The checks run in this order: the service exists, its provider
  exists, the provider has no overdue bill, and the interval collides with no confirmed
  booking. A booking that passes is inserted as confirmed. A free-booking promotion
  credit is consumed while credits remain.
- **Cancellation** by the customer or by the provider.
- **Promotions.** An administrator's grant, and the per-booking credit.
- **Working hours.** The seven closed default rows, and the bulk update from a list of
  items.
- **Professions.** A provider's list is replaced by the submitted names, stripped,
  without empty names, and deduplicated ignoring case.
- **Billing dates.** The calendar month billed and the due date, which is 23:59 on the
  15th of the next month. An unpaid bill past its due date locks the provider.
- **Listings.** A provider's bookings from now on, a customer's bookings latest first,
  today's bookings and the upcoming ones.
- **Account numbers** derived from an email.

## How the model is built

- **The database** is the class `Crud.Database`, one field per table. An operation that
  writes is a method with a `modifies` frame on exactly the tables it writes. Its
  `ensures` gives the whole new state, and a rejected request leaves every table as it
  was. `Valid()` is what the engine keeps true. Every writing method proves
  `old(Valid()) ==> Valid()`, except `UpsertPromotion`: it proves it only when the
  provider already has a promotion or the new grant is not negative. `Valid()` says:
  - booking ids increase in table order;
  - no promotion has used more than it grants;
  - no two confirmed bookings of one provider overlap.
- **Time.** `Instant` counts whole microseconds from 0001-01-01 00:00, which was a
  Monday, so `Weekday(d) == d % 7` is Python's `date.weekday()`. Dates are day numbers;
  `Billing` converts calendar dates to and from them.
- **Availability** has three layers:
  - the functions of `AvailabilitySpec` say what the result is;
  - the methods of `Availability` are the source's loops, each proved equal to its
    function;
  - lemmas about the functions state what a caller may rely on: every offered slot is
    free and inside the day's window, every free candidate is offered, days increase,
    and the error case.
- **String parsing.** Python's `str.strip`, `str.lower`, `str.split` and `int` are
  spelled out in `Text`. This is needed because the `"HH:MM"` parse decides whether a
  day is skipped or the whole request fails.
- **Database queries** are filters over the tables followed by a stable sort on the
  ordering column (`Seqs`). An `ORDER BY` promises only the order and the same rows. The
  model fixes one order for tied rows, the table order, and some results depend on it:
  `Schedule.SortedHours` and `AvailabilitySpec.OpenRulesLast`, for instance.

## What the code does

- Candidate starts step by the service duration, from the window start or, today, from
  the current minute (`crud.py:869-886`).
- There is no lead time. `create_booking` does not check that the start is in the
  future.
- Only bookings with status `confirmed` block a slot or a booking.
- Cancelling does not look at the status. The customer route's docstring
  (`routes/bookings.py:119`) says the status becomes cancelled only if it is confirmed or
  pending, but `crud.py:580` and `crud.py:637` set it whatever it was. An
  already-cancelled booking is "cancelled" again and the call returns true.
- Availability loads only the bookings that *start* inside the day's window
  (`crud.py:853-863`). A booking that starts before opening time and runs into the window
  blocks nothing there, although `create_booking`'s overlap query would reject a slot it
  overlaps. `AvailabilitySpec.OverhangingBookingIgnored` states one such case.
- Availability calls `get_or_create_working_hours_for_provider`, so a read can insert
  the default rows.
- A time format that does not parse skips the day. An hour or minute out of range makes
  `datetime(...)` raise outside the `try`, which fails the whole request
  (`crud.py:837-845`).
- `set_working_hours_for_provider` looks rows up in a dict built once before its loop. Two
  items for a weekday that had no row therefore create two rows.

## Model

| member | source | states |
|---|---|---|
| Crud.Database.UpsertPromotion | backend/app/crud.py:227-244 | the provider's promotion becomes `Upserted` of the old one: the new grant, with consumption kept but clamped down to it, or a fresh promotion with none used; no other provider's promotion changes; the quota invariant is kept unless a new promotion gets a negative grant |
| Crud.Database.CreateBooking | backend/app/crud.py:251-330 | fails with ServiceNotFound, ProviderNotFound, ProviderLocked or SlotAlreadyBooked, in that order of checks, exactly when the respective condition holds, fails for no other reason on rows whose columns are set, and then changes nothing; on success it appends exactly one confirmed booking with the next id and the service's duration, and consumes one credit of the provider's promotion while credits remain; it keeps the no-double-booking invariant |
| Crud.Database.CancelForCustomer | backend/app/crud.py:538-602 | returns true exactly when a booking with this id was made by this customer; then that booking, and only it, becomes cancelled whatever its status was; otherwise nothing changes; the invariant is kept |
| Crud.Database.CancelForProvider | backend/app/crud.py:607-658 | returns true exactly when the provider exists and a booking with this id is for one of its services; then that booking alone becomes cancelled; otherwise nothing changes; the invariant is kept |
| Crud.Database.GetOrCreateWorkingHours | backend/app/crud.py:661-691 | a provider without rows gets exactly the seven default rows appended, with the next seven ids, and they are returned; a provider with rows leaves the table unchanged; either way the result is the provider's rows ordered by weekday; the invariant is kept |
| Crud.Database.AddDefaultWeek | backend/app/crud.py:673-689 | the loop appends the seven default rows, one per weekday 0 to 6 in order, closed, 09:00 to 17:00, with consecutive ids, and returns them; the invariant is kept |
| Crud.Database.SetWorkingHours | backend/app/crud.py:693-732 | the new table is the fold `SetHours` of the items over the rows found by weekday before the loop; the result is the provider's rows ordered by weekday; the invariant is kept |
| Crud.Database.SetProfessions | backend/app/crud.py:744-779 | the provider's rows are replaced by one row per cleaned name, in order, with consecutive fresh ids; other providers' rows are kept; the list read back is exactly `Cleaned(names)`; the invariant is kept |
| Crud.Database.ProviderAvailability | backend/app/crud.py:782-896 | fails, changing nothing, unless the service exists and belongs to the provider; otherwise loads the hours as GetOrCreateWorkingHours does and returns `Availability` of the provider's rows ordered by weekday and of the provider's bookings; the invariant is kept |
| Availability.SlotOverlaps | backend/app/crud.py:865-867 | the source's negated overlap test is the half-open interval intersection used by create_booking |
| Availability.HasConflict | backend/app/crud.py:876-880 | the scan with `break` reports a conflict exactly when some loaded booking overlaps the slot |
| Availability.DaySlots | backend/app/crud.py:869-886 | the slot loop returns exactly `Slots` of the window: the free candidates stepping by the service duration that end by closing time |
| Availability.ComputeDay | backend/app/crud.py:828-894 | one iteration gives nothing without a rule or when the times do not parse, an error when an hour or minute is out of range, and otherwise the day's free slots if there are any: the day's `DayEntry` |
| Availability.CollectDays | backend/app/crud.py:821-896 | the loop over day offsets returns `FromRules`: the non-empty day entries in order, or the first error |
| Availability.ComputeAvailability | backend/app/crud.py:813-896 | builds `wh_by_weekday` from the open rows and runs the day loop; the result equals the specification `Availability` |
| Availability.SlotsNext | backend/app/crud.py:872-886 | one step of the slot loop: the current candidate, if free, followed by the slots from the next candidate |
| AvailabilitySpec.OpenRules | backend/app/crud.py:813-819 | every weekday rule is an open row for that weekday: not closed, with both times present and non-empty |
| AvailabilitySpec.OpenRulesHas | backend/app/crud.py:813-819 | a weekday has a rule if and only if some open row names it |
| AvailabilitySpec.OpenRulesLast | backend/app/crud.py:814-819 | the rule for a weekday is the last open row naming it |
| AvailabilitySpec.TimesOn | backend/app/crud.py:837-845 | parsed times give instants on the given day, the opening on a whole minute |
| AvailabilitySpec.TimesOnFormatted | backend/app/crud.py:837-845 | times written as `HH:MM` open and close at exactly those times of the day |
| AvailabilitySpec.TruncateSameDay | backend/app/crud.py:850 | rounding the current time down to the minute stays on the same day |
| AvailabilitySpec.WindowBounds | backend/app/crud.py:844-850 | an open window lies on its day, starts on a whole minute, never before the rule's opening time nor, today, before the current minute, and ends at the closing time |
| AvailabilitySpec.SlotsSound | backend/app/crud.py:869-886 | every slot is a candidate `start + k * duration` that fits in the window and overlaps no loaded booking |
| AvailabilitySpec.SlotsComplete | backend/app/crud.py:869-886 | every candidate that fits and overlaps no loaded booking is a slot |
| AvailabilitySpec.SlotsIncreasing | backend/app/crud.py:869-886 | a day's slots are strictly increasing |
| AvailabilitySpec.SlotsOfOneSlot | backend/app/crud.py:872-883 | a window exactly one duration long with nothing loaded holds that one slot |
| AvailabilitySpec.SlotsTooShort | backend/app/crud.py:872 | a window shorter than the duration holds no slot |
| AvailabilitySpec.DayEntry | backend/app/crud.py:831-894 | a day's entry is an error exactly when its times are out of range; a present entry is dated that day and has at least one slot |
| AvailabilitySpec.EntryIsWindowSlots | backend/app/crud.py:844-894 | a present entry holds exactly the free slots of its day's open window |
| AvailabilitySpec.DayEntryOfOpen | backend/app/crud.py:869-894 | for an open window the entry is its free slots, or nothing when there are none |
| AvailabilitySpec.ConflictOnTable | backend/app/crud.py:853-881 | a conflict with the loaded bookings is an overlap with a confirmed booking of the table that starts in the window |
| AvailabilitySpec.CollectFails | backend/app/crud.py:827-896 | the day loop fails if and only if some day in the range has an error entry |
| AvailabilitySpec.CollectStep | backend/app/crud.py:827-894 | a successful loop from offset `k` is the entry of day `k`, if any, then the loop from `k + 1` |
| AvailabilitySpec.CollectEntries | backend/app/crud.py:827-894 | every collected entry is the non-empty entry of a day in range, and the dates strictly increase |
| AvailabilitySpec.CollectCovers | backend/app/crud.py:827-894 | every day in range with a non-empty entry appears in a successful result |
| AvailabilitySpec.FromRulesFails | backend/app/crud.py:837-845 | the request fails if and only if some day in the range has a rule whose hour or minute is out of range |
| AvailabilitySpec.FromRulesEntries | backend/app/crud.py:827-894 | a successful result lists days from today on, strictly increasing, each with a rule for its weekday and an open window whose free slots it holds exactly, at least one |
| AvailabilitySpec.FromRulesSlotIsFree | backend/app/crud.py:844-886 | every offered slot lies on its date inside the day's window, a whole number of durations after the window start, not before the current minute, and overlaps no confirmed booking starting in the window |
| AvailabilitySpec.FromRulesComplete | backend/app/crud.py:844-894 | every candidate of an open window in range that fits and overlaps no confirmed booking starting in the window is offered |
| AvailabilitySpec.CancelFreesSlot | backend/app/crud.py:853-883 | once a booking is cancelled, a candidate that no other confirmed booking in the window overlaps is a slot |
| AvailabilitySpec.NineToTenWindow | backend/app/crud.py:844-845 | on a future day, a 09:00 to 10:00 rule gives the window 09:00 to 10:00 |
| AvailabilitySpec.NineToTenUnblocked | backend/app/crud.py:844-894 | such a day with no booking loaded offers exactly 09:00 to a 60-minute service |
| AvailabilitySpec.OneHourDay | backend/app/crud.py:869-894 | such a day offers the single slot 09:00 to a 60-minute service and nothing to a 61-minute one |
| AvailabilitySpec.OverhangingBookingIgnored | backend/app/crud.py:853-863 | a confirmed 08:30 to 09:30 booking does not stop 09:00 being offered, although create_booking's overlap query finds it for that slot |
| Bookings.OfProvider | backend/app/crud.py:853-857 | exactly the bookings whose service belongs to the provider |
| Bookings.AppendKeepsNoDoubleBooking | backend/app/crud.py:297-330 | appending a confirmed booking keeps the no-overlap invariant if and only if create_booking's overlap query finds nothing |
| Bookings.CancelKeepsNoDoubleBooking | backend/app/crud.py:580 | cancelling any booking keeps the no-overlap invariant |
| Promotions.Upserted | backend/app/crud.py:227-244 | the grant becomes the new total; an existing promotion keeps its consumption unless that exceeds the new total, then it is clamped to it, so its quota holds; a new one has used none |
| Promotions.AfterBooking | backend/app/crud.py:288-292 | consumption goes up by one if and only if credits remain, else stays; the grant is unchanged; the quota is kept |
| Promotions.FreeBookingsGranted | backend/app/crud.py:288-292 | for any promotion within its quota, a negative consumption included, after `n` bookings it has used `min(used + n, total)` credits: bookings are free exactly while credits remain |
| Billing.DaysInMonth | backend/app/crud.py:399 | a month has 28 to 31 days |
| Billing.NextDay | backend/app/crud.py:399 | the result is a valid date, and it is missing exactly when the date is 9999-12-31 |
| Billing.NextDayNumber | backend/app/crud.py:399 | the next day is the date whose day number is one more |
| Billing.AddDays | backend/app/crud.py:399 | adding days gives a valid date when it does not overflow |
| Billing.AddDaysNumber | backend/app/crud.py:399 | adding `n` days, when it does not overflow, gives the date whose day number is `n` more |
| Billing.AddDaysWithinMonth | backend/app/crud.py:399 | adding days without leaving the month only moves the day of the month |
| Billing.AddDaysSplit | backend/app/crud.py:399 | adding `a + b` days is adding `a` days and then `b` |
| Billing.YearLength | backend/app/crud.py:399 | the twelve months add up to 365 days, or 366 in a leap year |
| Billing.DaysBeforeYearStep | backend/app/crud.py:399 | the day numbers of consecutive New Year's Days differ by the length of the year |
| Billing.NextMonthDayNumber | backend/app/crud.py:399 | the first of the next month comes as many days after the first of this one as this month has |
| Billing.ThirtyTwoDaysAfterFirst | backend/app/crud.py:399 | 32 days after the first of a `k`-day month is day `33 - k` of the next month, or overflows from December 9999 |
| Billing.PeriodDates | backend/app/crud.py:398-416 | the period runs from the first of the month to the first of the next, and the bill is due at 23:59 on the 15th of the next |
| Billing.PeriodIsCalendarMonth | backend/app/crud.py:398-399 | the period exists except for December 9999; it starts on the first of the month and ends on the first of the next, as many days later as the month has |
| Billing.PeriodDueDate | backend/app/crud.py:416 | the due instant is 23:59 on the day 14 days after the period ends |
| Billing.UnpaidBillLocksAfterDue | backend/app/crud.py:275-285 | adding an unpaid bill locks its provider if and only if the provider was already locked or the due date has passed; other providers are unaffected |
| Listings.ProviderBookings | backend/app/crud.py:462-496 | exactly the provider's bookings, of every status, starting at or after now, whose service, provider and customer exist, in ascending start order |
| Listings.CustomerBookings | backend/app/crud.py:498-536 | nothing for an unknown customer; otherwise exactly the customer's bookings joined to an existing service, latest start first |
| Listings.ConfirmedBetween | backend/app/crud.py:899-917 | exactly the provider's confirmed bookings with an existing customer starting in the window, in start order |
| Listings.TodaysAreDatedToday | backend/app/crud.py:899-936 | today's listing holds exactly the provider's confirmed bookings whose start date is today, in start order |
| Listings.UpcomingAreDatedAhead | backend/app/crud.py:938-979 | the upcoming listing holds exactly the confirmed bookings dated from tomorrow through `days_ahead` days after today, in start order |
| Listings.TodayAndUpcomingDisjoint | backend/app/crud.py:899-979 | no booking appears in both listings |
| Time.DateOf | backend/app/crud.py:828 | an instant lies within its date's 24 hours |
| Time.DateOfShift | backend/app/crud.py:828 | adding `k` days to an instant moves its date by `k` |
| Time.DateAfter | backend/app/crud.py:828 | the date of `now + k days` is `k` days after today |
| Time.Weekday | backend/app/crud.py:829 | a weekday from 0 (Monday) to 6 that repeats every 7 days |
| Time.TruncateToMinute | backend/app/crud.py:850 | the start of the minute containing the instant |
| Time.AtTimeOfDay | backend/app/crud.py:844-845 | `datetime(...)` succeeds if and only if the hour is 0 to 23 and the minute 0 to 59, and then gives that time of that day |
| Time.TodayWindow | backend/app/crud.py:904-905 | today's midnight to tomorrow's: 24 hours that contain now |
| Time.UpcomingWindow | backend/app/crud.py:947-949 | starts where today's window ends and lasts `days_ahead` days |
| Text.StripLeft | backend/app/crud.py:760 | removes exactly the leading whitespace |
| Text.StripRight | backend/app/crud.py:760 | removes exactly the trailing whitespace |
| Text.Strip | backend/app/crud.py:760 | leaves no whitespace at either end |
| Text.StripOnlyWhitespace | backend/app/crud.py:760 | the stripped string is a slice of the original with only whitespace before and after it |
| Text.StripTrimmed | backend/app/crud.py:760 | a string without whitespace at its ends is its own strip |
| Text.StripPadded | backend/app/crud.py:144 | stripping removes exactly the whitespace padding around a string |
| Text.StripIdempotent | backend/app/crud.py:760 | stripping twice is stripping once |
| Text.Lower | backend/app/crud.py:764 | lower-cases each character in place |
| Text.Upper | backend/app/crud.py:145 | upper-cases each character in place |
| Text.LowerIdempotent | backend/app/crud.py:764 | lower-casing twice is lower-casing once |
| Text.Split | backend/app/crud.py:838-839 | at least one piece, none containing the separator |
| Text.JoinSplit | backend/app/crud.py:838-839 | joining the pieces with the separator gives back the string |
| Text.ParseInt | backend/app/crud.py:838-839 | an accepted string contains a digit |
| Text.DecimalDigits | backend/app/crud.py:838-839 | the decimal text of a natural number is all digits and has that value |
| Text.ParseSignedText | backend/app/crud.py:838-839 | `int` reads the signed decimal text of every integer back as that integer |
| Text.ParseSigned | backend/app/crud.py:838-839 | the same with any whitespace around the text |
| Text.ParseIntOfStrip | backend/app/crud.py:838-839 | `int` reads only the stripped text: strings that strip alike read alike |
| Text.ParseHHMM | backend/app/crud.py:838-839 | an accepted time contains a colon |
| Text.SplitCount | backend/app/crud.py:838-839 | `split` gives one piece more than the separator occurs |
| Text.ParseHHMMShape | backend/app/crud.py:838-839 | a string without exactly one colon is rejected; an accepted one is two colon-free pieces around its colon, read by `int` as the hour and the minute |
| Text.ParseHHMMOfPieces | backend/app/crud.py:838-839 | two colon-free pieces around a colon parse exactly when both pieces are integers, to those integers |
| Text.ParseTwoDigits | backend/app/crud.py:838-839 | `int` reads a two-digit number back as its value |
| Text.ParseFormatHHMM | backend/app/crud.py:838-839 | a time written `HH:MM` parses back to its hour and minute |
| Accounts.Normalize | backend/app/crud.py:144 | the normalised email has no whitespace at its ends and no upper-case letter |
| Accounts.Take | backend/app/crud.py:145 | `s[:n]`: a prefix of length `min(len(s), n)` |
| Accounts.FromDigestShape | backend/app/crud.py:145-146 | for a lower-case hex digest the account number is `ACC-` and eight upper-case hex digits, the digest's first eight |
| Accounts.NormalizeIdempotent | backend/app/crud.py:144 | normalising twice is normalising once |
| Accounts.AccountNumberOfNormalized | backend/app/crud.py:139-146 | the number depends only on the normalised email; a missing email counts as the empty one |
| Accounts.PaddingAndCaseIgnored | backend/app/crud.py:139-146 | an address padded with whitespace, in any letter case, has the number of the trimmed lower-case address |
| Professions.CleanedIsFirstOccurrences | backend/app/crud.py:756-766 | the clean-up keeps exactly the stripped first occurrences ignoring case, in input order |
| Professions.FirstOccurrencesFold | backend/app/crud.py:756-766 | the kept list holds a name ignoring case if and only if some input strips to it |
| Professions.CleanedWellFormed | backend/app/crud.py:756-766 | the kept names are stripped, non-empty and pairwise different ignoring case |
| Professions.CleanedOfWellFormed | backend/app/crud.py:756-766 | a list that is already clean comes back unchanged |
| Professions.CleanedIdempotent | backend/app/crud.py:756-766 | cleaning the cleaned list changes nothing |
| Professions.HasFoldDuplicate | backend/app/crud.py:764 | the `any(...)` scan reports whether a kept name equals the new one ignoring case |
| Professions.CleanProfessions | backend/app/crud.py:756-766 | the loop computes `Cleaned(names)` |
| Professions.ProfessionRows | backend/app/crud.py:768-769 | one row per name, in order, for the provider, with consecutive ids |
| Professions.NamesOf | backend/app/crud.py:734-741 | the names, one for one and in order, of a permutation of the provider's rows sorted by id |
| Professions.OthersOf | backend/app/crud.py:751-753 | the delete keeps exactly the other providers' rows |
| Professions.ReplacedReadsBack | backend/app/crud.py:751-779 | after the replacement, reading the provider's list gives exactly the cleaned names |
| Schedule.HoursOf | backend/app/crud.py:664-670 | exactly the provider's rows |
| Schedule.SortedHours | backend/app/crud.py:664-670 | the provider's rows, ordered by weekday |
| Schedule.DefaultWeek | backend/app/crud.py:673-684 | seven rows, one per weekday 0 to 6, closed, 09:00 to 17:00, with consecutive ids |
| Schedule.DefaultsAreTheProvidersRows | backend/app/crud.py:673-689 | after the defaults are added for a provider without rows, its rows are exactly the defaults, in weekday order |
| Schedule.OpenRulesAllClosed | backend/app/crud.py:815-816 | closed rows give no weekday rule |
| Schedule.DefaultWeekOffersNothing | backend/app/crud.py:673-684 | a provider with only the default rows has no availability at all |
| Schedule.ExistingByWeekday | backend/app/crud.py:698-703 | each weekday in the dict points at a row of the provider with that weekday |
| Schedule.ExistingByWeekdayCovers | backend/app/crud.py:698-703 | every weekday of a row of the provider is in the dict, at its last such row |
| Schedule.LastItemFor | backend/app/crud.py:705-722 | an item that names the weekday at a position after which no item names it, or none when no item names it |
| Schedule.ApplyItem | backend/app/crud.py:705-722 | one item keeps every dict position valid |
| Schedule.ApplyItemsAppends | backend/app/crud.py:705-722 | the loop appends one row per item whose weekday had no row, in item order, with consecutive ids from the next free one |
| Schedule.ApplyItemsUpdates | backend/app/crud.py:705-722 | rows the dict does not point at are untouched, and each one it points at takes the values of the last item for its weekday |
| Schedule.SetHoursListed | backend/app/crud.py:693-722 | every weekday some item names has a row of the provider with the last such item's values, closed defaulting to true |
| Schedule.SetHoursUnlisted | backend/app/crud.py:693-722 | rows of other providers, and the provider's rows for weekdays no item names, are untouched |
| Schedule.SetHoursNewRows | backend/app/crud.py:705-713 | every added row is the provider's, has a fresh id and carries a weekday some item names |
| Seqs.Filter | backend/app/crud.py:853-863 | every row it returns passes the filter and is a row of the table, and every row of the table that passes is returned |
| Seqs.FilterAppend | backend/app/crud.py:853-863 | filtering a concatenation is concatenating the filtered parts |
| Seqs.FindFirst | backend/app/crud.py:541-550 | `.first()`: the first matching row, or none when no row matches |
| Seqs.SortBy | backend/app/crud.py:482 | `.order_by`: an ascending permutation of the rows |
| Seqs.InsertSorted | backend/app/crud.py:482 | inserting into an ascending sequence keeps it ascending |
| Seqs.SortBySorted | backend/app/crud.py:482 | sorting rows already in order leaves them as they are |
| Seqs.SortFilterMembers | backend/app/crud.py:482 | an ordered query returns exactly the rows its filter keeps |

## Left out

- Notifications are not modelled: WhatsApp and push messages after a booking, a
  cancellation or a bill. They are calls into outside services and change no table.
- Passwords, JWT authentication, users and providers as accounts, and the HTTP routes
  are not modelled. They are outside the booking engine.
- The clock is a parameter, not read. `now` is the local time `now_local_naive` gives,
  except for Listings.ProviderBookings, whose `now` is `datetime.utcnow()`
  (`crud.py:464`); `utcNow` is `datetime.utcnow()` for the lock check in create_booking. Time zones and
  the local/UTC mix are not modelled: the two are independent parameters.
- Fees and the bill rows are left out. The platform fee (`Decimal` ten per cent of the
  price), the bill totals and `get_provider_fees_due` are money arithmetic over floats
  and decimals; the model keeps only the billing dates and the lock.
- `generate_monthly_bills` inserting bills is left out. `Billing.Period` models its
  dates, and `Billing.UnpaidBillLocksAfterDue` what an inserted bill does.
- Concurrency is not modelled: each operation runs alone. In the source the overlap check
  and the insert are separate queries, so two simultaneous requests can both succeed.
  The one-at-a-time model cannot show that.
- Crud.Database.CreateBooking models a rejection as no change. In the source the
  promotion's counter is bumped in the session before the overlap check; a rejection
  raises and nothing is committed. A later commit on the same session, which the request
  handlers do not make, is not modelled.
- SHA-1 is a parameter. `Accounts.AccountNumber` takes the hex digest function as a
  parameter, and UTF-8 encoding is part of that parameter.
- Billing.NextDay states only validity and the 9999-12-31 bound in its own contract.
  That the result is one day number later is the lemma Billing.NextDayNumber, kept
  apart so that the calendar lemmas which unfold the function stay small.
- Billing.AddDays states only validity in its own contract. That the result is `n` day
  numbers later is the lemma Billing.AddDaysNumber, kept apart for the same reason.
- Text.Strip states only its ends and length in its own contract. That nothing but
  surrounding whitespace is removed is the lemma Text.StripOnlyWhitespace.
- Text.ParseInt states only that an accepted string holds a digit in its own contract.
  The value read is stated by the lemmas: Text.ParseSigned for the decimal text of every
  integer, with whitespace around it, and Text.ParseTwoDigits.
- Text.ParseHHMM states only that an accepted time has a colon. The exact shape, one
  colon between two integer pieces, is the lemma Text.ParseHHMMShape, together with
  Text.ParseHHMMOfPieces for the converse.
- Seqs.Filter states membership both ways and the length bound in its own contract,
  not the table order or each row's multiplicity. Those follow from Seqs.FilterAppend,
  Seqs.FilterAll and Seqs.FilterNone together.
- Null values of other columns are not modelled. `Service.price_gyd` and
  `Service.duration_minutes` are nullable (`models.py:54-55`): `create_booking` raises on
  a null price (`Decimal(str(None))`, `crud.py:289`) and on a null duration
  (`timedelta(minutes=None)`, `crud.py:297`). `Bill.is_paid` is nullable too
  (`models.py:90`), and the lock query's `is_(False)` (`crud.py:279`) never matches a
  null. The model's columns always hold values, so
  Crud.Database.CreateBooking's "no other rejection" holds only for rows whose columns
  are set.
- A null `is_closed` is not modelled. The column is nullable (`models.py:114`), and
  `item.get("is_closed", True)` stores None when an item carries the key with a null
  value; `if wh.is_closed:` (`crud.py:815`) then treats that row as open. The model's
  `isClosed` is a `bool`, and an item's missing value stands only for a missing key.
- Text.Lower and Text.Upper change ASCII letters only. Python's full Unicode case
  mapping is not modelled.
- Text.ParseInt accepts ASCII digits only. Non-ASCII decimal digits that Python's `int`
  also accepts, and its 4300-digit limit, are not modelled.
- Availability.ComputeAvailability requires a positive duration. With a zero duration
  the source's slot loop never ends on a day with a window. With a negative duration it
  steps backwards, keeping every free start, until `datetime` leaves year 1 and raises
  OverflowError, or the list of slots exhausts memory first. Neither outcome is a
  result to model. Crud.Database.ProviderAvailability passes this on as a requirement
  on the service.
- Row ids are the next id of a counter. The database's autoincrement and its
  foreign-key checks are not modelled; the joins are membership tests on the tables.
- Listings return the booking rows. The display columns of the joined rows (service
  name, customer name and phone, price) are not modelled.
- The order of rows tied on the sort column is the stable insertion order; the
  database promises none. The same holds for queries without `ORDER BY`: the
  `existing` dict of `set_working_hours_for_provider` (`crud.py:698-703`) keeps, for a
  weekday with several rows, whichever the query returns last, and
  Schedule.ExistingByWeekday takes the last in table order.
- Instants and dates are unbounded integers. `now + timedelta(days=offset)`
  (`crud.py:828`) and `datetime(...)` (`crud.py:844-845`) raise OverflowError past
  9999-12-31; the model computes those instants anyway. `Billing` does model the
  9999-12-31 bound of its own date arithmetic.
- Crud.Database.SetProfessions takes a list. The source's `professions or []` also
  accepts None, which the model treats as the empty list.
- `get_professions_for_provider` is `Professions.NamesOf` over the table; the other
  read-only helpers of the file are not modelled. These are the service and provider
  lookups, `get_promotion` and the user lookups.
