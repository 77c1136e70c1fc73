# Parking reservation logic, modelled in Dafny

This project models the reservation logic of a parking-booking web application. A store holds
parking locations and bookings, each keyed by document id. The model covers:

- the price of a reservation in paise;
- the search-time count of colliding bookings, which sets `bookedspots` and marks a location FULL;
- toggling a location's availability;
- cancelling, editing and deleting a booking;
- the booking document with its schema defaults.

Times are integer minutes and the hourly rate is an integer number of rupees. A paid edit's
payment session is a returned value: the amount to charge plus its metadata.

Files (one module each):

- `wrappers.dfy`: `Option`, for null references and queries that find nothing.
- `booking.dfy`: the booking record (`BookingSchema`).
- `locations.dfy`: the fields of a parking location that the actions use (`Locations`).
- `pricing.dfy`: `calculatePriceInPaise` (`Pricing`).
- `availability.dfy`: the search filter and count, and the collision query an edit runs (`Availability`).
- `actions.dfy`: the actions (`Actions`). Each is a function from the store's state to a response and
  the new state, and a method of the class `Store` that performs the source's steps on the store's
  `locations` and `bookings` maps. Each method is proved to agree with its function. The lemmas
  state the properties of those functions. Some lemmas compare a location's `bookedspots` counter with
  its number of BOOKED bookings: they show which actions keep the two equal and which let them drift.

## Model

| member | source | states |
|---|---|---|
| BookingSchema.NewBooking | schemas/booking.ts:19-45 | a new booking's status is PENDING unless one is given, its total amount is 0 unless given, its location reference and amount are as given (null / absent when left out), and its times are stored without any ordering check |
| BookingSchema.NewBookingDefaults | schemas/booking.ts:20-41 | a booking created with only its times is PENDING, has total amount 0, a null location and no amount, and keeps even reversed times |
| Pricing.CeilDiv | actions/actions.ts:460-462 | the result is the least integer q with k·q ≥ n (rounding up) |
| Pricing.PriceInPaise | actions/actions.ts:445-463 | 0 when end ≤ start; otherwise the least integer not below rate·minutes·100/60 |
| Pricing.PriceNonNegative | actions/actions.ts:445-463 | with rate ≥ 0 the price is never negative |
| Pricing.PriceMonotone | actions/actions.ts:447-462 | with rate ≥ 0 the price depends only on the duration and never falls as the duration grows |
| Pricing.PriceSplit | actions/actions.ts:455-462 | splitting an interval in two costs at least the whole and at most one paisa more |
| Pricing.PriceWholeHours | actions/actions.ts:455-462 | a whole number of hours is charged exactly rate·hours·100, with no rounding |
| Pricing.PriceRoundsUp | actions/actions.ts:460-462 | 61 min at 60/h is 6100 paise, 90 min is 9000, 1 min at 25/h rounds up to 42, a reversed interval is 0 |
| Availability.Occupying | actions/actions.ts:102-111 | the bookings found for a location are among the stored ones |
| Availability.CountsAgainstIsOverlap | actions/actions.ts:102-111 | a booking counts against a location iff it is at that location, BOOKED, and its interval overlaps the requested one (half-open) |
| Availability.TouchingNeverCounts | actions/actions.ts:105-110 | a booking that only touches the requested interval at an endpoint is never counted |
| Availability.FindNearbyLocations | actions/actions.ts:99-117 | one result per candidate location, in order, each the location's search entry |
| Availability.FindNearbyEntry | actions/actions.ts:113-116 | each result keeps its id, address, price and capacity; `bookedspots` is the collision count; status is FULL when the count reaches the capacity and as stored otherwise |
| Availability.OccupyingIgnoresUnbooked | actions/actions.ts:104 | a booking not in BOOKED status can be changed or removed without changing any search count |
| Availability.EditConflicts | actions/actions.ts:335-355 | the edit's collision set holds only BOOKED bookings at the same location, never the edited booking |
| Availability.EditConflictsBothChanged | actions/actions.ts:339-341 | when both endpoints change, the edit's collision set is exactly the half-open overlap set minus the edited booking |
| Availability.OnlyStartChangedMissesInside | actions/actions.ts:342-344 | counterexample: moving only the start earlier misses a BOOKED booking lying inside the added time |
| Availability.UnchangedTimesCountDisjoint | actions/actions.ts:345-355 | counterexample: keeping both endpoints counts a BOOKED booking that does not overlap at all |
| Availability.UniformEditConflicts | actions/actions.ts:339-341 | the corrected collision set never contains the edited booking |
| Availability.UniformEditConflictsExact | actions/actions.ts:339-355 | the corrected collision set is exactly the other BOOKED, overlapping bookings at the location; its size is the search count less one iff the edited booking itself counts |
| Actions.Store.ToggleLocation | actions/actions.ts:25-36 | an existing location's status goes AVAILABLE→NOTAVAILABLE and anything else (FULL too)→AVAILABLE; a missing location changes nothing; bookings are untouched |
| Actions.ToggleTwice | actions/actions.ts:27-29 | toggling twice from AVAILABLE restores the store; a non-AVAILABLE status toggles to AVAILABLE; a missing id changes nothing |
| Actions.Store.IncBookedSpots | actions/actions.ts:285-288 | the `$inc` changes only the matching location's counter, and a null or dangling reference changes nothing |
| Actions.AdjustBookedSpotsEffect | actions/actions.ts:285-288 | the increment keeps the set of locations, changes only the matching one, and changes it by exactly delta |
| Actions.Store.CancelBooking | actions/actions.ts:261-298 | response and new state are those of the cancel specification |
| Actions.CancelUnknown | actions/actions.ts:261-268 | an unknown id gives code 1 and no change |
| Actions.CancelIdempotent | actions/actions.ts:270-276 | a second cancel returns code 0 "already cancelled" and changes nothing |
| Actions.CancelEffect | actions/actions.ts:278-298 | a non-cancelled booking becomes CANCELLED with amount 0 and the same total amount; its location's counter drops by exactly 1; code 0; every other record is unchanged |
| Actions.CancelReleasesSlot | actions/actions.ts:278-288 | after a cancel every search count loses the cancelled booking: it drops by one exactly where the booking was counted |
| Actions.CancelThenSearch | actions/actions.ts:102-116 | a one-spot location with one overlapping BOOKED booking searches as FULL; after cancelling it, it searches as AVAILABLE and its counter is 0 |
| Actions.Store.UpdateBooking | actions/actions.ts:309-434 | response and new state are those of the edit specification |
| Actions.UpdateRejectsBadInterval | actions/actions.ts:318-320 | start ≥ end gives code 1 and no change |
| Actions.UpdateRejectsWhenFull | actions/actions.ts:358-429 | when the collisions reach the capacity the result is code 1 with no change |
| Actions.UpdateTouchesOnlySelf | actions/actions.ts:358-421 | an edit never changes a location or another booking, and never adds or removes a booking |
| Actions.UpdateFreeEdit | actions/actions.ts:370-383 | an accepted edit whose new price is ≤ the stored total overwrites date, start, end and total (with the new price), keeps every other field, and returns code 0 |
| Actions.UpdatePaidEdit | actions/actions.ts:385-421 | an accepted edit whose new price exceeds the stored total changes nothing and returns code 100 charging exactly the positive difference, with metadata carrying the new interval and new total |
| Actions.UpdateCodeDecidesChange | actions/actions.ts:358-429 | code 0 iff accepted and not dearer; code 100 iff accepted and dearer; every code other than 0 leaves the store unchanged |
| Actions.ShorterEditIsFree | actions/actions.ts:361-375 | with a non-negative rate, an accepted edit of a fully paid booking to an interval no longer than before is a free edit |
| Actions.Store.DeleteBooking | actions/actions.ts:495-517 | as written: the booking is removed and no counter changes |
| Actions.DeleteNeverDecrements | actions/actions.ts:500-507 | the decrement guarded by the second delete's result never runs: delete only removes the booking |
| Actions.Store.DeleteBookingOnce | actions/actions.ts:500-507 | corrected delete: new state is that of the intended delete |
| Actions.DeleteIntendedReleasesSpot | actions/actions.ts:500-507 | the intended delete removes the booking and lowers its location's counter by exactly 1, changing no other location; an unknown id changes nothing |
| Actions.BookedAt | actions/actions.ts:285-288 | the bookings behind a location's counter are stored BOOKED bookings |
| Actions.CancelBookedKeepsCounterExact | actions/actions.ts:278-288 | cancelling a BOOKED booking keeps each location's counter equal to its number of BOOKED bookings |
| Actions.CancelPendingDrifts | actions/actions.ts:278-288 | cancelling a PENDING booking still decrements the counter, leaving an exact counter one short |
| Actions.UpdateKeepsCounterExact | actions/actions.ts:370-377 | an edit changes no status or location, so an exact counter stays exact |
| Actions.FreeEditTotalIsPrice | actions/actions.ts:362-375 | after a free edit the stored total is the price of the new interval at the location's rate |
| Actions.DeleteAsWrittenDrifts | actions/actions.ts:500-507 | deleting a BOOKED booking as written leaves an exact counter one too high |
| Actions.DeleteIntendedKeepsCounterExact | actions/actions.ts:500-507 | the intended delete of a BOOKED booking keeps an exact counter exact |

## Left out

- Payment sessions: creating the session and its URLs is left out. A paid edit returns the amount to charge, the currency and the metadata.
- Confirmation and violation emails (`sendConfirmationEmail`, `sendViolationEmail`): these are email I/O.
- Framework plumbing: database connection, path revalidation, redirects, the logged-in user, and JSON round-trips.
- The geospatial query: the search takes the candidate locations as input.
- The thin database wrappers: `getParkingLocation`, `getParkingLocations`, `deleteLocation`, `updateLocation` and `getBookings`.
- Date parsing and formatting: times, dates and the booking date are integer minutes. An invalid date, which the source would carry as NaN, is not modelled.
- Pricing.PriceInPaise: the source computes with double-precision floats and allows fractional hourly rates. The model uses exact integer ceiling division on an integer rupee rate, so rounding can differ where the float product lands just above or below a whole paisa.
- Concurrency: the race between the availability check and the writes, the concurrent per-location queries of the search, and failures of single database calls. A thrown database error, which each action catches and reports as code 1 or rethrows, is not modelled.
- The parking-location schema file is not part of this model. Only the fields the actions use are kept.
- Booking fields that may be absent in the document: `userid`, `phone`, `plate`, `timeoffset`, the dates and `totalamount` are always present in the model. `amount`, `stripesessionid` and the location reference are optional.
- The payment-result page, which confirms new bookings and paid edits, is not part of this model.

## Findings

| source | as written | input that shows it | evidently intended | confidence | as-written member | corrected member |
|---|---|---|---|---|---|---|
| actions/actions.ts:342-344 | when only the start changes, the query keeps bookings with start ≤ st < end, so it tests only the new start instant | one-spot location; editing [600,660) to [540,660) while another BOOKED booking holds [570,600): no collision is found and the edit is accepted | count every other BOOKED booking overlapping [st, et) (half-open), as when both endpoints change | high (not executed) | Availability.OnlyStartChangedMissesInside | Availability.UniformEditConflictsExact |
| actions/actions.ts:345-355 | when neither endpoint changes, there is no time filter, so every BOOKED booking at the location on any day counts | one-spot location; keeping [600,660) while the only other BOOKED booking is [2040,2100): one collision, and the edit is refused | the same half-open overlap filter | high (not executed) | Availability.UnchangedTimesCountDisjoint | Availability.UniformEditConflictsExact |
| actions/actions.ts:500-507 | the booking is deleted by the first `findByIdAndDelete`; the second call on the same id finds nothing, so the `bookedspots` decrement never runs | any stored booking at a location with `bookedspots` = n: after the delete the counter is still n | decrement the location's counter when the (single) delete removed a booking | high (not executed) | Actions.DeleteNeverDecrements | Actions.DeleteIntendedReleasesSpot |

The store's `UpdateBooking` and `DeleteBooking` follow the code as written. The corrected collision query and delete
(`UniformEditConflicts`, `DeleteBookingIntended` and `Store.DeleteBookingOnce`) sit beside them with their
properties proved.

`starttime < endtime` is not an invariant of a stored booking. The schema does not enforce it; only an
edit checks it (actions/actions.ts:318).
