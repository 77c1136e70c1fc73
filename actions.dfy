/**
 * The reservation actions (actions/actions.ts) run against an in-memory
 * store of parking locations and bookings: toggling a location, cancelling,
 * editing and deleting a booking.
 *
 * Each action is given twice: as a function from the store's state before to
 * its response and the state after (the specification the lemmas talk
 * about), and as a method of `Store` that performs the same steps on the
 * store's fields and is proved to agree with that function.
 */
module Actions {
  import opened Wrappers
  import opened BookingSchema
  import opened Locations
  import opened Pricing
  import opened Availability

  /** What the payment session for a paid edit carries forward to the payment callback. */
  datatype EditMetadata = EditMetadata(
    isEdit: string,
    bookingId: Id,
    newDate: Instant,
    newStartTime: Instant,
    newEndTime: Instant,
    newTotalAmount: int)

  /** The payment session a paid edit opens: one line item of `unitAmount` paise. */
  datatype CheckoutSession = CheckoutSession(unitAmount: int, currency: string, metadata: EditMetadata)

  /** The structured result of an action: a code and a message, or a payment redirect (code 100). */
  datatype ActionResponse =
    | Message(code: int, message: string)
    | PaymentRedirect(code: int, session: CheckoutSession)

  const CodeOk: int := 0
  const CodeFailed: int := 1
  const CodePaymentRedirect: int := 100

  const MsgBookingNotFound := "Booking not found"
  const MsgAlreadyCancelled := "Booking already cancelled"
  const MsgCancelled := "Booking cancelled"
  const MsgBadInterval := "Start time must be before end time"
  const MsgUpdated := "Booking updated"
  const MsgNoSlots := "These time slots are no longer available. Please try different times."
  const MsgUnexpected := "An unexpected error occurred."

  /** The whole store: parking locations and bookings by id. */
  datatype Db = Db(locations: map<Id, ParkingLocation>, bookings: map<Id, Booking>)

  /** An action's response together with the state it leaves behind. */
  datatype Outcome = Outcome(response: ActionResponse, after: Db)

  // ---------------------------------------------------------------------
  // Specification functions
  // ---------------------------------------------------------------------

  /** Toggling: AVAILABLE becomes NOTAVAILABLE; any other status (FULL too) becomes AVAILABLE. */
  function Toggled(s: LocationStatus): LocationStatus
  {
    if s == Available then NotAvailable else Available
  }

  function ToggleOutcome(db: Db, id: Id): Db
  {
    if id in db.locations then
      db.(locations := db.locations[id := db.locations[id].(status := Toggled(db.locations[id].status))])
    else
      db
  }

  /**
   * `$inc: { bookedspots: delta }` on the location with id `locId`; when no
   * location matches (a null or dangling reference) nothing changes.
   */
  function AdjustBookedSpots(locations: map<Id, ParkingLocation>, locId: Option<Id>, delta: int)
    : map<Id, ParkingLocation>
  {
    if locId.Some? && locId.value in locations then
      locations[locId.value := locations[locId.value].(bookedspots := locations[locId.value].bookedspots + delta)]
    else
      locations
  }

  function CancelOutcome(db: Db, bookingid: Id): Outcome
  {
    if bookingid !in db.bookings then
      Outcome(Message(CodeFailed, MsgBookingNotFound), db)
    else
      var booking := db.bookings[bookingid];
      if booking.status == Cancelled then
        Outcome(Message(CodeOk, MsgAlreadyCancelled), db)
      else
        var cancelled := booking.(status := Cancelled, amount := Some(0));
        Outcome(Message(CodeOk, MsgCancelled),
                Db(AdjustBookedSpots(db.locations, booking.locationid, -1),
                   db.bookings[bookingid := cancelled]))
  }

  /**
   * Editing booking `selfid` to [st, et) on `date`. A missing booking or a
   * missing location is an exception inside the action, reported through its
   * catch-all as code 1.
   */
  function UpdateOutcome(db: Db, selfid: Id, date: Instant, st: Instant, et: Instant): Outcome
  {
    if !(st < et) then
      Outcome(Message(CodeFailed, MsgBadInterval), db)
    else if selfid !in db.bookings then
      Outcome(Message(CodeFailed, MsgUnexpected), db)
    else
      var original := db.bookings[selfid];
      if original.locationid.None? || original.locationid.value !in db.locations then
        Outcome(Message(CodeFailed, MsgUnexpected), db)
      else
        var locId := original.locationid.value;
        var location := db.locations[locId];
        var conflicts := EditConflicts(db.bookings, selfid, locId, original.starttime, original.endtime, st, et);
        if |conflicts| < location.numberofspots then
          var newTotal := PriceInPaise(st, et, location.hourly);
          var difference := newTotal - original.totalamount;
          if difference <= 0 then
            var edited := original.(bookingdate := date, starttime := st, endtime := et, totalamount := newTotal);
            Outcome(Message(CodeOk, MsgUpdated), db.(bookings := db.bookings[selfid := edited]))
          else
            Outcome(PaymentRedirect(CodePaymentRedirect,
                                    CheckoutSession(difference, "inr",
                                                    EditMetadata("true", selfid, date, st, et, newTotal))),
                    db)
        else
          Outcome(Message(CodeFailed, MsgNoSlots), db)
  }

  /** Whether an edit passes the interval check, finds its booking and location, and has room. */
  predicate EditAccepted(db: Db, selfid: Id, st: Instant, et: Instant)
  {
    && st < et
    && selfid in db.bookings
    && db.bookings[selfid].locationid.Some?
    && db.bookings[selfid].locationid.value in db.locations
    && var original := db.bookings[selfid];
       |EditConflicts(db.bookings, selfid, original.locationid.value, original.starttime, original.endtime, st, et)|
       < db.locations[original.locationid.value].numberofspots
  }

  /** The price an accepted edit would charge in total. */
  function EditPrice(db: Db, selfid: Id, st: Instant, et: Instant): int
    requires selfid in db.bookings && db.bookings[selfid].locationid.Some?
    requires db.bookings[selfid].locationid.value in db.locations
  {
    PriceInPaise(st, et, db.locations[db.bookings[selfid].locationid.value].hourly)
  }

  /**
   * Deleting a booking as written: the booking is found and deleted, then
   * found and deleted a second time; the counter is decremented only if the
   * second call found something.
   */
  function DeleteBookingAsWritten(db: Db, bookingid: Id): Db
  {
    var booking := if bookingid in db.bookings then Some(db.bookings[bookingid]) else None;
    var afterFirst := db.bookings - {bookingid};
    var deletedBooking := if bookingid in afterFirst then Some(afterFirst[bookingid]) else None;
    var afterSecond := afterFirst - {bookingid};
    if deletedBooking.Some? then
      Db(AdjustBookedSpots(db.locations, deletedBooking.value.locationid, -1), afterSecond)
    else
      Db(db.locations, afterSecond)
  }

  /** Deleting a booking as intended: one delete, and a decrement when it removed a booking. */
  function DeleteBookingIntended(db: Db, bookingid: Id): Db
  {
    if bookingid in db.bookings then
      Db(AdjustBookedSpots(db.locations, db.bookings[bookingid].locationid, -1), db.bookings - {bookingid})
    else
      db
  }

  // ---------------------------------------------------------------------
  // The store
  // ---------------------------------------------------------------------

  class Store {
    var locations: map<Id, ParkingLocation>
    var bookings: map<Id, Booking>

    function State(): Db
      reads this
    {
      Db(locations, bookings)
    }

    constructor (locations: map<Id, ParkingLocation>, bookings: map<Id, Booking>)
      ensures State() == Db(locations, bookings)
    {
      this.locations := locations;
      this.bookings := bookings;
    }

    /** `findById` on bookings. */
    method FindBooking(id: Id) returns (found: Option<Booking>)
      ensures found.Some? <==> id in bookings
      ensures found.Some? ==> found.value == bookings[id]
    {
      if id in bookings {
        found := Some(bookings[id]);
      } else {
        found := None;
      }
    }

    /** `save` of a booking document: it replaces the stored one. */
    method SaveBooking(id: Id, b: Booking)
      modifies this
      ensures bookings == old(bookings)[id := b] && locations == old(locations)
    {
      bookings := bookings[id := b];
    }

    /** `findByIdAndDelete` on bookings: the removed document, if there was one. */
    method FindByIdAndDelete(id: Id) returns (found: Option<Booking>)
      modifies this
      ensures found == (if id in old(bookings) then Some(old(bookings)[id]) else None)
      ensures bookings == old(bookings) - {id} && locations == old(locations)
    {
      found := if id in bookings then Some(bookings[id]) else None;
      bookings := bookings - {id};
    }

    /** `updateOne({ _id: locId }, { $inc: { bookedspots: delta } })`. */
    method IncBookedSpots(locId: Option<Id>, delta: int)
      modifies this
      ensures locations == AdjustBookedSpots(old(locations), locId, delta)
      ensures bookings == old(bookings)
    {
      if locId.Some? && locId.value in locations {
        var location := locations[locId.value];
        locations := locations[locId.value := location.(bookedspots := location.bookedspots + delta)];
      }
    }

    method ToggleLocation(id: Id)
      modifies this
      ensures State() == ToggleOutcome(old(State()), id)
      ensures id in old(locations) ==>
                locations[id].status == (if old(locations)[id].status == Available then NotAvailable else Available)
      ensures id !in old(locations) ==> State() == old(State())
    {
      if id in locations {
        var location := locations[id];
        location := location.(status := if location.status == Available then NotAvailable else Available);
        locations := locations[id := location];
      }
    }

    method CancelBooking(bookingid: Id) returns (response: ActionResponse)
      modifies this
      ensures response == CancelOutcome(old(State()), bookingid).response
      ensures State() == CancelOutcome(old(State()), bookingid).after
    {
      var found := FindBooking(bookingid);
      if found.None? {
        return Message(CodeFailed, MsgBookingNotFound);
      }
      var booking := found.value;
      if booking.status == Cancelled {
        return Message(CodeOk, MsgAlreadyCancelled);
      }
      booking := booking.(status := Cancelled, amount := Some(0));
      SaveBooking(bookingid, booking);
      IncBookedSpots(booking.locationid, -1);
      return Message(CodeOk, MsgCancelled);
    }

    method UpdateBooking(selfid: Id, date: Instant, st: Instant, et: Instant) returns (response: ActionResponse)
      modifies this
      ensures response == UpdateOutcome(old(State()), selfid, date, st, et).response
      ensures State() == UpdateOutcome(old(State()), selfid, date, st, et).after
    {
      if !(st < et) {
        return Message(CodeFailed, MsgBadInterval);
      }
      var found := FindBooking(selfid);
      if found.None? {
        return Message(CodeFailed, MsgUnexpected);
      }
      var original := found.value;
      if original.locationid.None? || original.locationid.value !in locations {
        return Message(CodeFailed, MsgUnexpected);
      }
      var locId := original.locationid.value;
      var parkingLocation := locations[locId];
      var conflicts := EditConflicts(bookings, selfid, locId, original.starttime, original.endtime, st, et);
      if |conflicts| < parkingLocation.numberofspots {
        var newTotalPriceInPaise := PriceInPaise(st, et, parkingLocation.hourly);
        var differenceInPaise := newTotalPriceInPaise - original.totalamount;
        if differenceInPaise <= 0 {
          original := original.(bookingdate := date, starttime := st, endtime := et,
                                totalamount := newTotalPriceInPaise);
          SaveBooking(selfid, original);
          return Message(CodeOk, MsgUpdated);
        } else {
          var metadata := EditMetadata("true", selfid, date, st, et, newTotalPriceInPaise);
          return PaymentRedirect(CodePaymentRedirect, CheckoutSession(differenceInPaise, "inr", metadata));
        }
      }
      return Message(CodeFailed, MsgNoSlots);
    }

    /** The delete as written: two `findByIdAndDelete` calls on the same id. */
    method DeleteBooking(bookingid: Id)
      modifies this
      ensures State() == DeleteBookingAsWritten(old(State()), bookingid)
      ensures bookings == old(bookings) - {bookingid} && locations == old(locations)
    {
      var booking := FindByIdAndDelete(bookingid);
      var deletedBooking := FindByIdAndDelete(bookingid);
      if deletedBooking.Some? {
        // The first call already removed the booking, so the second finds
        // nothing: the `bookedspots` decrement guarded here can never run.
        assert false;
      }
    }

    /** The delete as intended: the result of the one `findByIdAndDelete` guards the decrement. */
    method DeleteBookingOnce(bookingid: Id)
      modifies this
      ensures State() == DeleteBookingIntended(old(State()), bookingid)
    {
      var deletedBooking := FindByIdAndDelete(bookingid);
      if deletedBooking.Some? {
        IncBookedSpots(deletedBooking.value.locationid, -1);
      }
    }
  }

  // ---------------------------------------------------------------------
  // Properties
  // ---------------------------------------------------------------------

  /** Toggling twice from AVAILABLE restores AVAILABLE; a missing location is left alone. */
  lemma ToggleTwice(db: Db, id: Id)
    ensures id in db.locations && db.locations[id].status == Available ==>
              ToggleOutcome(ToggleOutcome(db, id), id) == db
    ensures id in db.locations && db.locations[id].status != Available ==>
              ToggleOutcome(db, id).locations[id].status == Available
    ensures id !in db.locations ==> ToggleOutcome(db, id) == db
  {
  }

  /** The decrement touches only the matching location's counter, by exactly `delta`. */
  lemma AdjustBookedSpotsEffect(locations: map<Id, ParkingLocation>, locId: Option<Id>, delta: int)
    ensures var r := AdjustBookedSpots(locations, locId, delta);
            && r.Keys == locations.Keys
            && (forall id | id in locations && Some(id) != locId :: r[id] == locations[id])
            && (locId.Some? && locId.value in locations ==>
                  r[locId.value] == locations[locId.value].(bookedspots := locations[locId.value].bookedspots + delta))
  {
  }

  /** Cancelling an unknown booking fails with code 1 and changes nothing. */
  lemma CancelUnknown(db: Db, bookingid: Id)
    requires bookingid !in db.bookings
    ensures CancelOutcome(db, bookingid).response.code == 1
    ensures CancelOutcome(db, bookingid).after == db
  {
  }

  /**
   * Cancelling is idempotent: a second cancel succeeds and changes nothing,
   * so no counter is decremented twice.
   */
  lemma {:induction false} CancelIdempotent(db: Db, bookingid: Id)
    requires bookingid in db.bookings
    ensures var once := CancelOutcome(db, bookingid).after;
            && CancelOutcome(once, bookingid).response == Message(0, MsgAlreadyCancelled)
            && CancelOutcome(once, bookingid).after == once
  {
    var once := CancelOutcome(db, bookingid).after;
    assert once.bookings[bookingid].status == Cancelled;
  }

  /**
   * Cancelling a booking that is not yet cancelled (PENDING ones included)
   * sets it CANCELLED with amount 0, keeps its total amount, lowers its
   * location's counter by exactly one, returns code 0 and changes nothing else.
   */
  lemma {:induction false} CancelEffect(db: Db, bookingid: Id)
    requires bookingid in db.bookings && db.bookings[bookingid].status != Cancelled
    ensures var o := CancelOutcome(db, bookingid);
            var b := db.bookings[bookingid];
            && o.response.code == 0
            && o.after.bookings.Keys == db.bookings.Keys
            && o.after.bookings[bookingid] == b.(status := Cancelled, amount := Some(0))
            && o.after.bookings[bookingid].totalamount == b.totalamount
            && (forall id | id in db.bookings && id != bookingid :: o.after.bookings[id] == db.bookings[id])
            && o.after.locations.Keys == db.locations.Keys
            && (forall l | l in db.locations && Some(l) != b.locationid :: o.after.locations[l] == db.locations[l])
            && (b.locationid.Some? && b.locationid.value in db.locations ==>
                  o.after.locations[b.locationid.value].bookedspots
                  == db.locations[b.locationid.value].bookedspots - 1)
  {
    AdjustBookedSpotsEffect(db.locations, db.bookings[bookingid].locationid, -1);
  }

  /**
   * A cancel frees the booking's place in every later search: each
   * search-time count loses the cancelled booking, so it drops by one exactly
   * where the booking was counted and stays the same elsewhere.
   */
  lemma {:induction false} CancelReleasesSlot(db: Db, bookingid: Id, locId: Id, st: Instant, et: Instant)
    requires bookingid in db.bookings
    ensures var after := CancelOutcome(db, bookingid).after;
            && Occupying(after.bookings, locId, st, et) == Occupying(db.bookings, locId, st, et) - {bookingid}
            && |Occupying(after.bookings, locId, st, et)|
               == |Occupying(db.bookings, locId, st, et)|
                  - (if CountsAgainst(db.bookings[bookingid], locId, st, et) then 1 else 0)
  {
    var b := db.bookings[bookingid];
    var before := Occupying(db.bookings, locId, st, et);
    if b.status == Cancelled {
      assert bookingid !in before;
      assert before - {bookingid} == before;
    } else {
      OccupyingIgnoresUnbooked(db.bookings, bookingid, b.(status := Cancelled, amount := Some(0)), locId, st, et);
      if bookingid in before {
        assert |before - {bookingid}| == |before| - 1;
      } else {
        assert before - {bookingid} == before;
      }
    }
  }

  /** An edit whose end does not come after its start fails with code 1 and changes nothing. */
  lemma UpdateRejectsBadInterval(db: Db, selfid: Id, date: Instant, st: Instant, et: Instant)
    requires st >= et
    ensures UpdateOutcome(db, selfid, date, st, et) == Outcome(Message(1, MsgBadInterval), db)
  {
  }

  /** An edit whose collisions fill the location fails with code 1 and changes nothing. */
  lemma UpdateRejectsWhenFull(db: Db, selfid: Id, date: Instant, st: Instant, et: Instant)
    requires st < et && selfid in db.bookings
    requires db.bookings[selfid].locationid.Some? && db.bookings[selfid].locationid.value in db.locations
    requires var original := db.bookings[selfid];
             |EditConflicts(db.bookings, selfid, original.locationid.value, original.starttime, original.endtime, st, et)|
             >= db.locations[original.locationid.value].numberofspots
    ensures UpdateOutcome(db, selfid, date, st, et) == Outcome(Message(1, MsgNoSlots), db)
  {
  }

  /** An edit never touches a location or another booking, and never adds or removes a booking. */
  lemma UpdateTouchesOnlySelf(db: Db, selfid: Id, date: Instant, st: Instant, et: Instant)
    ensures var after := UpdateOutcome(db, selfid, date, st, et).after;
            && after.locations == db.locations
            && after.bookings.Keys == db.bookings.Keys
            && (forall id | id in db.bookings && id != selfid :: after.bookings[id] == db.bookings[id])
  {
  }

  /**
   * An accepted edit that costs no more than the stored total is applied at
   * once: date, start, end and total amount are overwritten (the total with the
   * new price), every other field is kept, and the result is code 0. Any edit
   * that does not end in code 0 or 100 leaves the store unchanged.
   */
  lemma UpdateFreeEdit(db: Db, selfid: Id, date: Instant, st: Instant, et: Instant)
    requires EditAccepted(db, selfid, st, et)
    requires EditPrice(db, selfid, st, et) <= db.bookings[selfid].totalamount
    ensures var o := UpdateOutcome(db, selfid, date, st, et);
            && o.response == Message(0, MsgUpdated)
            && o.after.bookings[selfid]
               == db.bookings[selfid].(bookingdate := date, starttime := st, endtime := et,
                                       totalamount := EditPrice(db, selfid, st, et))
  {
  }

  /**
   * An accepted edit that costs more than the stored total changes nothing
   * yet: the result is a payment redirect (code 100) charging exactly the
   * difference, whose metadata carries the new interval and the new total.
   */
  lemma UpdatePaidEdit(db: Db, selfid: Id, date: Instant, st: Instant, et: Instant)
    requires EditAccepted(db, selfid, st, et)
    requires EditPrice(db, selfid, st, et) > db.bookings[selfid].totalamount
    ensures var o := UpdateOutcome(db, selfid, date, st, et);
            && o.after == db
            && o.response.PaymentRedirect?
            && o.response.code == 100
            && o.response.session.unitAmount > 0
            && o.response.session.unitAmount + db.bookings[selfid].totalamount
               == o.response.session.metadata.newTotalAmount
            && o.response.session.metadata
               == EditMetadata("true", selfid, date, st, et, EditPrice(db, selfid, st, et))
  {
  }

  /** The response code says which case happened: 0 applied the edit, anything else left the store as it was. */
  lemma UpdateCodeDecidesChange(db: Db, selfid: Id, date: Instant, st: Instant, et: Instant)
    ensures var o := UpdateOutcome(db, selfid, date, st, et);
            && (o.response.code == 0 <==>
                  EditAccepted(db, selfid, st, et) && EditPrice(db, selfid, st, et) <= db.bookings[selfid].totalamount)
            && (o.response.code == 100 <==>
                  EditAccepted(db, selfid, st, et) && EditPrice(db, selfid, st, et) > db.bookings[selfid].totalamount)
            && (o.response.code != 0 ==> o.after == db)
  {
  }

  /**
   * Shortening a booking that was paid in full never asks for a payment: with
   * a non-negative rate, an accepted edit to an interval no longer than the
   * stored one is a free edit.
   */
  lemma {:induction false} ShorterEditIsFree(db: Db, selfid: Id, date: Instant, st: Instant, et: Instant)
    requires EditAccepted(db, selfid, st, et)
    requires var b := db.bookings[selfid];
             var rate := db.locations[b.locationid.value].hourly;
             && rate >= 0
             && b.totalamount >= PriceInPaise(b.starttime, b.endtime, rate)
             && et - st <= b.endtime - b.starttime
    ensures UpdateOutcome(db, selfid, date, st, et).response == Message(0, MsgUpdated)
  {
    var b := db.bookings[selfid];
    PriceMonotone(st, et, b.starttime, b.endtime, db.locations[b.locationid.value].hourly);
  }

  /**
   * As written, deleting a booking never decrements any counter: the first
   * call already removed the booking, so the second finds nothing.
   */
  lemma DeleteNeverDecrements(db: Db, bookingid: Id)
    ensures DeleteBookingAsWritten(db, bookingid) == Db(db.locations, db.bookings - {bookingid})
  {
  }

  /**
   * Deleting as intended removes the booking and lowers its location's
   * counter by exactly one; a booking that was not there changes nothing.
   */
  lemma {:induction false} DeleteIntendedReleasesSpot(db: Db, bookingid: Id)
    ensures var after := DeleteBookingIntended(db, bookingid);
            && after.bookings == db.bookings - {bookingid}
            && after.locations.Keys == db.locations.Keys
            && (bookingid !in db.bookings ==> after == db)
            && (bookingid in db.bookings ==>
                  var l := db.bookings[bookingid].locationid;
                  && (forall k | k in db.locations && Some(k) != l :: after.locations[k] == db.locations[k])
                  && (l.Some? && l.value in db.locations ==>
                        after.locations[l.value].bookedspots == db.locations[l.value].bookedspots - 1))
  {
    if bookingid in db.bookings {
      AdjustBookedSpotsEffect(db.locations, db.bookings[bookingid].locationid, -1);
    }
  }

  /**
   * At a one-spot location holding one BOOKED booking [540, 600), a search
   * for [570, 585) finds the location FULL; once that booking is cancelled the
   * same search finds it free, and its counter is back to 0.
   */
  lemma CancelThenSearch()
    ensures var location := ParkingLocation("A", 60, 1, 1, Available);
            var db := Db(map["L" := location], map["a" := Reserved("L", 540, 600)]);
            var after := CancelOutcome(db, "a").after;
            && FindNearbyLocations([Listing("L", location)], db.bookings, 570, 585)[0].location.status == Full
            && FindNearbyLocations([Listing("L", location)], after.bookings, 570, 585)[0].location.status == Available
            && after.locations["L"].bookedspots == 0
  {
    var location := ParkingLocation("A", 60, 1, 1, Available);
    var db := Db(map["L" := location], map["a" := Reserved("L", 540, 600)]);
    var after := CancelOutcome(db, "a").after;
    assert "a" in Occupying(db.bookings, "L", 570, 585);
    assert |Occupying(db.bookings, "L", 570, 585)| >= 1;
    CancelReleasesSlot(db, "a", "L", 570, 585);
    FindNearbyEntry([Listing("L", location)], db.bookings, 570, 585, 0);
    FindNearbyEntry([Listing("L", location)], after.bookings, 570, 585, 0);
  }

  // ---------------------------------------------------------------------
  // The stored counter against the bookings it stands for
  // ---------------------------------------------------------------------

  /** The BOOKED bookings that reference location `locId`, whatever their times. */
  function BookedAt(bookings: map<Id, Booking>, locId: Id): (r: set<Id>)
    ensures forall id | id in r :: id in bookings && bookings[id].status == Booked
  {
    set id | id in bookings && bookings[id].locationid == Some(locId) && bookings[id].status == Booked
  }

  /** The location's `bookedspots` counter equals its number of BOOKED bookings. */
  predicate CounterExact(db: Db, locId: Id)
  {
    locId in db.locations && db.locations[locId].bookedspots == |BookedAt(db.bookings, locId)|
  }

  /** Cancelling a BOOKED booking keeps every exact counter exact. */
  lemma {:induction false} CancelBookedKeepsCounterExact(db: Db, bookingid: Id, locId: Id)
    requires bookingid in db.bookings && db.bookings[bookingid].status == Booked
    requires CounterExact(db, locId)
    ensures CounterExact(CancelOutcome(db, bookingid).after, locId)
  {
    var b := db.bookings[bookingid];
    var after := CancelOutcome(db, bookingid).after;
    var before := BookedAt(db.bookings, locId);
    AdjustBookedSpotsEffect(db.locations, b.locationid, -1);
    assert BookedAt(after.bookings, locId) == before - {bookingid};
    if b.locationid == Some(locId) {
      assert bookingid in before;
      assert |before - {bookingid}| == |before| - 1;
    } else {
      assert before - {bookingid} == before;
    }
  }

  /**
   * Cancelling a PENDING booking still decrements its location's counter,
   * though the booking was never counted: an exact counter ends one short.
   */
  lemma {:induction false} CancelPendingDrifts(db: Db, bookingid: Id, locId: Id)
    requires bookingid in db.bookings && db.bookings[bookingid].status == Pending
    requires db.bookings[bookingid].locationid == Some(locId) && CounterExact(db, locId)
    ensures var after := CancelOutcome(db, bookingid).after;
            after.locations[locId].bookedspots == |BookedAt(after.bookings, locId)| - 1
  {
    var after := CancelOutcome(db, bookingid).after;
    assert BookedAt(after.bookings, locId) == BookedAt(db.bookings, locId);
  }

  /** An edit never changes a booking's status or location, so every exact counter stays exact. */
  lemma {:induction false} UpdateKeepsCounterExact(db: Db, selfid: Id, date: Instant, st: Instant, et: Instant, locId: Id)
    requires CounterExact(db, locId)
    ensures CounterExact(UpdateOutcome(db, selfid, date, st, et).after, locId)
  {
    var after := UpdateOutcome(db, selfid, date, st, et).after;
    assert BookedAt(after.bookings, locId) == BookedAt(db.bookings, locId);
  }

  /**
   * A free edit leaves the booking's stored total equal to the price of its
   * new interval at its location's rate.
   */
  lemma FreeEditTotalIsPrice(db: Db, selfid: Id, date: Instant, st: Instant, et: Instant)
    requires UpdateOutcome(db, selfid, date, st, et).response.code == 0
    ensures var b := UpdateOutcome(db, selfid, date, st, et).after.bookings[selfid];
            && b.starttime == st && b.endtime == et
            && b.totalamount == PriceInPaise(st, et, db.locations[b.locationid.value].hourly)
  {
  }

  /**
   * Deleting a BOOKED booking as written leaves its location's counter
   * unchanged, so an exact counter ends one too high.
   */
  lemma {:induction false} DeleteAsWrittenDrifts(db: Db, bookingid: Id, locId: Id)
    requires bookingid in db.bookings && db.bookings[bookingid].status == Booked
    requires db.bookings[bookingid].locationid == Some(locId) && CounterExact(db, locId)
    ensures var after := DeleteBookingAsWritten(db, bookingid);
            after.locations[locId].bookedspots == |BookedAt(after.bookings, locId)| + 1
  {
    var before := BookedAt(db.bookings, locId);
    DeleteNeverDecrements(db, bookingid);
    assert BookedAt(db.bookings - {bookingid}, locId) == before - {bookingid};
    assert |before - {bookingid}| == |before| - 1;
  }

  /** Deleting a BOOKED booking as intended keeps every exact counter exact. */
  lemma {:induction false} DeleteIntendedKeepsCounterExact(db: Db, bookingid: Id, locId: Id)
    requires bookingid in db.bookings && db.bookings[bookingid].status == Booked
    requires CounterExact(db, locId)
    ensures CounterExact(DeleteBookingIntended(db, bookingid), locId)
  {
    var b := db.bookings[bookingid];
    var before := BookedAt(db.bookings, locId);
    AdjustBookedSpotsEffect(db.locations, b.locationid, -1);
    assert BookedAt(db.bookings - {bookingid}, locId) == before - {bookingid};
    if b.locationid == Some(locId) {
      assert bookingid in before;
      assert |before - {bookingid}| == |before| - 1;
    } else {
      assert before - {bookingid} == before;
    }
  }
}
