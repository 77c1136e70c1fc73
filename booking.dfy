/**
 * The booking document (schemas/booking.ts): its fields and the defaults the
 * schema supplies when a document is created.
 */
module BookingSchema {
  import opened Wrappers

  /** A document identifier (a database object id). */
  type Id = string

  /** A point in time, counted in whole minutes. */
  type Instant = int

  /** The three states a booking goes through: created, paid for, cancelled. */
  datatype BookingStatus = Pending | Booked | Cancelled

  /**
   * A stored booking. `amount` is a plain optional number with no default;
   * `totalamount` is required and defaults to 0; nothing links the two.
   * `starttime` and `endtime` are plain dates: the schema does not order them.
   */
  datatype Booking = Booking(
    locationid: Option<Id>,
    userid: string,
    bookingdate: Instant,
    starttime: Instant,
    endtime: Instant,
    timeoffset: int,
    amount: Option<int>,
    phone: string,
    plate: string,
    status: BookingStatus,
    stripesessionid: Option<string>,
    totalamount: int)

  /** Schema defaults. A missing location reference is stored as null (`None`). */
  const DefaultStatus: BookingStatus := Pending
  const DefaultTotalAmount: int := 0

  /**
   * Creating a booking document. Each `Option` parameter that is `None` is a
   * field the creator left out; the schema fills in its default.
   */
  function NewBooking(
    locationid: Option<Id>,
    userid: string,
    bookingdate: Instant,
    starttime: Instant,
    endtime: Instant,
    timeoffset: int,
    amount: Option<int>,
    phone: string,
    plate: string,
    status: Option<BookingStatus>,
    stripesessionid: Option<string>,
    totalamount: Option<int>): (b: Booking)
    ensures status.None? ==> b.status == Pending
    ensures status.Some? ==> b.status == status.value
    ensures totalamount.None? ==> b.totalamount == 0
    ensures totalamount.Some? ==> b.totalamount == totalamount.value
    ensures b.locationid == locationid && b.amount == amount
    ensures b.starttime == starttime && b.endtime == endtime
  {
    Booking(
      locationid, userid, bookingdate, starttime, endtime, timeoffset, amount, phone, plate,
      if status.Some? then status.value else DefaultStatus,
      stripesessionid,
      if totalamount.Some? then totalamount.value else DefaultTotalAmount)
  }

  /**
   * A booking created with only its times given is PENDING, has total amount 0,
   * a null location and no amount; its times are stored as given, even reversed.
   */
  lemma NewBookingDefaults(userid: string, bookingdate: Instant, starttime: Instant, endtime: Instant)
    ensures var b := NewBooking(None, userid, bookingdate, starttime, endtime, 0, None, "", "", None, None, None);
            b.status == Pending && b.totalamount == 0 && b.locationid.None? && b.amount.None?
            && b.starttime == starttime && b.endtime == endtime
  {
  }
}
