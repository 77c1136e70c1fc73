/**
 * The parking location document as the reservation actions use it. Only the
 * fields those actions read or write are kept: the address, the hourly price,
 * the capacity, the booked-spot counter and the availability status.
 */
module Locations {
  import opened BookingSchema

  datatype LocationStatus = Available | NotAvailable | Full

  datatype ParkingLocation = ParkingLocation(
    address: string,
    hourly: int,
    numberofspots: int,
    bookedspots: int,
    status: LocationStatus)

  /** A location together with its identifier, as a query returns it. */
  datatype Listing = Listing(id: Id, location: ParkingLocation)
}
