/**
 * The price of a reservation in paise (hundredths of a rupee): the hourly
 * rate spread over the minutes booked, rounded up to a whole paisa.
 */
module Pricing {
  import opened BookingSchema

  const MinutesPerHour: int := 60
  const PaisePerRupee: int := 100

  /** The least integer `q` with `k * q >= n`. */
  function CeilDiv(n: int, k: int): (q: int)
    requires k > 0
    ensures k * q >= n && k * (q - 1) < n
  {
    var q := (n + k - 1) / k;
    assert k * q + (n + k - 1) % k == n + k - 1;
    q
  }

  /**
   * Price of the interval from `startTime` to `endTime` at `hourlyRate` rupees
   * an hour: 0 when the interval is empty or reversed, otherwise the least
   * whole number of paise not below rate * minutes * 100 / 60.
   */
  function PriceInPaise(startTime: Instant, endTime: Instant, hourlyRate: int): (r: int)
    ensures endTime <= startTime ==> r == 0
    ensures startTime < endTime ==>
              var exact := hourlyRate * (endTime - startTime) * PaisePerRupee;
              MinutesPerHour * r >= exact && MinutesPerHour * (r - 1) < exact
  {
    var durationInMinutes := endTime - startTime;
    if durationInMinutes <= 0 then 0
    else CeilDiv(hourlyRate * durationInMinutes * PaisePerRupee, MinutesPerHour)
  }

  /** With a non-negative rate no interval costs less than nothing. */
  lemma PriceNonNegative(startTime: Instant, endTime: Instant, hourlyRate: int)
    requires hourlyRate >= 0
    ensures PriceInPaise(startTime, endTime, hourlyRate) >= 0
  {
    if startTime < endTime {
      MulNonNegative(hourlyRate, (endTime - startTime) * PaisePerRupee);
      assert hourlyRate * ((endTime - startTime) * PaisePerRupee)
          == hourlyRate * (endTime - startTime) * PaisePerRupee;
    }
  }

  /** The price depends on the duration only, and never falls as the duration grows. */
  lemma PriceMonotone(s1: Instant, e1: Instant, s2: Instant, e2: Instant, hourlyRate: int)
    requires hourlyRate >= 0
    requires e1 - s1 <= e2 - s2
    ensures PriceInPaise(s1, e1, hourlyRate) <= PriceInPaise(s2, e2, hourlyRate)
  {
    PriceNonNegative(s2, e2, hourlyRate);
    if s1 < e1 {
      var d1, d2 := e1 - s1, e2 - s2;
      MulNonNegative(hourlyRate, (d2 - d1) * PaisePerRupee);
      assert hourlyRate * d1 * PaisePerRupee <= hourlyRate * d2 * PaisePerRupee by {
        assert hourlyRate * d2 * PaisePerRupee - hourlyRate * d1 * PaisePerRupee
            == hourlyRate * ((d2 - d1) * PaisePerRupee);
      }
    }
  }

  /**
   * Splitting a reservation in two at any instant costs at least as much as
   * the whole, and at most one paisa more (each half rounds up on its own).
   */
  lemma PriceSplit(a: Instant, b: Instant, c: Instant, hourlyRate: int)
    requires a < b < c
    ensures PriceInPaise(a, c, hourlyRate)
            <= PriceInPaise(a, b, hourlyRate) + PriceInPaise(b, c, hourlyRate)
            <= PriceInPaise(a, c, hourlyRate) + 1
  {
    assert hourlyRate * (c - a) * PaisePerRupee
        == hourlyRate * (b - a) * PaisePerRupee + hourlyRate * (c - b) * PaisePerRupee;
  }

  /** A whole number of hours is charged exactly, with no rounding. */
  lemma PriceWholeHours(startTime: Instant, hours: int, hourlyRate: int)
    requires hours > 0
    ensures PriceInPaise(startTime, startTime + hours * MinutesPerHour, hourlyRate)
            == hourlyRate * hours * PaisePerRupee
  {
    var r := PriceInPaise(startTime, startTime + hours * MinutesPerHour, hourlyRate);
    var exact := hourlyRate * (hours * MinutesPerHour) * PaisePerRupee;
    assert exact == MinutesPerHour * (hourlyRate * hours * PaisePerRupee);
  }

  /** Partial units round up: 61 minutes at 60/hour is 6100 paise, one minute at 25/hour is 42. */
  lemma PriceRoundsUp()
    ensures PriceInPaise(600, 661, 60) == 6100
    ensures PriceInPaise(600, 690, 60) == 9000
    ensures PriceInPaise(600, 601, 25) == 42
    ensures PriceInPaise(660, 600, 25) == 0
  {
  }

  lemma MulNonNegative(x: int, y: int)
    requires x >= 0 && y >= 0
    ensures x * y >= 0
  {
  }
}
