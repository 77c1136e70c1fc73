/**
 * Which bookings collide with a requested interval: the search-time count
 * that decides whether a location is full, and the collision query that an
 * edit runs, which leaves out the booking being edited.
 */
module Availability {
  import opened Wrappers
  import opened BookingSchema
  import opened Locations

  /** Half-open intervals [s1, e1) and [s2, e2) share an instant. */
  predicate Overlaps(s1: Instant, e1: Instant, s2: Instant, e2: Instant)
  {
    s1 < e2 && s2 < e1
  }

  /** The search filter: at the location, BOOKED, starting before `et` and ending after `st`. */
  predicate CountsAgainst(b: Booking, locId: Id, st: Instant, et: Instant)
  {
    b.locationid == Some(locId) && b.status == Booked && b.starttime < et && b.endtime > st
  }

  /** The bookings the search query finds for one location. */
  function Occupying(bookings: map<Id, Booking>, locId: Id, st: Instant, et: Instant): (r: set<Id>)
    ensures r <= bookings.Keys
  {
    set id | id in bookings && CountsAgainst(bookings[id], locId, st, et)
  }

  /**
   * One location as the search returns it: `bookedspots` replaced by the
   * number of colliding bookings, and the status replaced by FULL when that
   * number reaches the capacity.
   */
  function SearchEntry(l: Listing, bookings: map<Id, Booking>, st: Instant, et: Instant): Listing
  {
    var count := |Occupying(bookings, l.id, st, et)|;
    if count < l.location.numberofspots then
      l.(location := l.location.(bookedspots := count))
    else
      l.(location := l.location.(bookedspots := count, status := Full))
  }

  /** The search over the candidate locations near the requested point, in their order. */
  function FindNearbyLocations(candidates: seq<Listing>, bookings: map<Id, Booking>, st: Instant, et: Instant)
    : (r: seq<Listing>)
    ensures |r| == |candidates|
    ensures forall i :: 0 <= i < |r| ==> r[i] == SearchEntry(candidates[i], bookings, st, et)
  {
    if candidates == [] then []
    else [SearchEntry(candidates[0], bookings, st, et)] + FindNearbyLocations(candidates[1..], bookings, st, et)
  }

  /** The search filter is exactly "BOOKED at the location and overlapping [st, et)". */
  lemma CountsAgainstIsOverlap(b: Booking, locId: Id, st: Instant, et: Instant)
    ensures CountsAgainst(b, locId, st, et)
            <==> b.locationid == Some(locId) && b.status == Booked
                 && Overlaps(b.starttime, b.endtime, st, et)
  {
  }

  /** Intervals that only touch at an endpoint never count against each other. */
  lemma TouchingNeverCounts(b: Booking, locId: Id, st: Instant, et: Instant)
    requires b.endtime == st || b.starttime == et
    requires b.starttime <= b.endtime && st <= et
    ensures !CountsAgainst(b, locId, st, et)
  {
  }

  /**
   * Each returned location keeps its id and every field but two: `bookedspots`
   * is the number of colliding bookings; the status becomes FULL when that
   * number reaches the capacity and is left as stored otherwise.
   */
  lemma {:induction false} FindNearbyEntry(candidates: seq<Listing>, bookings: map<Id, Booking>,
                                           st: Instant, et: Instant, i: int)
    requires 0 <= i < |candidates|
    ensures var r := FindNearbyLocations(candidates, bookings, st, et);
            var c := candidates[i];
            var count := |Occupying(bookings, c.id, st, et)|;
            && |r| == |candidates|
            && r[i].id == c.id
            && r[i].location.bookedspots == count
            && (count >= c.location.numberofspots ==> r[i].location.status == Full)
            && (count < c.location.numberofspots ==> r[i].location.status == c.location.status)
            && r[i].location.address == c.location.address
            && r[i].location.hourly == c.location.hourly
            && r[i].location.numberofspots == c.location.numberofspots
  {
  }

  /**
   * Only BOOKED bookings occupy spots: a booking in any other status can be
   * added, changed or removed without changing any search-time count.
   */
  lemma {:induction false} OccupyingIgnoresUnbooked(bookings: map<Id, Booking>, id: Id, b: Booking,
                                                    locId: Id, st: Instant, et: Instant)
    requires b.status != Booked
    ensures Occupying(bookings[id := b], locId, st, et) == Occupying(bookings, locId, st, et) - {id}
    ensures Occupying(bookings - {id}, locId, st, et) == Occupying(bookings, locId, st, et) - {id}
  {
    var before := Occupying(bookings, locId, st, et);
    var changed := Occupying(bookings[id := b], locId, st, et);
    var removed := Occupying(bookings - {id}, locId, st, et);
    forall x ensures x in changed <==> x in before - {id} {
      if x == id {
        assert !CountsAgainst(b, locId, st, et);
      }
    }
    forall x ensures x in removed <==> x in before - {id} {
    }
  }

  // ---------------------------------------------------------------------
  // The collision query of an edit
  // ---------------------------------------------------------------------

  /**
   * The time filter an edit applies, chosen by which endpoint of the booking
   * changed: both, only the start, only the end, or neither (no filter).
   */
  predicate EditTimeFilter(b: Booking, origStart: Instant, origEnd: Instant, st: Instant, et: Instant)
  {
    if st != origStart && et != origEnd then
      b.starttime < et && b.endtime > st
    else if st != origStart then
      b.starttime <= st && b.endtime > st
    else if et != origEnd then
      b.starttime < et && b.endtime >= et
    else
      true
  }

  /**
   * The bookings an edit of `selfid` (at `locId`, originally [origStart,
   * origEnd)) to [st, et) collides with, as the edit's query selects them.
   */
  function EditConflicts(bookings: map<Id, Booking>, selfid: Id, locId: Id,
                         origStart: Instant, origEnd: Instant, st: Instant, et: Instant): (r: set<Id>)
    ensures selfid !in r && r <= bookings.Keys
    ensures forall id | id in r :: bookings[id].locationid == Some(locId) && bookings[id].status == Booked
  {
    set id | id in bookings && id != selfid
             && bookings[id].locationid == Some(locId) && bookings[id].status == Booked
             && EditTimeFilter(bookings[id], origStart, origEnd, st, et)
  }

  /** When both endpoints change, the edit query is the search filter minus the edited booking. */
  lemma {:induction false} EditConflictsBothChanged(bookings: map<Id, Booking>, selfid: Id, locId: Id,
                                                    origStart: Instant, origEnd: Instant, st: Instant, et: Instant)
    requires st != origStart && et != origEnd
    ensures EditConflicts(bookings, selfid, locId, origStart, origEnd, st, et)
            == UniformEditConflicts(bookings, selfid, locId, st, et)
  {
    var asWritten := EditConflicts(bookings, selfid, locId, origStart, origEnd, st, et);
    var uniform := UniformEditConflicts(bookings, selfid, locId, st, et);
    forall x ensures x in asWritten <==> x in uniform {
    }
  }

  /**
   * As written, moving only the start earlier tests only the new start
   * instant: a BOOKED booking lying wholly inside the added time is missed.
   * Editing [600, 660) to [540, 660) at a one-spot location holding a
   * BOOKED booking [570, 600) finds no collision, though one exists.
   */
  lemma OnlyStartChangedMissesInside()
    ensures var bookings := map["self" := Reserved("L", 600, 660), "other" := Reserved("L", 570, 600)];
            && EditConflicts(bookings, "self", "L", 600, 660, 540, 660) == {}
            && UniformEditConflicts(bookings, "self", "L", 540, 660) == {"other"}
  {
    var bookings := map["self" := Reserved("L", 600, 660), "other" := Reserved("L", 570, 600)];
    assert "other" in UniformEditConflicts(bookings, "self", "L", 540, 660);
  }

  /**
   * As written, an edit that keeps both endpoints applies no time filter and
   * counts every BOOKED booking at the location, on any day: keeping
   * [600, 660) at a one-spot location whose only other booking is
   * [2040, 2100) counts one collision where none exists.
   */
  lemma UnchangedTimesCountDisjoint()
    ensures var bookings := map["self" := Reserved("L", 600, 660), "other" := Reserved("L", 2040, 2100)];
            && EditConflicts(bookings, "self", "L", 600, 660, 600, 660) == {"other"}
            && UniformEditConflicts(bookings, "self", "L", 600, 660) == {}
  {
    var bookings := map["self" := Reserved("L", 600, 660), "other" := Reserved("L", 2040, 2100)];
    assert "other" in EditConflicts(bookings, "self", "L", 600, 660, 600, 660);
  }

  /** A BOOKED booking at `locId` for [s, e), every other field empty. */
  function Reserved(locId: Id, s: Instant, e: Instant): Booking
  {
    Booking(Some(locId), "", 0, s, e, 0, None, "", "", Booked, None, 0)
  }

  /**
   * The collision query with one rule for every edit: the bookings the search
   * would count for the new interval, other than the one being edited.
   */
  function UniformEditConflicts(bookings: map<Id, Booking>, selfid: Id, locId: Id, st: Instant, et: Instant)
    : (r: set<Id>)
    ensures selfid !in r
  {
    Occupying(bookings, locId, st, et) - {selfid}
  }

  /**
   * The uniform query selects exactly the other BOOKED bookings at the
   * location that overlap [st, et), and its size is the search count less one
   * exactly when the edited booking is itself counted.
   */
  lemma {:induction false} UniformEditConflictsExact(bookings: map<Id, Booking>, selfid: Id, locId: Id,
                                                     st: Instant, et: Instant)
    ensures var r := UniformEditConflicts(bookings, selfid, locId, st, et);
            && (forall id :: id in r <==>
                  id in bookings && id != selfid && bookings[id].locationid == Some(locId)
                  && bookings[id].status == Booked
                  && Overlaps(bookings[id].starttime, bookings[id].endtime, st, et))
            && |r| == |Occupying(bookings, locId, st, et)|
                      - (if selfid in bookings && CountsAgainst(bookings[selfid], locId, st, et) then 1 else 0)
  {
    var occ := Occupying(bookings, locId, st, et);
    if selfid in occ {
      assert |occ - {selfid}| == |occ| - 1;
    } else {
      assert occ - {selfid} == occ;
    }
  }
}
