/**
 * The trip scheduler (app/Services/TripScheduler.php). The trips table is the
 * state the scheduler reads and writes; `Schedule` validates the window,
 * looks for a same-company trip that shares the driver or the vehicle and
 * overlaps the window, and appends the new trip when there is none.
 */
module Scheduler {
  import opened Wrappers
  import opened Trips

  /**
   * The outcome of a scheduling request. Both failures are one exception type
   * in the source, told apart by the field key and message they carry.
   */
  datatype ScheduleResult = Ok(trip: Trip) | EndNotAfterStart | AlreadyBooked {
    /** The form field the validation error is attached to. */
    function Key(): (k: string)
      requires !Ok?
      ensures EndNotAfterStart? ==> k == "ends_at"
      ensures AlreadyBooked? ==> k == "starts_at"
    {
      if EndNotAfterStart? then "ends_at" else "starts_at"
    }

    /** The message shown to the user. */
    function Message(): (m: string)
      requires !Ok?
      ensures m == "End must be after start." <==> EndNotAfterStart?
      ensures m == "Driver or vehicle already booked in this period." <==> AlreadyBooked?
    {
      if EndNotAfterStart? then "End must be after start." else "Driver or vehicle already booked in this period."
    }
  }

  /** The two refusals reach the caller under different keys and with different messages. */
  lemma RefusalsAreDistinguishable(r: ScheduleResult, r': ScheduleResult)
    requires !r.Ok? && !r'.Ok? && r != r'
    ensures r.Key() != r'.Key() && r.Message() != r'.Message()
  {
  }

  /** The row inserted for a successful request: no completion and no cancellation yet. */
  function Booking(company: CompanyId, driver: DriverId, vehicle: VehicleId, start: Time, end: Time): Trip {
    Trip(company, driver, vehicle, start, end, None, None)
  }

  /** Stored trip `t` blocks a request: same company, same driver or vehicle, overlapping window. */
  predicate Blocks(t: Trip, company: CompanyId, driver: DriverId, vehicle: VehicleId, start: Time, end: Time) {
    t.company == company && (t.driver == driver || t.vehicle == vehicle) && Overlapping(t, start, end)
  }

  /** The overlap query of the scheduler: some stored trip blocks the request. */
  predicate HasConflict(trips: seq<Trip>, company: CompanyId, driver: DriverId, vehicle: VehicleId, start: Time, end: Time) {
    exists i :: 0 <= i < |trips| && Blocks(trips[i], company, driver, vehicle, start, end)
  }

  /** Two trips compete for a resource: same company and the same driver or the same vehicle. */
  predicate SharesResource(a: Trip, b: Trip) {
    a.company == b.company && (a.driver == b.driver || a.vehicle == b.vehicle)
  }

  /** No two distinct stored trips that compete for a resource overlap. */
  ghost predicate NoDoubleBooking(trips: seq<Trip>) {
    forall i, j :: 0 <= i < |trips| && 0 <= j < |trips| && i != j && SharesResource(trips[i], trips[j]) ==>
      !Overlapping(trips[i], trips[j].startsAt, trips[j].endsAt)
  }

  class TripScheduler {
    /** The trips table, in insertion order. */
    var trips: seq<Trip>

    /** A scheduler over a table that already holds `existing` (rows need not have come from the scheduler). */
    constructor (existing: seq<Trip>)
      ensures trips == existing
    {
      trips := existing;
    }

    /**
     * Books `driver` and `vehicle` for `company` from `start` to `end`. The
     * window must be non-empty; the request is refused when a stored trip
     * blocks it, whatever that trip's completion or cancellation; otherwise
     * exactly one row is appended. A refused request leaves the table alone.
     */
    method Schedule(company: CompanyId, driver: DriverId, vehicle: VehicleId, start: Time, end: Time)
      returns (r: ScheduleResult)
      modifies this
      ensures r == EndNotAfterStart <==> end <= start
      ensures r == AlreadyBooked <==> start < end && HasConflict(old(trips), company, driver, vehicle, start, end)
      ensures r.Ok? <==> start < end && !HasConflict(old(trips), company, driver, vehicle, start, end)
      ensures r.Ok? ==> r.trip == Booking(company, driver, vehicle, start, end) && trips == old(trips) + [r.trip]
      ensures !r.Ok? ==> trips == old(trips)
      ensures NoDoubleBooking(old(trips)) ==> NoDoubleBooking(trips)
    {
      if end <= start {
        return EndNotAfterStart;
      }
      if HasConflict(trips, company, driver, vehicle, start, end) {
        return AlreadyBooked;
      }
      var t := Booking(company, driver, vehicle, start, end);
      if NoDoubleBooking(trips) {
        BookingKeepsNoDoubleBooking(trips, t);
      }
      trips := trips + [t];
      r := Ok(t);
    }
  }

  /** Appending a trip that no stored trip blocks keeps the table free of double bookings. */
  lemma BookingKeepsNoDoubleBooking(trips: seq<Trip>, t: Trip)
    requires NoDoubleBooking(trips)
    requires !HasConflict(trips, t.company, t.driver, t.vehicle, t.startsAt, t.endsAt)
    ensures NoDoubleBooking(trips + [t])
  {
    var s := trips + [t];
    forall i, j | 0 <= i < |s| && 0 <= j < |s| && i != j && SharesResource(s[i], s[j])
      ensures !Overlapping(s[i], s[j].startsAt, s[j].endsAt)
    {
      if i == |trips| {
        assert !Blocks(trips[j], t.company, t.driver, t.vehicle, t.startsAt, t.endsAt);
        OverlapSymmetric(t, trips[j]);
      } else if j == |trips| {
        assert !Blocks(trips[i], t.company, t.driver, t.vehicle, t.startsAt, t.endsAt);
      } else {
        assert s[i] == trips[i] && s[j] == trips[j];
      }
    }
  }

  /** Trips of another company never block a request. */
  lemma OtherCompanyNeverBlocks(trips: seq<Trip>, t: Trip, company: CompanyId, driver: DriverId, vehicle: VehicleId, start: Time, end: Time)
    requires t.company != company
    ensures HasConflict(trips + [t], company, driver, vehicle, start, end) == HasConflict(trips, company, driver, vehicle, start, end)
  {
    var s := trips + [t];
    if HasConflict(s, company, driver, vehicle, start, end) {
      var i :| 0 <= i < |s| && Blocks(s[i], company, driver, vehicle, start, end);
      assert i < |trips| && s[i] == trips[i];
    }
    if HasConflict(trips, company, driver, vehicle, start, end) {
      var i :| 0 <= i < |trips| && Blocks(trips[i], company, driver, vehicle, start, end);
      assert s[i] == trips[i];
    }
  }

  /** A stored trip that ends where the requested window starts does not block it. */
  lemma TripEndingAtStartNeverBlocks(trips: seq<Trip>, t: Trip, company: CompanyId, driver: DriverId, vehicle: VehicleId, start: Time, end: Time)
    requires t.endsAt == start
    ensures HasConflict(trips + [t], company, driver, vehicle, start, end) == HasConflict(trips, company, driver, vehicle, start, end)
  {
    var s := trips + [t];
    if HasConflict(s, company, driver, vehicle, start, end) {
      var i :| 0 <= i < |s| && Blocks(s[i], company, driver, vehicle, start, end);
      assert i < |trips| && s[i] == trips[i];
    }
    if HasConflict(trips, company, driver, vehicle, start, end) {
      var i :| 0 <= i < |trips| && Blocks(trips[i], company, driver, vehicle, start, end);
      assert s[i] == trips[i];
    }
  }

  /** Once a non-empty window is booked, the same request is blocked by the booking itself. */
  lemma RepeatedRequestConflicts(trips: seq<Trip>, company: CompanyId, driver: DriverId, vehicle: VehicleId, start: Time, end: Time)
    requires start < end
    ensures HasConflict(trips + [Booking(company, driver, vehicle, start, end)], company, driver, vehicle, start, end)
  {
    var s := trips + [Booking(company, driver, vehicle, start, end)];
    assert Blocks(s[|trips|], company, driver, vehicle, start, end);
  }

  /** Two tables that agree, row by row, on everything but the completion and cancellation timestamps. */
  predicate SameBookings(trips: seq<Trip>, trips': seq<Trip>) {
    |trips| == |trips'| &&
    forall i :: 0 <= i < |trips| ==>
      trips[i].company == trips'[i].company &&
      trips[i].driver == trips'[i].driver && trips[i].vehicle == trips'[i].vehicle &&
      trips[i].startsAt == trips'[i].startsAt && trips[i].endsAt == trips'[i].endsAt
  }

  /** The conflict check does not look at completion or cancellation: a cancelled trip blocks like any other. */
  lemma ConflictIgnoresFlags(trips: seq<Trip>, trips': seq<Trip>, company: CompanyId, driver: DriverId, vehicle: VehicleId, start: Time, end: Time)
    requires SameBookings(trips, trips')
    ensures HasConflict(trips, company, driver, vehicle, start, end) == HasConflict(trips', company, driver, vehicle, start, end)
  {
    if HasConflict(trips, company, driver, vehicle, start, end) {
      var i :| 0 <= i < |trips| && Blocks(trips[i], company, driver, vehicle, start, end);
      assert Blocks(trips'[i], company, driver, vehicle, start, end);
    }
    if HasConflict(trips', company, driver, vehicle, start, end) {
      var i :| 0 <= i < |trips'| && Blocks(trips'[i], company, driver, vehicle, start, end);
      assert Blocks(trips[i], company, driver, vehicle, start, end);
    }
  }

  /** A successful booking followed by the identical request: the second is refused as already booked. */
  method ScheduleTwice(s: TripScheduler, company: CompanyId, driver: DriverId, vehicle: VehicleId, start: Time, end: Time)
    returns (first: ScheduleResult, second: ScheduleResult)
    modifies s
    ensures first.Ok? ==> second == AlreadyBooked && s.trips == old(s.trips) + [first.trip]
  {
    first := s.Schedule(company, driver, vehicle, start, end);
    if first.Ok? {
      RepeatedRequestConflicts(old(s.trips), company, driver, vehicle, start, end);
    }
    second := s.Schedule(company, driver, vehicle, start, end);
  }
}
