/**
 * Driver availability (app/Models/Driver.php): a driver is available in a
 * window when none of the driver's trips overlaps it. The driver's trips are
 * the stored trips whose driver is that driver; company, completion and
 * cancellation are not consulted. The dashboard's "Available Drivers" figure
 * counts the drivers available in the empty window at the current instant.
 */
module Drivers {
  import opened Wrappers
  import opened Trips

  /** The `trips()` relation: the stored trips of driver `d`, in store order. */
  function TripsOf(trips: seq<Trip>, d: DriverId): (r: seq<Trip>)
    ensures forall t :: t in r <==> t in trips && t.driver == d
    ensures |r| <= |trips|
  {
    if trips == [] then []
    else (if trips[0].driver == d then [trips[0]] else []) + TripsOf(trips[1..], d)
  }

  /** The `availableBetween($start, $end)` scope for driver `d`: no trip of `d` overlaps the window. */
  function AvailableBetween(trips: seq<Trip>, d: DriverId, start: Time, end: Time): (r: bool)
    ensures r <==> forall t :: t in trips && t.driver == d ==> !Overlapping(t, start, end)
  {
    !exists t :: t in TripsOf(trips, d) && Overlapping(t, start, end)
  }

  /** The positions in `drivers` of the drivers available in the window. */
  function AvailableIndices(drivers: seq<DriverId>, trips: seq<Trip>, start: Time, end: Time): set<int> {
    set i: int | 0 <= i < |drivers| && AvailableBetween(trips, drivers[i], start, end)
  }

  /** Whether each listed driver is available in the window, position by position. */
  function Availability(drivers: seq<DriverId>, trips: seq<Trip>, start: Time, end: Time): (flags: seq<bool>)
    ensures |flags| == |drivers|
    ensures forall i :: 0 <= i < |drivers| ==> flags[i] == AvailableBetween(trips, drivers[i], start, end)
  {
    seq(|drivers|, i requires 0 <= i < |drivers| => AvailableBetween(trips, drivers[i], start, end))
  }

  /** The number of true entries. */
  function CountTrue(b: seq<bool>): (n: nat)
    ensures n == |set i: int | 0 <= i < |b| && b[i]|
    ensures n <= |b|
  {
    if b == [] then 0
    else
      var k := |b| - 1;
      assert (set i: int | 0 <= i < |b| && b[i]) ==
        (set i: int | 0 <= i < k && b[..k][i]) + (if b[k] then {k} else {});
      CountTrue(b[..k]) + (if b[k] then 1 else 0)
  }

  /** All entries are true exactly when the count is the length, and none is exactly when it is zero. */
  lemma {:induction false} CountTrueExtremes(b: seq<bool>)
    ensures CountTrue(b) == |b| <==> forall i :: 0 <= i < |b| ==> b[i]
    ensures CountTrue(b) == 0 <==> forall i :: 0 <= i < |b| ==> !b[i]
  {
    if b != [] {
      var k := |b| - 1;
      CountTrueExtremes(b[..k]);
      assert forall i :: 0 <= i < k ==> b[..k][i] == b[i];
    }
  }

  /** How many of `drivers` are available in the window (the count behind the dashboard figure). */
  function AvailableCount(drivers: seq<DriverId>, trips: seq<Trip>, start: Time, end: Time): (n: nat)
    ensures n == |AvailableIndices(drivers, trips, start, end)|
    ensures n <= |drivers|
  {
    var flags := Availability(drivers, trips, start, end);
    assert (set i: int | 0 <= i < |flags| && flags[i]) == AvailableIndices(drivers, trips, start, end);
    CountTrue(flags)
  }

  /** The count is the whole list exactly when every driver is available, and zero exactly when none is. */
  lemma AvailableCountExtremes(drivers: seq<DriverId>, trips: seq<Trip>, start: Time, end: Time)
    ensures AvailableCount(drivers, trips, start, end) == |drivers| <==>
      forall i :: 0 <= i < |drivers| ==> AvailableBetween(trips, drivers[i], start, end)
    ensures AvailableCount(drivers, trips, start, end) == 0 <==>
      forall i :: 0 <= i < |drivers| ==> !AvailableBetween(trips, drivers[i], start, end)
  {
    CountTrueExtremes(Availability(drivers, trips, start, end));
  }

  /** Two stores that agree, trip by trip, on everything but company and the two flags. */
  predicate SameDriverWindows(trips: seq<Trip>, trips': seq<Trip>) {
    |trips| == |trips'| &&
    forall i :: 0 <= i < |trips| ==>
      trips[i].driver == trips'[i].driver &&
      trips[i].startsAt == trips'[i].startsAt && trips[i].endsAt == trips'[i].endsAt
  }

  /** Availability reads only driver and window: company, completion and cancellation do not matter. */
  lemma AvailabilityIgnoresCompanyAndFlags(trips: seq<Trip>, trips': seq<Trip>, d: DriverId, start: Time, end: Time)
    requires SameDriverWindows(trips, trips')
    ensures AvailableBetween(trips, d, start, end) == AvailableBetween(trips', d, start, end)
  {
    forall i | 0 <= i < |trips|
      ensures (trips[i].driver == d && Overlapping(trips[i], start, end)) ==
              (trips'[i].driver == d && Overlapping(trips'[i], start, end))
    {
    }
    if !AvailableBetween(trips, d, start, end) {
      var t :| t in trips && t.driver == d && Overlapping(t, start, end);
      var i :| 0 <= i < |trips| && trips[i] == t;
      assert trips'[i] in trips';
    }
    if !AvailableBetween(trips', d, start, end) {
      var t :| t in trips' && t.driver == d && Overlapping(t, start, end);
      var i :| 0 <= i < |trips'| && trips'[i] == t;
      assert trips[i] in trips;
    }
  }

  /** A trip of another driver never changes `d`'s availability. */
  lemma OtherDriversIrrelevant(trips: seq<Trip>, t: Trip, d: DriverId, start: Time, end: Time)
    requires t.driver != d
    ensures AvailableBetween(trips + [t], d, start, end) == AvailableBetween(trips, d, start, end)
  {
  }

  /** Adding a trip can take availability away but never give it. */
  lemma AddingTripNeverFrees(trips: seq<Trip>, t: Trip, d: DriverId, start: Time, end: Time)
    ensures AvailableBetween(trips + [t], d, start, end) ==> AvailableBetween(trips, d, start, end)
    ensures AvailableBetween(trips + [t], d, start, end) <==>
      AvailableBetween(trips, d, start, end) && !(t.driver == d && Overlapping(t, start, end))
  {
  }

  /** A driver whose only trip ends exactly at the window's start is available. */
  lemma AvailableRightAfterTrip(trips: seq<Trip>, d: DriverId, start: Time, end: Time)
    requires |TripsOf(trips, d)| == 1 && TripsOf(trips, d)[0].endsAt == start
    ensures AvailableBetween(trips, d, start, end)
  {
    var t := TripsOf(trips, d)[0];
    forall u | u in trips && u.driver == d ensures !Overlapping(u, start, end) {
      assert u in TripsOf(trips, d);
      assert u == t;
    }
  }

  /** In the empty window at `now`, a driver is busy exactly when one of their trips strictly contains `now`. */
  lemma AvailableAtInstant(trips: seq<Trip>, d: DriverId, now: Time)
    ensures !AvailableBetween(trips, d, now, now) <==>
      exists t :: t in trips && t.driver == d && t.startsAt < now < t.endsAt
  {
  }

  /** Three drivers, one of them on a trip from an hour before to an hour after `now`: two are available. */
  lemma DashboardCountsTwoOfThree(now: Time)
    ensures AvailableCount([1, 2, 3], [Trip(1, 1, 1, now - 3600, now + 3600, None, None)], now, now) == 2
  {
    var trips := [Trip(1, 1, 1, now - 3600, now + 3600, None, None)];
    assert !AvailableBetween(trips, 1, now, now) by { assert trips[0] in trips; }
    var flags := Availability([1, 2, 3], trips, now, now);
    assert flags == [false, true, true];
    assert CountTrue([false, true]) == 1 by { assert [false, true][..1] == [false]; }
    assert flags[..2] == [false, true];
  }
}
