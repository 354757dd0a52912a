/**
 * The trip record (app/Models/Trip.php): who drives what for which company,
 * over which half-open window, and the two nullable timestamps that close it.
 * The two query scopes become predicates on one trip, and the status accessor
 * becomes a pure function of the trip and an explicit current time.
 */
module Trips {
  import opened Wrappers
  import opened Statuses

  /** Instants are whole numbers; Carbon date-times compare the same way. */
  type Time = int
  type CompanyId = nat
  type DriverId = nat
  type VehicleId = nat

  datatype Trip = Trip(
    company: CompanyId,
    driver: DriverId,
    vehicle: VehicleId,
    startsAt: Time,
    endsAt: Time,
    completedAt: Option<Time>,
    cancelledAt: Option<Time>)

  /** The `overlapping($start, $end)` scope: the trip starts before `end` and ends after `start`. */
  predicate Overlapping(t: Trip, start: Time, end: Time) {
    t.startsAt < end && t.endsAt > start
  }

  /** The `ongoing()` scope at instant `now`: inside the closed window and neither completed nor cancelled. */
  predicate Ongoing(t: Trip, now: Time) {
    t.startsAt <= now && t.endsAt >= now && t.completedAt.None? && t.cancelledAt.None?
  }

  /** Instant `x` lies in the half-open window from `start` to `end`. */
  predicate InWindow(x: Time, start: Time, end: Time) {
    start <= x < end
  }

  /** Independent reading of overlap: some instant lies in both half-open windows. */
  ghost predicate SharesInstant(aStart: Time, aEnd: Time, bStart: Time, bEnd: Time) {
    exists x: Time :: InWindow(x, aStart, aEnd) && InWindow(x, bStart, bEnd)
  }

  /**
   * The status accessor with the current time passed in: the first rule that
   * applies wins, a cancellation before a completion before the time window.
   */
  function DeriveStatus(t: Trip, now: Time): (s: Status)
    ensures s == Cancelled <==> t.cancelledAt.Some?
    ensures s == Completed <==>
      t.cancelledAt.None? && (t.completedAt.Some? || (t.startsAt <= now && t.endsAt <= now))
    ensures s == Scheduled <==> t.cancelledAt.None? && t.completedAt.None? && now < t.startsAt
    ensures s == Active <==>
      t.cancelledAt.None? && t.completedAt.None? && t.startsAt <= now < t.endsAt
  {
    if t.cancelledAt.Some? then Cancelled
    else if t.completedAt.Some? then Completed
    else if t.startsAt > now then Scheduled
    else if t.endsAt <= now then Completed
    else Active
  }

  /** What evaluating the accessor as written gives: a status, or the error of an undefined enum constant. */
  datatype Evaluation = Returns(status: Status) | UndefinedEnumCase

  /**
   * The accessor as written: its first branch names `Status::CANCELLED`, which
   * the enum does not declare, so that branch raises an error instead of
   * returning; every other branch returns a declared case.
   */
  function StatusAsWritten(t: Trip, now: Time): (r: Evaluation)
    ensures r.Returns? ==> r.status.Declared()
  {
    if t.cancelledAt.Some? then UndefinedEnumCase
    else if t.completedAt.Some? then Returns(Completed)
    else if t.startsAt > now then Returns(Scheduled)
    else if t.endsAt <= now then Returns(Completed)
    else Returns(Active)
  }

  /** A cancelled trip makes the accessor as written fail, where the corrected one reports Cancelled. */
  lemma CancelledStatusIsUndefined(t: Trip, now: Time)
    requires t.cancelledAt.Some?
    ensures StatusAsWritten(t, now) == UndefinedEnumCase
    ensures DeriveStatus(t, now) == Cancelled && !DeriveStatus(t, now).Declared()
  {
  }

  /** Outside that one branch the accessor as written and the corrected derivation agree. */
  lemma StatusAsWrittenAgrees(t: Trip, now: Time)
    ensures StatusAsWritten(t, now).Returns? <==> t.cancelledAt.None?
    ensures t.cancelledAt.None? ==> StatusAsWritten(t, now) == Returns(DeriveStatus(t, now))
  {
  }

  /** For two non-empty windows the scope's comparison is exactly "some instant is in both". */
  lemma OverlapIffSharesInstant(t: Trip, start: Time, end: Time)
    requires t.startsAt < t.endsAt && start < end
    ensures Overlapping(t, start, end) <==> SharesInstant(t.startsAt, t.endsAt, start, end)
  {
    if Overlapping(t, start, end) {
      var x := if t.startsAt < start then start else t.startsAt;
      assert InWindow(x, t.startsAt, t.endsAt) && InWindow(x, start, end);
    }
  }

  /** The comparison is symmetric: it does not matter which window is the stored trip. */
  lemma OverlapSymmetric(a: Trip, b: Trip)
    ensures Overlapping(a, b.startsAt, b.endsAt) <==> Overlapping(b, a.startsAt, a.endsAt)
  {
  }

  /** Windows that only touch do not overlap, on either side. */
  lemma TouchingDoesNotOverlap(t: Trip, start: Time, end: Time)
    requires t.endsAt == start || t.startsAt == end
    ensures !Overlapping(t, start, end)
  {
  }

  /** A non-empty window overlaps itself. */
  lemma OverlapsItself(t: Trip)
    requires t.startsAt < t.endsAt
    ensures Overlapping(t, t.startsAt, t.endsAt)
  {
  }

  /**
   * The ongoing scope and the Active status differ in exactly one case: at the
   * closing instant the trip is still ongoing but its status is Completed.
   */
  lemma OngoingVersusActive(t: Trip, now: Time)
    ensures DeriveStatus(t, now) == Active ==> Ongoing(t, now)
    ensures Ongoing(t, now) && DeriveStatus(t, now) != Active <==>
      t.completedAt.None? && t.cancelledAt.None? && t.startsAt <= now && t.endsAt == now
    ensures Ongoing(t, now) && t.endsAt == now ==> DeriveStatus(t, now) == Completed
  {
  }
}
