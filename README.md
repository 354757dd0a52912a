# Trip booking rules of hypertransport, in Dafny

This project models the booking core of a fleet application. Companies book
one of their drivers and one of their vehicles for a trip over a time window.
The model covers four parts:

- **Trip** (`Trip.dfy`, module `Trips`): the trip record, the half-open
  `overlapping` scope, the closed `ongoing` scope, and the status accessor.
  The accessor is a pure function that takes the current time as an argument.
- **Driver** (`Driver.dfy`, module `Drivers`): the driver's trips, the
  `availableBetween` scope, and the dashboard's "Available Drivers" count.
- **Scheduler** (`TripScheduler.dfy`, module `Scheduler`): a class
  `TripScheduler` that owns the trips table as a `seq<Trip>`. Its `Schedule`
  method does three things in order:
  - it rejects a window whose end is not after its start;
  - it rejects a request that a same-company trip blocks by sharing the
    driver or the vehicle over an overlapping window;
  - otherwise it appends the new trip.
  It is proved to keep the table free of double bookings.
- **Status** (`Status.dfy`, module `Statuses`): the status enum, with its
  backing strings, labels and colours. `Wrappers.dfy` holds `Option`.

Time is an unbounded integer. Ids are natural numbers. A nullable timestamp
is an `Option<Time>`, and "set" means `Some`.

## Points where the code may not do what one expects (the model follows the code)

- One might expect a cancelled trip to stop blocking its driver and vehicle.
  The conflict query at app/Services/TripScheduler.php:29-33 does not filter
  on cancelled_at or completed_at, so in the model every stored trip can
  block (`Scheduler.ConflictIgnoresFlags`). As a result, `NoDoubleBooking` is
  stated over all trips.
- One might expect the row lock to cover the conflict check and the insert.
  The locking transaction (app/Services/TripScheduler.php:21-27) commits
  before the check (line 29) and the insert (line 37). `Schedule` is
  therefore a plain sequential operation, and the model makes no atomicity
  claim.
- The status accessor names a fourth case, Cancelled, which the enum does not
  declare; see Findings.

## Model

| member | source | states |
|---|---|---|
| `Statuses.Cases` | app/Enums/Status.php:10-12 | The enum declares exactly three pairwise distinct cases: every case except Cancelled. |
| `Statuses.TryFrom` | app/Enums/Status.php:8-12 | `tryFrom(v)` returns a declared case whose backing value is `v`, and returns None exactly when no declared case has that value. |
| `Statuses.TryFromValue` | app/Enums/Status.php:10-12 | Every declared case is recovered from its backing string. |
| `Statuses.Label` | app/Enums/Status.php:14-21 | The label of a declared case is its backing value with the first letter upper-cased. |
| `Statuses.DisplayDistinct` | app/Enums/Status.php:10-30 | Distinct declared cases have distinct values, distinct labels and distinct colours. |
| `Statuses.DisplayTable` | app/Enums/Status.php:14-30 | The labels are Scheduled, Active, Completed and the colours are gray, primary, success. |
| `Statuses.UndeclaredStrings` | tests/Unit/StatusEnumTest.php:55-57 | `tryFrom` of "invalid" is None. So is `tryFrom` of "cancelled", because Cancelled is not a declared case. |
| `Trips.DeriveStatus` | app/Models/Trip.php:27-48 | Corrected status accessor. Cancelled exactly when cancelled_at is set. Otherwise Completed exactly when completed_at is set, or when the trip has started and ended by `now` (`starts_at <= now` and `ends_at <= now`). With neither flag set: Scheduled exactly when `now < starts_at`, Active exactly when `starts_at <= now < ends_at`. |
| `Trips.StatusAsWritten` | app/Models/Trip.php:27-48 | The accessor as written. It returns only declared cases; its cancelled branch raises an undefined-constant error. |
| `Trips.CancelledStatusIsUndefined` | app/Models/Trip.php:29-31 | For every trip with cancelled_at set, the accessor as written fails, while the corrected one returns Cancelled. |
| `Trips.StatusAsWrittenAgrees` | app/Models/Trip.php:33-47 | The accessor as written returns a status exactly when cancelled_at is null, and that status equals the corrected one. |
| `Trips.OverlapIffSharesInstant` | app/Models/Trip.php:89-96 | For non-empty windows, `starts_at < end && ends_at > start` holds exactly when some instant lies in both half-open windows. |
| `Trips.OverlapSymmetric` | app/Models/Trip.php:89-96 | Overlap of two trips' windows does not depend on which trip is the stored one. |
| `Trips.TouchingDoesNotOverlap` | app/Models/Trip.php:93-94 | A trip ending exactly at `start`, or starting exactly at `end`, does not overlap the window. |
| `Trips.OverlapsItself` | app/Models/Trip.php:93-94 | A non-empty window overlaps itself. |
| `Trips.OngoingVersusActive` | app/Models/Trip.php:104-109 | Active implies ongoing. Ongoing without Active happens exactly when neither flag is set, `starts_at <= now` and `ends_at == now`; the status then is Completed. |
| `Drivers.TripsOf` | app/Models/Driver.php:20-23 | A driver's trips are exactly the stored trips with that driver id. |
| `Drivers.AvailableBetween` | app/Models/Driver.php:33-36 | A driver is available in `[start, end)` exactly when none of the driver's stored trips overlaps it. |
| `Drivers.AvailableCount` | app/Filament/Widgets/AppInsight.php:44-47 | The count is exactly the number of positions in the driver list whose driver is available in the window, so it is at most the number of drivers. |
| `Drivers.AvailableCountExtremes` | app/Filament/Widgets/AppInsight.php:44-47 | The count equals the number of drivers exactly when all are available, and is zero exactly when none is. |
| `Drivers.AvailabilityIgnoresCompanyAndFlags` | app/Models/Driver.php:35 | Two tables that agree on each trip's driver and window give the same availability, whatever the company, completed_at and cancelled_at. |
| `Drivers.OtherDriversIrrelevant` | app/Models/Driver.php:20-23 | A trip of another driver never changes a driver's availability. |
| `Drivers.AddingTripNeverFrees` | app/Models/Driver.php:33-36 | After a trip is added, a driver is available exactly when they were available before and the new trip is not theirs over an overlapping window. So adding a trip never makes a driver available. |
| `Drivers.AvailableRightAfterTrip` | app/Models/Driver.php:35 | A driver whose only trip ends exactly at the window's start is available. |
| `Drivers.AvailableAtInstant` | app/Filament/Widgets/AppInsight.php:45-46 | In the empty window at `now`, a driver is unavailable exactly when one of their trips has `starts_at < now < ends_at`. |
| `Drivers.DashboardCountsTwoOfThree` | app/Filament/Widgets/AppInsight.php:45-46 | Three drivers, one of them on a trip from an hour before `now` to an hour after: two are counted as available. |
| `Scheduler.ScheduleResult.Key` | app/Services/TripScheduler.php:19-35 | The end-not-after-start error is keyed "ends_at" and the already-booked error "starts_at". |
| `Scheduler.ScheduleResult.Message` | app/Services/TripScheduler.php:19-35 | The message is "End must be after start." exactly for the end-not-after-start error, and "Driver or vehicle already booked in this period." exactly for the already-booked error. |
| `Scheduler.RefusalsAreDistinguishable` | app/Services/TripScheduler.php:19-35 | The two refusals differ in both key and message, so a caller can tell them apart. |
| `Scheduler.TripScheduler.Schedule` | app/Services/TripScheduler.php:17-45 | If `end <= start`: EndNotAfterStart. If the window is non-empty and some stored trip blocks the request: AlreadyBooked. In any other case: Ok, with exactly the requested trip appended and all earlier rows unchanged and in order. A refusal leaves the table unchanged. A table without double bookings stays without them. |
| `Scheduler.BookingKeepsNoDoubleBooking` | app/Services/TripScheduler.php:29-44 | Appending a trip that no stored trip blocks keeps the table free of double bookings. |
| `Scheduler.OtherCompanyNeverBlocks` | app/Services/TripScheduler.php:30 | A trip of another company never changes the outcome of the conflict check. |
| `Scheduler.TripEndingAtStartNeverBlocks` | app/Services/TripScheduler.php:32 | A trip ending exactly at the requested start never changes the outcome of the conflict check. |
| `Scheduler.RepeatedRequestConflicts` | app/Services/TripScheduler.php:29-35 | Once a non-empty window is booked, the identical request is blocked by that booking. |
| `Scheduler.ConflictIgnoresFlags` | app/Services/TripScheduler.php:29-33 | The conflict check does not depend on completed_at or cancelled_at. |
| `Scheduler.ScheduleTwice` | app/Services/TripScheduler.php:17-45 | If a booking succeeds, repeating the identical call is refused as already booked, and the table holds just the one new row. |

## Findings

| source | as written | input that shows it | evidently intended | confidence | as-written member | corrected member |
|---|---|---|---|---|---|---|
| app/Models/Trip.php:29-31 | The accessor returns `Status::CANCELLED`, but app/Enums/Status.php:10-12 does not declare that case, so reading the status raises an undefined-constant error. | Any trip with cancelled_at set. | Status Cancelled. The enum tests expect the value "cancelled", the label "Cancelled" and the colour "danger". | not executed | `Trips.StatusAsWritten`, `Trips.CancelledStatusIsUndefined` | `Trips.DeriveStatus` |

## Left out

- Statuses.Label: defined only for the three declared cases, like the source's match. The Cancelled label and colour expected by the tests ("Cancelled", "danger") are not modelled, because the source does not define them.
- The row lock (`DB::transaction` with `lockForUpdate`, app/Services/TripScheduler.php:21-27): concurrency and row locking are not modelled. That transaction ends before the check and the insert anyway.
- Transient store failures (lock timeouts, deadlocks, lost connections): these come from the database, not from the code modelled here.
- The `status` column written on insert (app/Services/TripScheduler.php:43): it is not modelled, because the status is always derived from the timestamps.
- The company of a driver or vehicle: `Schedule` works on ids, and the source does not check that the driver and vehicle belong to the company.
- Row ids, `Trip::create` defaults and the returned model object: the successful result carries the inserted trip's fields.
- Vehicle availability: `Vehicle::availableBetween` is called by the widgets but defined nowhere in the source.
- Carbon date-times: calendar arithmetic (month boundaries) and formatting are not modelled; time is an integer.
- The dashboard widgets, resources and pages: apart from the available-drivers count, they are display configuration. Caching (`Cache::remember`) is not modelled either.
- Factories, the seeder and migrations: they generate random test data or declare schema.
