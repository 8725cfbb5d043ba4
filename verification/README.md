# gvm-gateway: a verified model

The gateway puts a REST interface in front of a vulnerability-management backend. Its
hard logic sits in a few small in-memory state machines and a few pure algorithms. This
project models them in Dafny and proves what they promise, over whole runs and, where
threads or tasks race, over every interleaving. `dafny verify dfyconfig.toml` checks it.

| modules | part of the gateway |
|---|---|
| `Calendar`, `CivilDate`, `DecimalText`, `Rfc3339` | the timestamp formatter, checked against a calendar that is stepped day by day |
| `ShutdownRuntime`, `ShutdownProtocol` | the lock-free admission and drain protocol of graceful shutdown, one atomic operation at a time |
| `RateLimiter`, `FixedWindows`, `RequestLimits`, `RequestRetry` | the pruned and capped fixed-window rate limiter, checked against counters that forget nothing |
| `SessionRegistry`, `SessionRuns` | sessions: expiry, holds, drain-on-create, capacity limits |
| `JobRegistry`, `JobRuns`, `ReportExport` | asynchronous report exports: records, workers, cancellation, abort handles, purge, pagination |
| `ExportHolds`, `ReportExportJobs` | enqueuing and running an export over both registries |
| `SessionUseCases` | login, logout and the session reaper, with the backend connections |
| `NullableSchema`, `SchemaCollapse`, `SchemaMeaning`, `SchemaNulls`, `SchemaClean`, `SchemaShape` | the rewrite of nullable schemas in the generated OpenAPI document |
| `Cidr` | trusted-proxy address ranges |
| `Division`, `Sets`, `Wrappers` | shared by the others |

How the pieces fit: an object whose methods update its fields is a class, and each method
states its whole new state through a function on values. The same functions are the steps
of the run models, so what is proved about runs is about those methods. For the lock-free
runtime, where a method is several atomic operations, `ShutdownProtocol.UninterruptedIsARun`
makes the connection; for the export use case, the methods of
`ReportExportJobs.ExportService` state which steps of the combined system they take. That
class and `SessionUseCases.SessionService` are the export part and the session part of the
program's one `GatewayService`.

Clocks are arguments. The session and job theorems hold for arbitrary clock readings; the
rate-limiter theorems say where the clock must not go back. Tokens and job ids are random in
the program; here they are new names.

## Where the code does less than one might expect

- A waiter for the drain can sleep through it: `wait_for_zero_in_flight` reads the counter and
  only then registers for the next notification. `WakeupLostOnlyInGap` shows that this gap is
  the only way, `WakeupCanBeLost` gives the run, and `WakeupExactly` says for every parked
  waiter whether any thread can still wake it.
- A fixed window of two seconds or more bounds a sliding one by `2 * limit - 1` admissions, not
  by `limit`, as soon as the limit is two (`SlidingWindowBound`, `LimitSlidesExactly`); the bound
  is reached for every limit and every window (`SlidingBoundReached`).
- The seconds named to a denied request are exact for the bucket that denied it. For the whole
  request they are a lower bound, because the other bucket may deny it then
  (`RequestRetryExactly`).
- The time to live that `get_info` reports is the true one only if the clock is not behind the
  last use and the value fits 63 bits (`ExpiresInExact`).
- Timestamps keep their width only before the year 10000 (`FormatWidth`). Two of them sort by
  time exactly when the earlier year is at most the later one cut down to as many digits
  (`TextOrderExactly`); so all those before the year 10000 do, and no larger bound will do
  (`SortsUpToExactly`).
- The schema rewrite drops siblings of a collapsed combinator when the option left is not an
  object or has one of their keywords itself. Whether that changes what is accepted is decided
  exactly, for every option left (`CollapseKeptExactly`, `MeaningKeptExactly`, with two schemas
  that do change). A `type` array with a nested array can keep a "null"; which documents do is
  decided exactly as well (`SchemaClean.NoNullListedExactly`). Of two nullable combinators in one
  object only one is collapsed (`SchemaShape.NullOptionLeftExactly`).

## Model

| member | source | states |
|---|---|---|
| `CivilDate.YearOfEraBounds` | crates/gvm-gateway-domain/src/time.rs:29 | the year-of-era estimate with its three correction terms names the March-based year that contains the day, for every day of the 400-year era (the last day of the era, a leap day, is the one past 365 days) |
| `CivilDate.YearOfEraUnique` | crates/gvm-gateway-domain/src/time.rs:29 | and no other year of the era contains that day |
| `CivilDate.CivilFromDaysIsNthDay` | crates/gvm-gateway-domain/src/time.rs:24-36 | for every day count, without bound, the closed form gives the date reached by stepping the calendar one day at a time from 1 January 1970 |
| `CivilDate.CivilFromDayNumber` | crates/gvm-gateway-domain/src/time.rs:24-36 | every valid calendar date from 1970 on is given for its own day number, counted by whole years and months |
| `Calendar.NextDayCountsOne` | crates/gvm-gateway-domain/src/time.rs:24-36 | the two definitions of the reference calendar agree: the next date is valid and has the next day number |
| `Calendar.DayNumberOrder` | crates/gvm-gateway-domain/src/time.rs:24-36 | calendar order and day-number order are the same, and no two dates share a number |
| `DecimalText.PadReads` | crates/gvm-gateway-domain/src/time.rs:38 | zero-padded decimal text reads back as the number |
| `DecimalText.PadLength` | crates/gvm-gateway-domain/src/time.rs:38 | it has exactly the padded width if and only if the number fits that many digits |
| `DecimalText.LexLessIsNumeric` | crates/gvm-gateway-domain/src/time.rs:38 | among digit texts of one length, character order is numeric order |
| `Rfc3339.FormatThenParse` | crates/gvm-gateway-domain/src/time.rs:17-38 | every second before the year 10000 is written as a valid date-time of section 5.6 of RFC 3339 and read back as the same second |
| `Rfc3339.ParseThenFormat` | crates/gvm-gateway-domain/src/time.rs:17-38 | every such text that names a second from 1970 on is exactly what the formatter writes for that second |
| `Rfc3339.FormatWidth` | crates/gvm-gateway-domain/src/time.rs:38 | the 20-character layout holds if and only if the second is before the year 10000 |
| `Rfc3339.TextOrderIsTimeOrder` | crates/gvm-gateway-domain/src/time.rs:17-38 | section 5.1 of RFC 3339: before the year 10000, comparing the texts character by character compares the times |
| `Rfc3339.TextOrderExactly` | crates/gvm-gateway-domain/src/time.rs:17-38 | for every two moments, without bound: the text of the earlier one sorts first if and only if its year is at most the later year cut down to as many digits |
| `Rfc3339.TextsDiffer` | crates/gvm-gateway-domain/src/time.rs:17-38 | no two moments have the same text, so when the earlier one does not sort first the later one does |
| `Rfc3339.SortsUpToExactly` | crates/gvm-gateway-domain/src/time.rs:17-38 | all moments before a bound sort by their texts if and only if the bound is at most the year 10000 |
| `Rfc3339.TextOrderFailsAtYear10000` | crates/gvm-gateway-domain/src/time.rs:38 | the first pair out of order: the first second of the year 10000 sorts before the last one of 9999 |
| `ShutdownRuntime.ShutdownRuntime.BeginShutdown` | crates/gvm-gateway-rest/src/shutdown.rs:74-93 | true exactly when the phase was Running; the new memory is that of its uninterrupted atomic steps |
| `ShutdownRuntime.ShutdownRuntime.MarkStopped` | crates/gvm-gateway-rest/src/shutdown.rs:96-100 | the phase becomes Stopped and waiters are notified |
| `ShutdownRuntime.ShutdownRuntime.TryTrackRequest` | crates/gvm-gateway-rest/src/shutdown.rs:130-145 | a request is admitted exactly when the phase was Running, and counted exactly when admitted |
| `ShutdownRuntime.ShutdownRuntime.FinishRequest` | crates/gvm-gateway-rest/src/shutdown.rs:147-153 | the counter drops by one, with a notification when it was the last and shutdown has begun |
| `ShutdownProtocol.UninterruptedIsARun` | crates/gvm-gateway-rest/src/shutdown.rs:74-153 | a call that nobody interrupts is one of the interleavings of the step model, which ties the methods above to the theorems below |
| `ShutdownProtocol.NextKeepsInvariant` | crates/gvm-gateway-rest/src/shutdown.rs:74-153 | every atomic step of every thread keeps the protocol invariant |
| `ShutdownProtocol.CounterExact` | crates/gvm-gateway-rest/src/shutdown.rs:130-153 | in every interleaving the counter is the number of threads between their increment and their decrement, so no decrement underflows |
| `ShutdownProtocol.NoAdmissionAfterRunning` | crates/gvm-gateway-rest/src/shutdown.rs:130-145 | once the phase has left Running the set of live guards only shrinks |
| `ShutdownProtocol.DrainSafety` | crates/gvm-gateway-rest/src/shutdown.rs:74-93 | once shutdown has begun and the counter is zero, no admitted request is live then or at any later moment |
| `ShutdownProtocol.WaiterReturnsAfterDrain` | crates/gvm-gateway-rest/src/shutdown.rs:120-127 | a waiter that returns after shutdown began has outlived every admitted request |
| `ShutdownProtocol.ReturnsExactlyAtZero` | crates/gvm-gateway-rest/src/shutdown.rs:120-127 | a waiter returns when, and only when, it reads the counter at zero |
| `ShutdownProtocol.NobodyLeftAtReturn` | crates/gvm-gateway-rest/src/shutdown.rs:120-127 | if shutdown has begun when a waiter returns, no admitted request is live then or at any later moment |
| `ShutdownProtocol.CounterMayRiseAfterDrain` | crates/gvm-gateway-rest/src/shutdown.rs:130-145 | a run in which the counter rises again after the drain, for a request that is then turned away |
| `ShutdownProtocol.NotifyHandshake` | crates/gvm-gateway-rest/src/shutdown.rs:74-100 | whenever shutdown has begun and the counter is zero, a notification has gone out since that became so or some thread still owes one |
| `ShutdownProtocol.WakeupLostOnlyInGap` | crates/gvm-gateway-rest/src/shutdown.rs:120-127 | a parked waiter over a drained gateway has been or will be notified, unless a notification fell between its read of the counter and its registration |
| `ShutdownProtocol.WakeupExactly` | crates/gvm-gateway-rest/src/shutdown.rs:120-153 | a waiter parked over a drained gateway can still be woken by steps of the threads there are if and only if it has a notification to see, or some thread owes one, is about to count a late request, or is about to store Stopped |
| `ShutdownProtocol.WakeupCanBeLost` | crates/gvm-gateway-rest/src/shutdown.rs:120-127 | a run in which that happens: the drain is complete, no thread can take a step that changes anything, and the waiter is still parked |
| `ShutdownProtocol.BeginShutdownWinsOnce` | crates/gvm-gateway-rest/src/shutdown.rs:74-93 | over a whole run `begin_shutdown` returns true on at most one thread |
| `ShutdownProtocol.PhaseMovesForward` | crates/gvm-gateway-rest/src/shutdown.rs:74-100 | the phase never goes back |
| `RateLimiter.RateLimiter.CheckRequest` | crates/gvm-gateway-rest/src/rate_limit.rs:96-113 | a request is one call for the shared bucket and, if admitted, one for its subject; the whole new state and the answer |
| `RateLimiter.RateLimiter.CheckKey` | crates/gvm-gateway-rest/src/rate_limit.rs:115-170 | one call in the source's statement order has the state and answer of the call specification that the run theorems are about |
| `RateLimiter.RateLimiter.PruneExpiredBuckets` | crates/gvm-gateway-rest/src/rate_limit.rs:173-178 | exactly the buckets whose window is open stay |
| `FixedWindows.CheckedAgrees` | crates/gvm-gateway-rest/src/rate_limit.rs:115-170 | one call keeps the limiter in agreement with counters that are never pruned, and is answered as they answer unless there is no room |
| `FixedWindows.LimiterRefinesCounters` | crates/gvm-gateway-rest/src/rate_limit.rs:115-178 | for every run with a clock that does not go back and that never meets the cap, every decision and retry value is that of never-pruned per-key counters |
| `FixedWindows.ResetNeverTaken` | crates/gvm-gateway-rest/src/rate_limit.rs:155-158 | with such a clock a call never finds a bucket past its window, so the reset has nothing to do |
| `FixedWindows.BucketCap` | crates/gvm-gateway-rest/src/rate_limit.rs:137-148 | the map never exceeds 16384 buckets, whatever the clock does |
| `FixedWindows.NoCapAfterDenial` | crates/gvm-gateway-rest/src/rate_limit.rs:133-148 | a key denied by count is never denied for lack of room when it asks again next, even with the map full |
| `FixedWindows.CappedExactly` | crates/gvm-gateway-rest/src/rate_limit.rs:137-148 | a call is denied for lack of room if and only if its limit is positive, its key has no open window, and 16384 other windows are open |
| `FixedWindows.ExactRetryAfter` | crates/gvm-gateway-rest/src/rate_limit.rs:133-169 | a denial by count names 1 to `window` seconds; asked again with no call in between, the key is denied with the seconds left at every earlier moment and admitted from that moment on |
| `FixedWindows.BucketCountsWindow` | crates/gvm-gateway-rest/src/rate_limit.rs:150-169 | a bucket counts the admissions of its window, at most `limit` of them |
| `FixedWindows.RoomAfterWindow` | crates/gvm-gateway-rest/src/rate_limit.rs:137-148 | a denial for lack of room names a whole window, and with no call in between the key is admitted once it has passed |
| `FixedWindows.SlidingWindowBound` | crates/gvm-gateway-rest/src/rate_limit.rs:115-178 | over whole runs, through pruning and denials for lack of room, a key is admitted at most `2 * limit - 1` times in any half-open interval as long as a window, at most `limit` times when windows last one second, and never with limit zero |
| `FixedWindows.SlidingBoundReached` | crates/gvm-gateway-rest/src/rate_limit.rs:115-178 | for every policy and every key, a run that reaches that bound |
| `FixedWindows.LimitSlidesExactly` | crates/gvm-gateway-rest/src/rate_limit.rs:115-178 | no interval as long as a window ever holds more than `limit` admissions if and only if the limit is at most one or the window is one second |
| `RequestLimits.RequestsAreCalls` | crates/gvm-gateway-rest/src/rate_limit.rs:96-113 | every run of requests is a run of calls with the same state and the same admissions per subject |
| `RequestLimits.RequestSlidingBound` | crates/gvm-gateway-rest/src/rate_limit.rs:96-113 | the sliding bound for whole requests: per subject, and for all subjects together |
| `RequestRetry.EveryBucketAdmits` | crates/gvm-gateway-rest/src/rate_limit.rs:96-113 | a request is admitted exactly when every bucket configured admits it, the shared one asked first |
| `RequestRetry.GlobalRetry` | crates/gvm-gateway-rest/src/rate_limit.rs:96-113 | a request denied by the shared bucket, again: denied with the seconds left, and from then on admitted exactly when the bucket of its subject has room |
| `RequestRetry.SubjectRetry` | crates/gvm-gateway-rest/src/rate_limit.rs:96-113 | a request denied by the bucket of its subject, again: denied before the seconds have passed, and from then on admitted exactly when the shared bucket has room |
| `RequestRetry.RequestRetryExactly` | crates/gvm-gateway-rest/src/rate_limit.rs:96-113 | over whole runs of requests, the seconds named by a denial by count are a lower bound, and from the moment named on the request is admitted if and only if the other bucket admits it |
| `SessionRegistry.SessionManager.CreateDrainingExpired` | crates/gvm-gateway-domain/src/session.rs:276-307 | the limit error that applies, by the number of unexpired sessions, with nothing changed, or the new session in a registry from which every expired one has gone, and their digests |
| `SessionRegistry.SessionManager.DrainExpired` | crates/gvm-gateway-domain/src/session.rs:419-429 | every expired session leaves and its digest is returned |
| `SessionRegistry.SessionManager.RemoveAll` | crates/gvm-gateway-domain/src/session.rs:294-297 | the loop that removes digests one by one removes exactly those |
| `SessionRegistry.SessionManager.Touch` | crates/gvm-gateway-domain/src/session.rs:355-376 | missing, expired (and marked so), or renewed |
| `SessionRegistry.SessionManager.Hold` | crates/gvm-gateway-domain/src/session.rs:380-401 | as `touch`, and one more hold on success |
| `SessionRegistry.SessionManager.ReleaseHold` | crates/gvm-gateway-domain/src/session.rs:202-209 | the drop of a guard takes one hold from its session if that is still there |
| `SessionRegistry.SessionManager.Expire` | crates/gvm-gateway-domain/src/session.rs:404-414 | the session is marked expired, or missing is reported |
| `SessionRegistry.SessionManager.Remove` | crates/gvm-gateway-domain/src/session.rs:432-445 | the session leaves and is returned as it was |
| `SessionRegistry.SessionManager.GetInfo` | crates/gvm-gateway-domain/src/session.rs:324-352 | the reported state and time to live, with nothing changed |
| `SessionRegistry.LimitsExactly` | crates/gvm-gateway-domain/src/session.rs:448-482 | the global limit refuses a login exactly when as many unexpired sessions are stored as it allows, the limit of the user exactly when only that one is used up |
| `SessionRegistry.ExpiredNeverRefuse` | crates/gvm-gateway-domain/src/session.rs:448-482 | a registry of expired sessions alone admits a login |
| `SessionRegistry.CreatedExactly` | crates/gvm-gateway-domain/src/session.rs:283-299 | a login leaves the unexpired sessions as they are and a new active one of its user, created and last used now |
| `SessionRegistry.DrainedExactly` | crates/gvm-gateway-domain/src/session.rs:484-497 | a drain leaves the unexpired sessions as they are and no other |
| `SessionRegistry.UsedExactly` | crates/gvm-gateway-domain/src/session.rs:365-396 | a use marks an expired session or renews it to now, and changes no other session |
| `SessionRegistry.ExpiredByName` | crates/gvm-gateway-domain/src/session.rs:404-414 | after an expiry by name every use of the session is refused as expired |
| `SessionRegistry.InfoShowsSession` | crates/gvm-gateway-domain/src/session.rs:334-351 | the fields reported are those stored; a held session shows its whole timeout, at least one second |
| `SessionRegistry.InfoAgreesWithTouch` | crates/gvm-gateway-domain/src/session.rs:324-376 | Expired is reported exactly when `touch` at that moment would fail with the expiry error |
| `SessionRegistry.ExpiresInExact` | crates/gvm-gateway-domain/src/session.rs:334-342 | for an active session without holds the reported time to live is the exact first failing offset if and only if the clock is not behind the last use and the number fits a signed 64-bit integer |
| `SessionRegistry.ExpiredAfterIsExpiredAt` | crates/gvm-gateway-domain/src/session.rs:187-193 | the moment meant by a failing offset is that of the expiry test of the program |
| `SessionRuns.NextKeepsInvariant` | crates/gvm-gateway-domain/src/session.rs:276-445 | every operation, at any clock reading, keeps hold counts, guarded sessions, refusals and limits as required |
| `SessionRuns.CapacityHolds` | crates/gvm-gateway-domain/src/session.rs:293-298 | over any run the stored sessions, expired ones included, never exceed the global and per-user limits |
| `SessionRuns.HoldCountExact` | crates/gvm-gateway-domain/src/session.rs:202-209 | the hold count of a stored session is the number of its outstanding guards |
| `SessionRuns.GuardProtects` | crates/gvm-gateway-domain/src/session.rs:380-401 | while a guard is outstanding and its session was not ended by name, the session is registered and active, `touch` succeeds at any clock reading, and drain and create leave it |
| `SessionRuns.RefusalIsPermanent` | crates/gvm-gateway-domain/src/session.rs:355-401 | after one refusal for expiry every later `touch` or `hold` fails, even if the clock goes back |
| `SessionRuns.UseRenews` | crates/gvm-gateway-domain/src/session.rs:355-401 | after a use answered at a moment, through any steps that neither use nor end the session and whose clock has not passed the timeout, it is usable while held and otherwise exactly until the timeout has passed since that moment |
| `SessionRuns.NewSessionLasts` | crates/gvm-gateway-domain/src/session.rs:282-299 | the same for a new session from its creation on |
| `SessionRuns.GoneStaysGone` | crates/gvm-gateway-domain/src/session.rs:419-445 | a session that left the registry does not come back |
| `SessionRuns.HoldThenDrop` | crates/gvm-gateway-domain/src/session.rs:202-209 | a hold dropped at once restores all guards and all hold counts |
| `JobRegistry.JobRegistry.PurgeExpiredJobs` | crates/gvm-gateway-app/src/jobs.rs:754-763 | exactly the records past their purge time leave, and their number is returned |
| `JobRegistry.JobRegistry.InsertJob` | crates/gvm-gateway-app/src/jobs.rs:327-358 | purge, then the record is stored unless the registry is full |
| `JobRegistry.JobRegistry.SetJobAbortHandle` | crates/gvm-gateway-app/src/jobs.rs:360-380 | the handle is stored in a live record, used at once for a terminal one |
| `JobRegistry.JobRegistry.MarkJobRunning` | crates/gvm-gateway-app/src/jobs.rs:382-404 | missing and cancelled jobs are refused, every other record becomes running |
| `JobRegistry.JobRegistry.MarkJobSucceeded` | crates/gvm-gateway-app/src/jobs.rs:406-440 | every record that is not cancelled becomes the success with this artifact |
| `JobRegistry.JobRegistry.MarkJobFailed` | crates/gvm-gateway-app/src/jobs.rs:442-468 | every record that is not cancelled becomes the failure with this error |
| `JobRegistry.JobRegistry.JobSnapshot` | crates/gvm-gateway-app/src/jobs.rs:470-487 | purge, then the job if it is there and belongs to the caller |
| `JobRegistry.JobRegistry.CancelJobRecord` | crates/gvm-gateway-app/src/jobs.rs:489-525 | not found for a job that is missing or belongs to another user, already terminal, or cancelled with its known handle used; with the whole new state |
| `JobRegistry.JobRegistry.CancelJobsForSession` | crates/gvm-gateway-app/src/jobs.rs:527-560 | exactly the live jobs of the session are cancelled, their number is returned, their known handles are used, and none is live afterwards |
| `JobRegistry.JobRegistry.CancelLiveJobs` | crates/gvm-gateway-app/src/jobs.rs:541-553 | the loop over all records, against the same specification |
| `JobRegistry.JobRegistry.CancelJobRecordInPlace` | crates/gvm-gateway-app/src/jobs.rs:627-642 | one record is cancelled, its artifact dropped and its handle taken |
| `JobRegistry.JobRegistry.JobArtifact` | crates/gvm-gateway-app/src/jobs.rs:562-585 | purge, then the artifact, or the error of the branch that applies |
| `JobRegistry.OnlyOwnersCancel` | crates/gvm-gateway-app/src/jobs.rs:506-515 | a cancellation by a user ends a live job of that user and changes no job of anyone else |
| `JobRegistry.SessionEnds` | crates/gvm-gateway-app/src/jobs.rs:541-553 | the end of a session cancels exactly its own live jobs |
| `JobRegistry.CancelledIsRetained` | crates/gvm-gateway-app/src/jobs.rs:512-522 | a cancelled job shows when that was and stays exactly until its retention is over |
| `JobRegistry.InsertedIsSeen` | crates/gvm-gateway-app/src/jobs.rs:344-357 | the user who enqueued a job sees it, queued and with its creation time, whatever purge comes |
| `JobRegistry.RunningIsSeen` | crates/gvm-gateway-app/src/jobs.rs:397-403 | a job marked as running shows since when and keeps its owner and creation time |
| `JobRuns.NextKeepsInvariant` | crates/gvm-gateway-app/src/jobs.rs:209-262 | every interleaved step of enqueuers, workers, cancellations, aborts and purges keeps the link between the position of the worker and its record |
| `JobRuns.RecordsCoherent` | crates/gvm-gateway-app/src/jobs.rs:340-357 | in every reachable state a job is terminal exactly when completion, expiry and purge times are set and fit each other, artifact and result exist exactly for a success, and the registry is within its size |
| `JobRuns.CancelNeedsOwner` | crates/gvm-gateway-app/src/jobs.rs:489-525 | the cancellation step changes a live job of the user who asks, aborts its worker if the handle is known, and otherwise changes nothing |
| `JobRuns.CancelSessionNeedsSession` | crates/gvm-gateway-app/src/jobs.rs:527-560 | the session cancellation step ends exactly the live jobs of the session and gathers exactly their handles |
| `JobRuns.DownloadNeverMissesArtifact` | crates/gvm-gateway-app/src/jobs.rs:575-584 | the error for a missing artifact is unreachable |
| `JobRuns.TerminalIsFinal` | crates/gvm-gateway-app/src/jobs.rs:382-468 | as long as it is retained, the record of a job that has ended never changes again, although the finishers only check for Cancelled |
| `JobRuns.ProgressNeverDecreases` | crates/gvm-gateway-app/src/jobs.rs:382-525 | the progress percentage of a job never goes back |
| `JobRuns.LiveJobsHaveWorkers` | crates/gvm-gateway-app/src/jobs.rs:193-204 | a live record always has a worker that has not returned |
| `JobRuns.AbortHandOff` | crates/gvm-gateway-app/src/jobs.rs:360-380 | for every order of offering the handle and ending the job, a cancelled job has had its worker told to abort once both have happened, and no terminal record keeps a handle |
| `JobRuns.OnlyEndedJobsAborted` | crates/gvm-gateway-app/src/jobs.rs:519-557 | a worker is told to abort only after its job has ended |
| `JobRuns.LiveJobsStay` | crates/gvm-gateway-app/src/jobs.rs:754-763 | no step, and no purge, takes a live job out of the registry |
| `ReportExport.ExportResults` | crates/gvm-gateway-app/src/jobs.rs:284-309 | the pagination loop collects the pages of its specification, ends against any backend and keeps its page number within 32 bits |
| `ReportExport.ExportIsJoinedPages` | crates/gvm-gateway-app/src/jobs.rs:284-309 | against any backend a finished export is every page once and in order up to the first that is empty or not before its own page total |
| `ReportExport.ExportSucceeds` | crates/gvm-gateway-app/src/jobs.rs:284-309 | an export whose pages up to the first that is empty or reaches its page total are all answered holds all of them |
| `ReportExport.ExportFails` | crates/gvm-gateway-app/src/jobs.rs:284-309 | an export fails with the error of the first page that is not answered |
| `ReportExport.SomePageDecides` | crates/gvm-gateway-app/src/jobs.rs:284-309 | one of the two happens against any backend |
| `ReportExport.CompleteExport` | crates/gvm-gateway-app/src/jobs.rs:284-309 | against a backend that cuts one fixed sequence into pages of 1000 with the rounded-up page total, the export is that sequence |
| `ReportExportJobs.ExportService.EnqueueReportExportJob` | crates/gvm-gateway-app/src/jobs.rs:165-207 | the report error, the refusal of the hold, the full registry or the new job, each exactly when that step fails or all succeed; with the queued record, its handle, hold and worker, or with no job and no guard left; as one run of the combined steps |
| `ReportExportJobs.ExportService.InsertHeldJob` | crates/gvm-gateway-app/src/jobs.rs:184-204 | the part once the hold is taken: full registry and hold given back, or job inserted, worker spawned and handle stored |
| `ReportExportJobs.ExportService.RunReportExportJob` | crates/gvm-gateway-app/src/jobs.rs:209-262 | the worker gives its hold back, and a live job then shows what the backend answered; as one run of the combined steps |
| `ReportExportJobs.Export` | crates/gvm-gateway-app/src/jobs.rs:220-251 | the outcome for either kind of request, errors included |
| `ReportExportJobs.WorkerDelivers` | crates/gvm-gateway-app/src/jobs.rs:209-262 | after an undisturbed worker a download gives its artifact, a failure shows its error, and the record stays exactly until its retention is over |
| `ReportExportJobs.RecordShowsOutcome` | crates/gvm-gateway-app/src/jobs.rs:209-262 | the finished record of a report-format export shows what the backend answered; that of a JSON export the first error among report, pages and encoding, or the encoding of the report with all its pages |
| `ReportExportJobs.JsonExportDelivers` | crates/gvm-gateway-app/src/jobs.rs:264-325 | a JSON export over a backend that serves its results in pages delivers the artifact made of all of them |
| `ExportHolds.NextKeepsInvariant` | crates/gvm-gateway-app/src/jobs.rs:165-262 | every step over both registries keeps each unfinished export in possession of its guard |
| `ExportHolds.RunningExportKeepsSession` | crates/gvm-gateway-app/src/jobs.rs:184-213 | from before its job is inserted until its worker has returned, the session of an export is registered, active and usable at any clock reading unless it was ended by name |
| `ExportHolds.LiveJobKeepsSession` | crates/gvm-gateway-app/src/jobs.rs:184-213 | the same for every job shown as live |
| `ExportHolds.FailedInsertReleasesHold` | crates/gvm-gateway-app/src/jobs.rs:184-186 | whenever an export finds no room, whatever came between, exactly its guard goes and its session has one hold less |
| `ExportHolds.FailedInsertRestoresHolds` | crates/gvm-gateway-app/src/jobs.rs:184-186 | taken back to back with the hold, all guards and hold counts are as before |
| `SessionUseCases.SessionService.CreateSession` | crates/gvm-gateway-app/src/session.rs:47-98 | the registry and the connections after drain, disconnects, and a login that succeeds or fails, and the token or the error of the step that failed |
| `SessionUseCases.SessionService.DeleteSession` | crates/gvm-gateway-app/src/session.rs:126-184 | session and connection go, exactly the live jobs of the session are cancelled and their known handles used, all other jobs stay as they are; an unknown session changes nothing |
| `SessionUseCases.SessionService.SweepOnce` | crates/gvm-gateway-app/src/session.rs:271-287 | every expired session is drained and disconnected, and counted |
| `SessionUseCases.SessionService.DisconnectExpiredSessions` | crates/gvm-gateway-app/src/session.rs:190-220 | the loop goes on past failing disconnects and closes all the others |
| `SessionUseCases.NextKeepsBalance` | crates/gvm-gateway-app/src/session.rs:47-184 | every use case keeps the connections equal to the registered digests and those leaked by a failed disconnect |
| `SessionUseCases.ConnectionsMatchRegistry` | crates/gvm-gateway-app/src/session.rs:47-287 | while disconnects succeed, the digests with a connection are exactly the registered ones, through failed logins, drains, deletes and sweeps |
| `SessionUseCases.OnlyLeaksRemain` | crates/gvm-gateway-app/src/session.rs:190-220 | in general the surplus connections are exactly the leaked ones, so the sets agree if and only if nothing was leaked |
| `SessionUseCases.CreateStepsLeave` | crates/gvm-gateway-app/src/session.rs:47-98 | the registry steps of a login, run on the session registry model, leave what the login leaves |
| `SessionUseCases.OtherStepsLeave` | crates/gvm-gateway-app/src/session.rs:126-184 | the registry steps of a deletion and of a sweep leave what these leave |
| `SessionUseCases.RegistryInvariantHolds` | crates/gvm-gateway-app/src/session.rs:47-287 | through all use cases the registry keeps its limits, hold counts, guarded sessions and refusals |
| `SchemaCollapse.TypeNarrowingKept` | crates/gvm-gateway-rest/src/openapi.rs:478-489 | removing "null" from a `type` keeps what a schema object accepts, null itself aside |
| `SchemaCollapse.NullOptionsNeverCount` | crates/gvm-gateway-rest/src/openapi.rs:510-518 | dropping null options keeps how many options accept a value other than null |
| `SchemaCollapse.MeaningBefore` | crates/gvm-gateway-rest/src/openapi.rs:520-529 | with one option left, whatever it is, the original accepts exactly what that option and all siblings accept |
| `SchemaCollapse.MeaningAfter` | crates/gvm-gateway-rest/src/openapi.rs:520-529 | and the result exactly what that option and the siblings it takes in accept |
| `SchemaCollapse.CollapseKeptExactly` | crates/gvm-gateway-rest/src/openapi.rs:505-535 | a collapse keeps the meaning for a value other than null if and only if the siblings dropped accept it whenever the option left and the siblings it takes in do |
| `SchemaCollapse.CollapseKept` | crates/gvm-gateway-rest/src/openapi.rs:505-535 | so it always does when the option left is `false`, has no siblings to drop, or is an object that agrees with each sibling dropped for it |
| `SchemaCollapse.ObjectKeptExactly` | crates/gvm-gateway-rest/src/openapi.rs:478-493 | the same condition decides for all steps on one object |
| `SchemaMeaning.MeaningKeptExactly` | crates/gvm-gateway-rest/src/openapi.rs:470-535 | for a schema object inside which no collapse does harm, normalizing keeps the meaning for a null-free value if and only if its own collapse does no harm for it |
| `SchemaMeaning.MeaningPreservedFor` | crates/gvm-gateway-rest/src/openapi.rs:470-535 | a null-free value for which no collapse in the schema does harm, at any depth, is accepted by the normalized schema exactly when by the original |
| `SchemaMeaning.MeaningPreserved` | crates/gvm-gateway-rest/src/openapi.rs:470-535 | for every schema whose collapses lose nothing that holds for every null-free value |
| `SchemaNulls.NarrowingExact` | crates/gvm-gateway-rest/src/openapi.rs:478-489 | after narrowing a `type` array lists "null" if and only if its one remaining entry was itself an array that lists it |
| `SchemaNulls.NoNullListedAfter` | crates/gvm-gateway-rest/src/openapi.rs:470-503 | if no narrowing in the document leaves one, no `type` array of the output lists "null" |
| `SchemaClean.NoNullListedExactly` | crates/gvm-gateway-rest/src/openapi.rs:470-535 | for every document, collapses included: no `type` array of the output lists "null" if and only if the document is clean, a recursive condition on its parts that counts only what survives the collapses |
| `SchemaNulls.PlainTypesListNoNull` | crates/gvm-gateway-rest/src/openapi.rs:470-503 | the document property for every document whose `type` arrays list plain values |
| `SchemaNulls.NestedTypeKeepsNull` | crates/gvm-gateway-rest/src/openapi.rs:478-489 | a document whose output does list "null": one with a nested array in a `type` array |
| `SchemaShape.NullableTypeNarrowed` | crates/gvm-gateway-rest/src/openapi.rs:478-489 | a nullable `type` array with one other name becomes that name alone |
| `SchemaShape.NamesKeepOrder` | crates/gvm-gateway-rest/src/openapi.rs:478-489 | dropping a null keeps the order of the other names |
| `SchemaShape.NullOptionLeftExactly` | crates/gvm-gateway-rest/src/openapi.rs:491-493 | an object whose parts offer no null schema offers one after the rewrite if and only if both combinators were nullable and the second was not replaced |
| `SchemaShape.NoNullOptionAfter` | crates/gvm-gateway-rest/src/openapi.rs:470-535 | where that happens nowhere, no combinator of the output has a null schema among its options |
| `SchemaShape.PlainUnchanged` | crates/gvm-gateway-rest/src/openapi.rs:470-535 | a document without single-name or nullable `type` arrays and without null options is left as it is |
| `SchemaNulls.PlainSurvivorLosesSiblings` | crates/gvm-gateway-rest/src/openapi.rs:520-529 | a schema whose meaning changes because the one option left is not an object |
| `SchemaNulls.SharedKeywordLosesSibling` | crates/gvm-gateway-rest/src/openapi.rs:520-529 | a schema whose meaning changes because the one option left has a keyword of its siblings |
| `Cidr.MaskClearsHostBits` | crates/gvm-gateway-rest/src/peer_addr.rs:41-53 | masking clears the host bits of a word and nothing else |
| `Cidr.MaskIs` | crates/gvm-gateway-rest/src/peer_addr.rs:106-120 | the mask of either width, with its special case for length zero, is ones above the host bits |
| `Cidr.ContainsIsPrefixEquality` | crates/gvm-gateway-rest/src/peer_addr.rs:41-53 | for every address and valid prefix the mask test is equality of family and network number (section 3.1 of RFC 4632, section 2.3 of RFC 4291) |
| `Cidr.RangeSize` | crates/gvm-gateway-rest/src/peer_addr.rs:41-53 | a range is one block of exactly 2^(width - prefix) consecutive addresses |
| `Cidr.V4Ranges` | crates/gvm-gateway-rest/src/peer_addr.rs:41-53 | with the width written out: an IPv4 range compares quotients by 2^(32 - prefix), holds that many addresses and no IPv6 address |
| `Cidr.V6Ranges` | crates/gvm-gateway-rest/src/peer_addr.rs:41-53 | and an IPv6 range with 128 |
| `Cidr.NestedOrDisjoint` | crates/gvm-gateway-rest/src/peer_addr.rs:41-53 | of two ranges of one family the longer prefix lies inside the shorter one or apart from it |

## Left out

- Weak memory orderings in `shutdown.rs`: the theorems are about sequentially consistent steps.
- The tokio runtime: the watch channel behind `wait_for_shutdown_start`, scheduling, and any claim that a waiter is woken in the end.
- The width of `in_flight`, of the bucket counts and of `now + retention`: counters and sums are unbounded here, so a wrap-around after 2^64 is not modelled.
- `SessionRuns.HoldThenDrop`: asks for fewer than 2^64 - 1 guards, as do the run models, because the hold count saturates there.
- Poisoned locks, panics of a worker, tracing and audit events: every locked section is one step that succeeds.
- SHA-256 and UUID generation: digests are injective and new tokens and ids are new.
- The clock of the formatter before the epoch: an unsigned second count never reaches that branch.
- Leap seconds, fractions, other offsets and lower-case letters of RFC 3339: `ParseRfc3339` reads whole seconds up to 59 with T and Z.
- `stable_hash`, forwarded headers and the choice of a subject: keys are opaque, and the shared key differs from every subject.
- Reading a CIDR from text and an address into a word: ranges start as numbers that passed the prefix check.
- Fields of a job that no operation changes (kind, report, format), and the contents of a job error beyond its message.
- Abort handles: a record says whether it holds the handle of its own worker; a worker told to abort may stop at any later moment or run on.
- The order in which hash maps are walked: expired digests are a set.
- Serialization of an export, and what the backend answers: arguments of the export.
- "No live job after `delete_session`" when an enqueue runs at the same time: an export that has its hold can still insert its job after the cancellation; the claim is made for the cancellation step alone.
- `ReportExportJobs.ExportService.EnqueueReportExportJob`: states its result for a call that no other step interrupts; what holds under interleaving is stated in `ExportHolds`.
- `ReportExportJobs.ExportService.RunReportExportJob`: likewise.
- `SessionUseCases.ConnectionsMatchRegistry`: use cases run one at a time, and a failed login leaves no connection.
- `SchemaMeaning.MeaningPreservedFor`: covers `type`, `anyOf`, `oneOf`, `allOf`, `not`, `properties` and `items`; other keywords are opaque, their arguments must be ones the rewrite leaves alone, and `additionalProperties` is not tied to `properties`. The converse is stated one object at a time (`MeaningKeptExactly`): harm done deep inside a schema may be hidden by what surrounds it.
- JSON numbers are integers in the schema model; only their equality is ever used.
- Idempotence of the schema rewrite: one pass collapses only one of two nullable combinators.
- The other edits of the OpenAPI document, REST handlers, DTOs, forwarding to the backend, protocol conversions and configuration: easy members only.
- `SchemaShape.NoNullOptionAfter`: one direction for whole documents; the exact condition is stated one object at a time (`NullOptionLeftExactly`).
