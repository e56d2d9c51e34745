# Planisfy core: a Dafny model

This project models the parts of the map platform where state, arithmetic and interleavings matter, and
proves what they keep. The command `dafny verify dfyconfig.toml` (Dafny 4.11) covers the whole project.

| module | what it models |
|---|---|
| `QuotaAccounting` | the monthly quota: the two Redis scripts as methods on a counter, the settlement of one request, and the step system of all concurrent requests of one owner in one period |
| `ArtifactUpload` | the multipart plan, the workers that share one part index, completion, and the whole transfer |
| `ArtifactDownload` | the resumable ranged download with retries and the budgeted external download, on a file that remembers every content it held |
| `StoragePaths`, `Text` | the twelve key builders, the four prefixes and the parser, on real strings |
| `Elevation` | HGT tiles as big-endian buffers and void-aware bilinear interpolation in exact reals |
| `HgtNames` | HGT tile names, their parser, and the tile list that covers a box |
| `AdminJobs`, `Outbox` | the guarded admin actions racing with each other, with workers, with the stale-job reconciler, with dispatchers and with quota notifiers |
| `Supervisor`, `RecordPaths` | the self-host supervisor's operation lock, its record files and the paths they are read from |
| `UpgradeManifest` | the unique-service refinement, service coverage, and the two release checks |
| `ReleaseInstall` | the activation of release directories through symbolic links, at several paths that share one releases directory |
| `ApiKeyCache` | the bounded cache of verified keys and the decision of the middleware that reads it |
| `TileAddressing` | the tile of a coordinate at every zoom |
| `Prelude`, `Sorting` | sums, options, and the stable sort that specifies `Array.prototype.sort` |

Code that changes state is modelled as classes and methods proved against specification functions; the
functions carry the properties. Concurrency is a step system: a `State`, a `Step`, the guard `Enabled`, the
effect `Apply`, and `Execute` over any admissible run. One step is what the program does between two awaits,
or what the database or Redis does atomically. The network, the object store, the scheduler and the database's
answers are arbitrary choices, steps or parameters.

## What the code does not do

Where a property one would expect is false of the code, the model keeps the code and the lemma named says
exactly when the property holds.

- A failed request that is charged (`chargeUsageOnFailure`) is logged with its cost, but durable usage sums
  only rows with a 2xx or 3xx status (usage-quota.ts:42-43). The counter then stays above durable usage until
  the period ends: `SettledCounterMeetsDurableUsage`, `ChargedFailureDrifts`.
- The elevation sample divides by zero at a point on a grid line when every sample strictly within one cell
  is void and yet a corner of its cell is not; the answer is NaN, and the tile set takes it for an answer:
  `PlaceDecidesReading`, `NotANumberExists`.
- `S00` and `W000` parse but are never printed: `NameInvertsParse`.
- Installing the release that is already active begins by deleting it: `ReinstallLosesOldData`. Active paths
  with one parent share one releases directory, so an installation at one deletes what another links to under
  the same id: `SiblingKeepsItsData`, `InstalledInSequence`. A routing graph and its elevation companion are
  installed under one build id, and their default directories have one parent: `CompanionReplacesGraph`.
- The backup that an upgrade names is looked up by joining its id to the operations folder, and the joined path
  may lie elsewhere: `UpgradeFollowsBackup`, `PlainBackupIsOwn`, `UpgradeOnSiblingBackup`.
- The completion and failure updates of dispatchers and of the quota notifier are addressed by id alone, so
  they overwrite `ARCHIVED`: `ArchivedCanBeLeft`. The notifier leaves an event PENDING while it works, so an
  admin can archive it at any time: `ArchivedUnderNotifier`. A dispatcher whose completion went unanswered
  reports a failure over it: `ArchivedAfterLostAnswer`.
- The 15-minute window does not keep a second dispatcher away from an event whose first is still at work:
  `TwoDispatchersCanHold`, and the first may end the second's claim: `LateReportEndsAnotherClaim`.
  `HoldersAreBounded` and `ReportsEndTheirOwnClaim` say what it takes.
- The stale-job reconciler does not look at the cancel request, so a canceled job whose worker died ends as
  FAILED: `RequestedCancelPrevails`, `CanceledJobCanFail`.
- Without a declared size `downloadArtifact` takes whatever body ends well for the artifact:
  `DownloadArtifact`. Its callers compare a checksum afterwards if the artifact has one.
- An installation cut off between the move and the new link leaves the old data behind the previous path
  only, and the next attempt removes it: `ReachableThroughInterruptions`.
- The write of the RUNNING record stands between taking the lock and the `try` that frees it. If it fails, the
  lock stays taken and the directory is closed: `LockIsFreeWhenDone`, `StuckLockClosesDirectory`,
  `LockCanStick`.
- The previous status in a retry log is the one read before the transaction; a retry that loses a race can
  log FAILED for a CANCELED episode. The cancel action computes it from the updated row and is always right:
  `CommitLogsPreviousStatus`, `RetryLogCanBeStale`.
- Of the three tests in `verifyReleaseImages` the one for mutable tags never decides: for a manifest the
  schema accepts, the two set comparisons already exclude them: `VerifiedImagesAreReviewed`.
- A recognised path parses with leading zeros in its version and with captures that no builder would pass:
  `BuildInvertsParse`.

## Assumptions

- Quota: a handler leaves a request cost between zero and the reserved cost; the reservation clamps and the
  log does not, and `SettlementMatchesLog` shows this is exactly what makes them agree. The limit is fixed
  within the period.
- Upload and download: what becomes of every attempt is given by an arbitrary function of the part or request and
  the count of the attempt; the scheduler is arbitrary.
- Upload: the store keeps the last body sent under a part number, answers with that body's tag, and assembles
  the listed parts in list order.
- Download: the declared size is the artifact's, what is on disk is a prefix of it or longer than it, and a
  206 answer sends bytes of the requested range in order, in part or whole (section 14.1.2 of RFC 9110).
- Supervisor: one process; state directories are absolute paths in normal form and spelled in one way; a random
  operation id has no slash and names no file yet; record files are written only by the requests that own them.
- Release installation: no active path is the previous path of another, and directories with different parents
  are different disks of the model.
- Outbox: the admin server, the API, the workers and the database share one clock. An event is consumed by
  the geodata dispatchers, by the quota notifiers, or, for retired schedule events, by nobody.
- Jobs: the console's retry and cancel make the admin's updates under the admin's guards
  (apps/api/src/domains/resources/route.ts:1203-1225, 1340-1364), so they are the same actions of the model.

## Model

| member | source | states |
|---|---|---|
| QuotaAccounting.SettlementMatchesLog | apps/api/src/middleware/rate-limit.ts:337-340 | the amount the limiter settles on equals the amount the usage log records if and only if a charged handler left a request cost between zero and the reserved cost; the settled amount is never negative nor above the reservation |
| QuotaAccounting.BillingByStatus | apps/api/src/middleware/rate-limit.ts:335-340 | a request that is not billable, or that ends outside 200 to 399 without being charged on failure, is settled and logged at zero; any other is logged at its request cost and settled at that cost cut off at zero and at the reservation |
| QuotaAccounting.DurableByStatus | apps/api/src/domains/usage/usage-quota.ts:36-45 | a flushed row adds its cost to durable usage if and only if its status is from 200 to 399 |
| QuotaAccounting.ReservationByNumbers | apps/api/src/middleware/rate-limit.ts:29-46 | a request is admitted if and only if the larger of the counter, zero if absent, and the baseline, together with its cost, is at most the limit; only then is its cost added, and otherwise the counter is at most raised to the baseline |
| QuotaAccounting.QuotaCounter.Reserve | apps/api/src/middleware/rate-limit.ts:23-46 | the counter is raised to the baseline if below it, then by the cost exactly when the larger of the two plus the cost fits the limit; the reply names the usage compared |
| QuotaAccounting.QuotaCounter.Release | apps/api/src/middleware/rate-limit.ts:47-53 | the counter goes down by the cost, never below zero, and exists afterwards |
| QuotaAccounting.QuotaCounter.ReserveMonthlyQuota | apps/api/src/middleware/rate-limit.ts:130-183 | the script's verdict and the evaluation of its reply never disagree, so a refused request holds no reservation; after an admitted one the counter is the projected usage and within the limit |
| QuotaAccounting.QuotaCounter.Settle | apps/api/src/middleware/rate-limit.ts:332-340 | a held reservation gives back exactly what was not billed, which is all of it for a request that ends outside 200 to 399 and is not charged on failure; without a reservation the counter is left alone |
| QuotaAccounting.StepKeepsCoherent | apps/api/src/middleware/rate-limit.ts:147-165 | in every step durable usage only grows, and every baseline in flight lies between opening and present durable usage |
| QuotaAccounting.StepKeepsCovered | apps/api/src/middleware/rate-limit.ts:29-53 | every step but a lost key keeps the counter at or above everything committed once a reserve script has run, and committed usage within the limit |
| QuotaAccounting.NeverOverLimit | apps/api/src/middleware/rate-limit.ts:23-53 | in every interleaving without counter loss, stale baselines, late flushes and lost releases included, opening usage plus all billed usage never exceeds the larger of the limit and the opening usage, and neither does durable usage |
| QuotaAccounting.CounterIsConserved | apps/api/src/middleware/rate-limit.ts:31-53 | with no key and no release lost, from the first reserve script on the counter is exactly its starting value plus the full cost of unsettled requests plus the final cost of settled ones |
| QuotaAccounting.SettledCounterMeetsDurableUsage | apps/api/src/domains/usage/usage-quota.ts:27-48 | when all requests have settled and all logs are flushed, the counter exceeds durable usage by exactly the charges of failed requests; they are equal if and only if no failed request settled on a positive charge |
| QuotaAccounting.ChargedFailureDrifts | apps/api/src/middleware/usage-log.ts:16-25 | a concrete run of one charged failure that ends with nothing in flight and the counter above durable usage |
| QuotaAccounting.StepNeverWidensGap | apps/api/src/middleware/rate-limit.ts:31-53 | from any state at all, no step that keeps the key widens the gap between committed usage and the counter, clamped releases of forgotten reservations included |
| QuotaAccounting.RunNeverWidensGap | apps/api/src/middleware/rate-limit.ts:31-53 | the same over runs, with the bound on committed usage that follows |
| QuotaAccounting.HiddenIsCommittedNotDurable | apps/api/src/domains/usage/usage-quota.ts:27-48 | in every run, losses included, committed usage exceeds durable usage by exactly what requests in flight hold, plus successes whose logs are queued, plus the charges of failed requests |
| QuotaAccounting.OvershootAfterLoss | apps/api/src/middleware/rate-limit.ts:185-193 | after the key is lost at any moment, from the next reserve script on, in every run, the gap is at most committed usage minus that request's baseline, and committed usage never exceeds the larger of what it was and the limit plus that gap |
| QuotaAccounting.OvershootAfterFreshBaseline | apps/api/src/middleware/rate-limit.ts:146-161 | after any run, however often the key was lost in it, once a request reads its baseline and reserves, committed usage never exceeds the larger of what it was then and the limit plus the sum of those three |
| ArtifactUpload.PlanFits | packages/storage/src/index.ts:183-187 | for every content length and requested size the guard of 10,000 parts never fires, parts are at least 64 MiB and at least as large as requested, and there is a part exactly when there is content |
| ArtifactUpload.PlanIsLeast | packages/storage/src/index.ts:623-629 | no smaller part size would do: it would be below 64 MiB, below the requested size, or take more than 10,000 parts |
| ArtifactUpload.PlanPartitionsFile | packages/storage/src/index.ts:200-226 | the agent's byte ranges for every plan are non-empty, contiguous, full-size except the last, start at byte zero and end at the last byte |
| ArtifactUpload.CeilDivRangesPartition | apps/root-agent/src/index.ts:1411-1413 | any number of parts that is the rounded-up quotient of file and part size partitions the file |
| ArtifactUpload.UploadPool.constructor | apps/root-agent/src/index.ts:1387-1401 | a fresh pool has nothing recorded or stored and as many idle workers as the smaller of the concurrency and the number of parts |
| ArtifactUpload.UploadPool.TakePart | apps/root-agent/src/index.ts:1389-1396 | an idle worker gets the part at the shared index, or stops for want of one; every part handed out stays recorded or carried exactly once |
| ArtifactUpload.UploadPool.Deliver | apps/root-agent/src/index.ts:1415-1420 | a delivery stores that part's own bytes under its number and leaves the worker waiting for the answer, so other workers move in between and a repeated delivery is harmless |
| ArtifactUpload.UploadPool.Record | apps/root-agent/src/index.ts:1421-1430 | the part is recorded once under the tag of the stored bytes, and the worker is free; recorded plus carried parts stay those handed out |
| ArtifactUpload.UploadPool.Retry | apps/root-agent/src/index.ts:1583-1603 | a further attempt keeps the part with its worker, and attempts run out |
| ArtifactUpload.SucceedsOrFails | apps/root-agent/src/index.ts:1589-1597 | every part either has an answered attempt after transient errors only or an attempt that fails for good, never both |
| ArtifactUpload.Turn | apps/root-agent/src/index.ts:1389-1396 | a turn of one worker moves the upload on, and fails it only when an attempt has failed with an error that is not transient or as the last one allowed, after transient errors only |
| ArtifactUpload.AccountCloses | apps/root-agent/src/index.ts:1397-1402 | when every worker has stopped, the recorded numbers are the plan's numbers with their multiplicities, and sorting the records gives the plan in order |
| ArtifactUpload.SortedPartsAreNumbered | packages/storage/src/index.ts:234-239 | records that name the whole plan, in any order, come out of the sort numbered one after the other |
| ArtifactUpload.UploadMultipartArtifact | apps/root-agent/src/index.ts:1381-1431 | for any number of workers and any interleaving the upload succeeds if and only if every part has an attempt, within the number allowed and after transient errors only, that is answered; it then lists every part of the plan exactly once in part order, and the store holds each part's own bytes under a matching tag; a failure comes with a part whose attempt failed for good |
| ArtifactUpload.SortSortsNumbers | packages/storage/src/index.ts:234-239 | sorting completed parts sorts their numbers and neither loses nor invents a part |
| ArtifactUpload.CompletedObjectIsFile | packages/storage/src/index.ts:229-249 | completing with the recorded parts in any order assembles exactly the file |
| ArtifactUpload.TransferArtifact | apps/root-agent/src/index.ts:1381-1403 | plan, upload and completion together succeed if and only if every part is answered within its attempts, and then deliver exactly the file |
| ArtifactDownload.ReceiveBody | apps/root-agent/src/index.ts:1477-1480 | the body is appended as it comes, in chunks of any size, up to where it ends: after every chunk the target is a prefix of the artifact |
| ArtifactDownload.FetchRange | apps/root-agent/src/index.ts:1463-1485 | the request succeeds if and only if an attempt within the number allowed ends well with a new byte, or finds the target complete, after transient errors only; a failure comes with an error that is not transient or with the last attempt; the target holds exactly what the attempts brought |
| ArtifactDownload.TryRange | apps/root-agent/src/index.ts:1464-1484 | an attempt appends what comes in, at most the part asked for from the present size on, and counts if and only if it ends well with a new byte |
| ArtifactDownload.OneAttemptDecides | apps/root-agent/src/index.ts:1589-1597 | at most one attempt of a request settles it or fails it for good |
| ArtifactDownload.DownloadSizedArtifact | apps/root-agent/src/index.ts:1454-1487 | after every chunk of every attempt the target is a prefix of the artifact that extends the one before; what could be resumed is kept; it succeeds if and only if every request it makes is settled, and then the target is the whole artifact |
| ArtifactDownload.DownloadArtifact | apps/root-agent/src/index.ts:1433-1487 | with a size it succeeds if and only if every range request is settled, and leaves the artifact; without one if and only if a body ends well, and leaves exactly the bytes the server chose to send |
| ArtifactDownload.CopyBody | apps/root-agent/src/index.ts:1867-1887 | a body fits exactly when old and new bytes together stay within the budget; it is then appended whole, and otherwise no file is left; the file never exceeds the budget at any moment |
| ArtifactDownload.DownloadExternalFile | apps/root-agent/src/index.ts:1803-1901 | the target never exceeds the budget at any moment; the download is refused, too large, interrupted or successful each if and only if the answer says so: by its status and range, by its declared length or body against the budget, by its end; on success the body follows the kept file exactly when the answer carries on from its end |
| Sorting.TextLeByFirstDifference | apps/root-agent/src/index.ts:1919-1919 | strings are ordered by the first code unit in which they differ, a beginning before what it begins |
| StoragePaths.BuildersAreInjective | packages/storage-paths/src/index.ts:32-93 | the twelve builders are jointly injective: no path is built from two different keys |
| StoragePaths.BuildsItsTemplate | packages/storage-paths/src/index.ts:32-93 | each of the twelve builders gives its template with every value in its place exactly when the segments it checks are safe |
| StoragePaths.ChecksEveryArgument | packages/storage-paths/src/index.ts:32-93 | each builder refuses its first argument that is not safe, in the order of its template, and otherwise gives its template |
| StoragePaths.SafeAlphabet | packages/storage-paths/src/index.ts:10-10 | the characters of a safe segment by their code units |
| StoragePaths.PrefixTemplates | packages/storage-paths/src/index.ts:95-104 | each of the four prefixes as its template spells it |
| StoragePaths.ParseMeansPattern | packages/storage-paths/src/index.ts:141-205 | a parsed path is its kind's pattern around non-empty slash-free captures, with some digits for the version it names |
| StoragePaths.PatternParses | packages/storage-paths/src/index.ts:141-205 | every such path parses to that key, whichever pattern is tried first |
| StoragePaths.ParseInvertsBuild | packages/storage-paths/src/index.ts:32-93 | the parser gives back the key of the five builders it recognises and refuses every path of the other seven |
| StoragePaths.BuildInvertsParse | packages/storage-paths/src/index.ts:141-205 | building a parsed path gives that path if and only if its captures are safe segments and its version has no leading zero |
| StoragePaths.AccountPrefixSeparates | packages/storage-paths/src/index.ts:95-95 | a built key starts with an account's prefix if and only if it is that account's key |
| StoragePaths.UploadPrefixSeparates | packages/storage-paths/src/index.ts:97-98 | a built key starts with an upload's prefix if and only if it belongs to that upload of that account |
| StoragePaths.TilesetPrefixSeparates | packages/storage-paths/src/index.ts:100-101 | a built key starts with a tileset's prefix if and only if it is a version or build artifact of that tileset |
| StoragePaths.TilesetSourcePrefixSeparates | packages/storage-paths/src/index.ts:103-104 | a built key starts with a source's prefix if and only if it is an artifact of that source |
| HgtNames.ParseInvertsName | apps/root-agent/src/index.ts:1922-1926 | every printed name has seven characters and parses to its coordinates, beyond the globe's range as well |
| HgtNames.NameIsSpelled | apps/root-agent/src/index.ts:1922-1926 | a name has the hemispheres by the signs and the degrees in two and three decimal digits |
| HgtNames.NamesAreDistinct | apps/root-agent/src/index.ts:1922-1926 | two tiles of the globe never share a name |
| HgtNames.CleanedAreSpelled | apps/root-agent/src/index.ts:1904-1906 | cleaning keeps exactly the capital tile names that some listed text spells up to case and one suffix .hgt or .hgt.gz |
| HgtNames.NameInvertsParse | apps/elevation/src/hgt.ts:128-140 | printing a parsed seven-character name gives it back if and only if its letters are upper case and no zero is signed S or W |
| HgtNames.CellsAreSelected | apps/root-agent/src/index.ts:1909-1912 | for any interval the clamped bounds select exactly the cells of the range that meet its inside, or the cell at the end beyond which it lies |
| HgtNames.CellsAreThoseThatOverlap | apps/root-agent/src/index.ts:1909-1912 | for an interval inside the range they select exactly the cells that meet its inside |
| HgtNames.PushRow | apps/root-agent/src/index.ts:1915-1917 | the inner loop adds exactly the names of one row |
| HgtNames.TilesOfBounds | apps/root-agent/src/index.ts:1909-1918 | the nested loops push exactly the names of the cells between the bounds |
| HgtNames.CellsNameTiles | apps/root-agent/src/index.ts:1909-1918 | those names are well formed and are exactly the tiles the box selects; for a box inside the globe, those whose inside meets its inside |
| HgtNames.SortedUnique | apps/root-agent/src/index.ts:1919-1919 | the returned list is sorted, without repetition, and has the same members |
| HgtNames.ResolveDemTileNames | apps/root-agent/src/index.ts:1903-1920 | the answer is always a sorted set of well-formed names: the capital names that the explicit list spells if any, otherwise exactly the tiles the bounds select, on the globe or past it, which inside the globe are those whose inside meets the box |
| HgtNames.ListCoversBox | apps/elevation/src/hgt.ts:45-52 | read back by the parser, the listed tiles contain every point of the closed box, and each overlaps its inside and lies on the globe |
| Elevation.BufferBecomesTile | apps/elevation/src/hgt.ts:23-43 | a buffer becomes a tile of its name and place if and only if it is a square grid of side two or more and the name parses |
| Elevation.IndexInSquare | apps/elevation/src/hgt.ts:87-91 | every grid position reads inside the buffer |
| Elevation.TileHoldsItsGrid | apps/elevation/src/hgt.ts:87-91 | a buffer laid out row by row from the north, high byte first, gives back every sample of its grid at its column and row, and none for -32768 |
| Elevation.TileReadsItsGrid | apps/elevation/src/hgt.ts:54-91 | a tile laid out from a grid reads, at the degrees of column x from the west and row y from the north, what the grid has there, and never metres where it has -32768 |
| Elevation.ReadingIsBetweenCorners | apps/elevation/src/hgt.ts:54-85 | with positive surviving weight the rounded elevation lies between any bounds on the surviving corners |
| Elevation.ReadingIsTheWeighedMean | apps/elevation/src/hgt.ts:67-83 | where any position around a point counts, the reading is the whole number nearest to the mean of the known samples around it, each weighed by one minus its distance along each axis; halves go up |
| Elevation.PlaneIsReadBack | apps/elevation/src/hgt.ts:57-83 | where the samples around a point are known and lie on a plane over columns and rows, the reading is the whole number nearest to that plane at the point |
| Elevation.ReadingKind | apps/elevation/src/hgt.ts:67-79 | no sample if and only if all corners are void; not a number if and only if a corner survives and none that does has weight; metres if and only if the weight is positive |
| Elevation.PlaceDecidesReading | apps/elevation/src/hgt.ts:54-85 | told from tile and point alone: metres if and only if a known sample lies strictly within one cell of the point; not a number if and only if none does and yet a corner of its cell is known, which takes a point on a grid line |
| Elevation.NotANumberExists | apps/elevation/src/hgt.ts:76-79 | a grid of two by two and a point of it that reads not a number |
| Elevation.GridPointReadsItsSample | apps/elevation/src/hgt.ts:54-91 | at a grid point the reading is the sample there, and a void there never reads as metres however many neighbours survive |
| Elevation.SeamReadsTheSame | apps/elevation/src/hgt.ts:54-91 | at every point two agreeing neighbours both contain, edge or corner, they have the same weight, and the same elevation where it is positive |
| Elevation.FirstAnswer | apps/elevation/src/hgt.ts:118-125 | the set's answer at a point is the elevation of any tile that gives it positive weight |
| Elevation.FirstTileAnswers | apps/elevation/src/hgt.ts:118-125 | the answer of a set is that of its first tile with one, under that tile's name |
| Elevation.TileOrderDoesNotMatter | apps/elevation/src/hgt.ts:94-126 | permuting the tiles does not change the elevation there |
| Elevation.AnyOrderReadsTheSame | apps/elevation/src/hgt.ts:94-126 | where the tiles that contain a point agree, no order of the tiles changes whether the set answers or what it reads, metres or not |
| Elevation.ListedBoxIsAnswered | apps/elevation/src/hgt.ts:94-126 | with one tile read for every name listed for a box, every point of the box lies in a tile of the set, and the set answers there if and only if one of the tiles that contain it knows a corner of its cell |
| AdminJobs.JobTable.CommitRetry | apps/admin/features/operations/ops-actions.ts:344-396 | on a failed or canceled job the row is reset, counted, logged and its build event emitted; otherwise nothing changes |
| AdminJobs.JobTable.CommitCancel | apps/admin/features/operations/ops-actions.ts:421-458 | a pending job is canceled at once, a running one gets a request, and the log names the true previous status; otherwise nothing changes |
| AdminJobs.StepKeepsConsistent | apps/admin/features/operations/ops-actions.ts:317-465 | every step of admins, workers and the stale-job reconciler keeps pending jobs clean, ended jobs dated, the counts equal and the episodes in order |
| AdminJobs.EpisodesAreRetriedOnce | apps/admin/features/operations/ops-actions.ts:344-367 | in every interleaving each FAILED or CANCELED episode is retried at most once, and every one but a present one exactly once |
| AdminJobs.RetriesAreCounted | apps/admin/features/operations/ops-actions.ts:353-381 | in every interleaving the retry count, the retry logs and the build events emitted by retries are equally many |
| AdminJobs.PendingIsClean | apps/admin/features/operations/ops-actions.ts:424-432 | in every interleaving a pending job carries neither a cancel request nor a completion time |
| AdminJobs.SucceededIsFinal | apps/worker-geodata/src/domains/tilesets/tileset-artifacts.ts:281-300 | no run, reconciliations included, changes the row of a succeeded job or emits a build event for it |
| AdminJobs.RequestedCancelPrevails | packages/database/src/jobs/reconciliation.ts:124-143 | a running job with a cancel request ends as FAILED exactly when a reconciliation whose cutoff is past the last request comes before a worker gives it up, and as CANCELED exactly when the worker comes first; nothing else ends it, and until then the request stands |
| AdminJobs.RequestIsLastTouch | apps/worker-geodata/src/domains/jobs/job-lifecycle.ts:95-105 | in every run the last touch of a running job with a cancel request is its last request |
| AdminJobs.CanceledJobCanFail | packages/database/src/jobs/reconciliation.ts:124-143 | a concrete run that ends in FAILED with the cancel request still on the row |
| AdminJobs.CommitLogsPreviousStatus | apps/admin/features/operations/ops-actions.ts:369-374 | a cancel log always names the status the transaction found; a retry log does if and only if the status has not changed since the read |
| AdminJobs.RetryLogCanBeStale | apps/admin/features/operations/ops-actions.ts:369-374 | a concrete run in which a retry logs FAILED for an episode that was CANCELED |
| Outbox.OutboxRow.Commit | apps/admin/features/operations/ops-actions.ts:248-268 | the row changes exactly under the guard of its action, to that action's status, and the caller learns whether it did |
| Outbox.GuardAgainstPreCheck | apps/admin/features/operations/ops.ts:34-40 | every row an update changes would have passed the check; check and guard differ if and only if a processing event was touched right at the cutoff |
| Outbox.UpdatesByNumbers | apps/admin/features/operations/ops-actions.ts:248-308 | a retry makes failed events pending, and processing ones untouched for more than 900,000 milliseconds; an archive takes every event but a processing one touched since |
| Outbox.FailuresByAttempt | apps/worker-geodata/src/domains/outbox/outbox-dispatcher.ts:941-952 | a dispatcher's failure leaves the event pending up to its fourth attempt and failed from its fifth; a notifier's leaves it failed |
| Outbox.FreshEventsAreLeftAlone | apps/admin/features/operations/ops-actions.ts:277-315 | in every run an admin update leaves an event alone that is processing and was touched within the 15 minutes before the action began, or later; one that changes a row would have passed its check on it; none takes a row out of ARCHIVED |
| Outbox.TakeoversAreStale | apps/admin/features/operations/ops-actions.ts:256-267 | every admin retry that takes an event from under a dispatcher finds it untouched for more than 15 minutes when it commits |
| Outbox.HoldersAreBounded | apps/admin/features/operations/ops-actions.ts:248-268 | in every run from a fresh event, lost answers included, at most one dispatcher has it in hand, but for one more for every retry that committed while it was processing; without such a retry nobody has a pending or failed event in hand; each such retry found it untouched for more than 15 minutes |
| Outbox.TwoDispatchersCanHold | apps/worker-geodata/src/domains/outbox/outbox-dispatcher.ts:112-145 | a concrete run after which two dispatchers hold one processing event |
| Outbox.ReportsEndTheirOwnClaim | apps/worker-geodata/src/domains/outbox/outbox-dispatcher.ts:934-952 | in every run from a fresh event whoever has a processing event in hand made its present claim, unless an admin retry committed while it was processing |
| Outbox.LateReportEndsAnotherClaim | apps/worker-geodata/src/domains/outbox/outbox-dispatcher.ts:934-939 | a concrete run in which the first dispatcher's late report completes the event while the second, who has claimed it, is still at work |
| Outbox.TakenOverEventsAreStale | apps/admin/features/operations/ops-actions.ts:256-267 | in every run a processing event that an admin update changes has been untouched for more than 15 minutes when the update happens |
| Outbox.RunsAreTimely | apps/api/src/domains/billing/quota-notifications.ts:50-57 | no run dates the event, an open action or a notifier round in the future |
| Outbox.OnlyReportsLeaveArchived | apps/admin/features/operations/ops-actions.ts:296-308 | in every run without a holder's report an archived event stays archived, whatever admins had read |
| Outbox.ArchivedForGood | apps/api/src/domains/billing/quota-notifications.ts:34-45 | an event archived while no dispatcher and no notifier has it in hand, one whose completion went unanswered included, stays archived through every run |
| Outbox.ArchivedCanBeLeft | apps/worker-geodata/src/domains/outbox/outbox-dispatcher.ts:150-167 | some run takes an event out of ARCHIVED if and only if a dispatcher or a notifier still has it in hand |
| Outbox.ArchivedAfterLostAnswer | apps/worker-geodata/src/domains/outbox/outbox-dispatcher.ts:165-167 | a concrete run in which a completed event is archived while its dispatcher waits for a lost answer, and its extension that ends in PENDING |
| Outbox.ArchivedUnderDispatcher | apps/worker-geodata/src/domains/outbox/outbox-dispatcher.ts:934-939 | a concrete run from a new event to an archived one that a dispatcher still holds |
| Outbox.ArchivedUnderNotifier | apps/api/src/domains/billing/quota-notifications.ts:143-150 | a concrete run in which a quota warning is archived while a notifier is at work, and its extension that ends in COMPLETED |
| RecordPaths.PlainIdStaysInFolder | apps/self-host-supervisor/src/supervisor.ts:605-611 | the record of an id without slashes is the file of that name directly in the directory's operations folder, whatever dots the id has |
| RecordPaths.DescendingStaysBelow | apps/self-host-supervisor/src/supervisor.ts:605-611 | an id none of whose segments goes up leads below the folder it starts in |
| RecordPaths.FoldersAreDisjoint | apps/self-host-supervisor/src/supervisor.ts:605-611 | a file lies directly in the operations folder of one directory only |
| RecordPaths.SiblingIdLeavesFolder | apps/self-host-supervisor/src/supervisor.ts:605-611 | for any two state directories beside each other there is an id that leads from the folder of the first to a record in the folder of the second |
| Supervisor.OperationLocks.Enter | apps/self-host-supervisor/src/supervisor.ts:373-384 | the lock set and the record become what the entering step of the interleaved model makes of them, and the caller learns whether the lock was free |
| Supervisor.OperationLocks.Leave | apps/self-host-supervisor/src/supervisor.ts:386-395 | the lock set and the record become what the ending step of the interleaved model makes of them |
| Supervisor.StepKeepsLocks | apps/self-host-supervisor/src/supervisor.ts:368-398 | in every step the lock set is exactly the directories of the requests that hold one, and no two hold the same |
| Supervisor.StepKeepsRecords | apps/self-host-supervisor/src/supervisor.ts:597-603 | every request has a record file of its own in its directory's folder, pending or running until the request has reported and its final record from then on; SUCCEEDED goes with a completed task and FAILED with its reason |
| Supervisor.RunKeepsSafe | apps/self-host-supervisor/src/supervisor.ts:353-398 | every run keeps all of these |
| Supervisor.OtherFilesStay | apps/self-host-supervisor/src/supervisor.ts:597-603 | in every run a file that no request owns stays as it was, and a file that appears is some request's own |
| Supervisor.OneTaskAtATime | apps/self-host-supervisor/src/supervisor.ts:368-398 | in every interleaving at most one task runs in a state directory, however many requests passed the early check |
| Supervisor.LockIsFreeWhenDone | apps/self-host-supervisor/src/supervisor.ts:383-398 | with no operation starting or running, a lock is held if and only if a RUNNING record could not be written; with those writes succeeding every ended operation has SUCCEEDED or FAILED and the lock is free |
| Supervisor.StuckLockClosesDirectory | apps/self-host-supervisor/src/supervisor.ts:373-385 | after such a failed write no run ever frees the lock or runs a task in that directory |
| Supervisor.LockCanStick | apps/self-host-supervisor/src/supervisor.ts:383-385 | a concrete run of one operation that ends with the lock held and nothing left to free it |
| Supervisor.UpgradeFollowsBackup | apps/self-host-supervisor/src/supervisor.ts:137-177 | whenever an upgrade's task runs or has run, the id it named leads to a SUCCEEDED backup record that was on disk before this process or belongs to a backup request of it whose task completed; that request is at the upgrade's own directory if and only if the id's path lies in that directory's operations folder |
| Supervisor.PlainBackupIsOwn | apps/self-host-supervisor/src/supervisor.ts:137-177 | under an id without slashes that backup is a record in the directory's own folder, from before this process or of a completed backup of the same directory |
| Supervisor.UpgradeOnSiblingBackup | apps/self-host-supervisor/src/supervisor.ts:605-611 | a concrete run, for any two state directories beside each other, in which one's upgrade runs on the other's backup and has none of its own |
| Supervisor.SecondRequestIsRefused | apps/self-host-supervisor/src/supervisor.ts:373-381 | a request that meets a held lock is refused without touching the lock, and over every run from there never runs its task; once reported its persisted record stays FAILED |
| Supervisor.FailuresAreExplained | apps/self-host-supervisor/src/supervisor.ts:389-396 | in every run a persisted record of this process that says FAILED is completed and names its reason, last in its log |
| UpgradeManifest.DuplicateServices | packages/upgrade-manifest/src/index.ts:22-37 | the refinement reports exactly the images whose service appeared before, and so nothing if and only if services are unique |
| UpgradeManifest.LackingIsDifference | packages/upgrade-manifest/src/index.ts:95-105 | missing and unexpected services are exactly the set differences, sorted and without repetition |
| UpgradeManifest.CoverageListsDifferences | packages/upgrade-manifest/src/index.ts:95-105 | missing are exactly the services of the stack that the manifest does not name, unexpected exactly those it names that the stack does not have |
| UpgradeManifest.ValidReleaseCoversStack | apps/self-host-supervisor/src/supervisor.ts:444-480 | the check passes if and only if the stack is not empty, the manifest names exactly its services, and nothing runs outside it |
| UpgradeManifest.VerifiedImagesAreReviewed | apps/self-host-supervisor/src/supervisor.ts:482-514 | for an accepted manifest the images verify if and only if the resolved set is the reviewed set, so every one of them is pinned |
| UpgradeManifest.VerifiedReferences | apps/self-host-supervisor/src/supervisor.ts:498-513 | for verified images what is resolved is exactly the image names of the manifest with an at sign and their digest, each ending in a digest |
| UpgradeManifest.DigestSpelledOut | apps/self-host-supervisor/src/supervisor.ts:504-504 | a digest is the word sha256, a colon and 64 characters from 0 to 9 and a to f |
| UpgradeManifest.EveryServiceHasOneImage | apps/self-host-supervisor/src/supervisor.ts:444-480 | every service of a validated stack has exactly one reviewed image |
| ReleaseInstall.FileSystem.MoveActiveToPrevious | apps/root-agent/src/index.ts:1673-1680 | a missing active path or a failed rename leaves the disk as it was; otherwise active moves whole to previous |
| ReleaseInstall.FileSystem.InstallReleaseDirectory | apps/root-agent/src/index.ts:1113-1124 | the disk passes through exactly the states of the specification, and the link is made if and only if there was something to install and the active path was free by then |
| ReleaseInstall.OldDataStaysReachable | apps/root-agent/src/index.ts:1113-1124 | while a release other than the active one is installed at a path, at every step, whether or not it completes, the old active data is reachable through that path or its previous path, no other release is touched, and every other path whose link is not to that release keeps its node and its data |
| ReleaseInstall.CompletedInstall | apps/root-agent/src/index.ts:1113-1124 | a completed installation leaves active on the new data, previous on the old active node, and one release directory changed |
| ReleaseInstall.ReinstallLosesOldData | apps/root-agent/src/index.ts:1118-1119 | at the path of the installation the old data stays reachable at every step if and only if the release being installed is not the active one |
| ReleaseInstall.SiblingKeepsItsData | apps/root-agent/src/index.ts:1114-1118 | a node of another path that shares the releases directory keeps its data at every step of an installation if and only if it is not a link to the release being installed |
| ReleaseInstall.OthersStay | apps/root-agent/src/index.ts:1113-1124 | in every state of an installation every other path has its node and every other release its data |
| ReleaseInstall.InstalledInSequence | apps/root-agent/src/index.ts:1113-1124 | over any sequence of completed installations at any paths beside each other, a path resolves to what was last installed there if and only if its release id has not been installed again since, there or at another path |
| ReleaseInstall.PreviousInSequence | apps/root-agent/src/index.ts:1113-1124 | the previous path resolves to what was installed there before if and only if that one's id has not been installed again since, there or at another path |
| ReleaseInstall.OldBehindOnlyInstall | apps/root-agent/src/index.ts:1113-1124 | behind the only installation at a path stands what was active before the run, with its data if and only if no installation anywhere had the id it links to |
| ReleaseInstall.CompanionReplacesGraph | apps/root-agent/src/index.ts:760-767 | the agent's own sequence of a graph and its elevation companion under one build id: the graph is gone from the first state of the second installation on and its path ends at the companion's data, while at the companion's path nothing is lost |
| ReleaseInstall.ReleasesAfterRun | apps/root-agent/src/index.ts:1113-1124 | every release directory holds what was last installed under its id, at whatever path |
| ReleaseInstall.ReachableThroughInterruptions | apps/root-agent/src/index.ts:1113-1124 | over any sequence of attempts at any paths, cut off anywhere, up to and past the one that completes at a path, the old active data of that path is reachable through it in every state if and only if no attempt at any path installs the release that is active there and none at that path gets as far as removing its previous path after one was cut off between move and link |
| ReleaseInstall.NodeKeepsItsData | apps/root-agent/src/index.ts:1113-1124 | over any such sequence, completed or not, a node keeps its data in every state if and only if no attempt installs the release it links to |
| ApiKeyCache.WriteEvictsExpiredOrOldest | apps/api/src/middleware/api-key.ts:134-148 | a write keeps 5,000 entries at most, holds its own entry, changes no other, and evicts only at the bound: expired entries, or the oldest inserted when none has expired |
| ApiKeyCache.EntriesAreInInsertionOrder | apps/api/src/middleware/api-key.ts:124-148 | in every run the map holds its entries in the order in which their keys were inserted, so that its first is the oldest |
| ApiKeyCache.VerifiedApiKeyCache.constructor | apps/api/src/middleware/api-key.ts:24-25 | the empty cache is valid |
| ApiKeyCache.VerifiedApiKeyCache.EntryIsFound | apps/api/src/middleware/api-key.ts:124-126 | looking a key up finds exactly its entry |
| ApiKeyCache.VerifiedApiKeyCache.Read | apps/api/src/middleware/api-key.ts:124-132 | an expired entry is deleted and not served; what is served was written to the same identity less than one TTL earlier |
| ApiKeyCache.VerifiedApiKeyCache.Sweep | apps/api/src/middleware/api-key.ts:136-139 | the loop removes exactly the expired entries and keeps the order of the rest |
| ApiKeyCache.VerifiedApiKeyCache.MakeRoom | apps/api/src/middleware/api-key.ts:135-143 | at the bound the expired entries go, and the oldest if none had expired |
| ApiKeyCache.VerifiedApiKeyCache.Write | apps/api/src/middleware/api-key.ts:134-148 | whatever the two clock readings, the write is in the cache and its history, and every entry stays backed by a write one TTL before its expiry |
| ApiKeyCache.Authenticate | apps/api/src/middleware/api-key.ts:49-93 | with other requests at every await: a request is accepted if and only if the identity of its unexpired entry or, without one, the identity it is verified to is live; whoever is accepted was verified by this request, whose entry is then in the cache, or by a write seen on arrival and less than one TTL old |
| ApiKeyCache.RequestsAreDecided | apps/api/src/middleware/api-key.ts:49-93 | step by step: an unexpired entry of the key is used and otherwise the service asked; a request passes the live check if and only if its identity is live then; a passed request is always accepted |
| ApiKeyCache.OtherRequests | apps/api/src/middleware/api-key.ts:124-148 | any reads and writes by others keep the cache valid and its history |
| ApiKeyCache.AcceptedIsVerifiedAndLive | apps/api/src/middleware/api-key.ts:49-93 | in every interleaving of requests step by step, with live rows and clocks changing at will: the bound holds; whoever is accepted had a live row after arriving, and was verified after arriving by its own question, or by another accepted request that was verified and live before and whose entry was less than one TTL old when read |
| ApiKeyCache.RunsStayBounded | apps/api/src/middleware/api-key.ts:124-148 | over every run of reads and writes, in any clock order, the bound holds, keys are unique, and every entry is its key's last write |
| ApiKeyCache.ServedIsLastWriteWithinTtl | apps/api/src/middleware/api-key.ts:124-148 | what a read serves after any run is the identity of the key's last write, made less than one TTL before |
| TileAddressing.TilesAreAccepted | packages/tile-runtime/src/index.ts:375-395 | for every longitude, latitude, projection and zoom up to 26 the computed tile is one the parser accepts |
| TileAddressing.PointLiesInItsTile | packages/tile-runtime/src/index.ts:454-466 | the tile of a point contains it on both axes, eastward from the antimeridian and down the projection, and a point beyond the square goes to a tile at its edge |
| TileAddressing.AcceptedCoordinates | packages/tile-runtime/src/index.ts:375-395 | accepted are exactly the columns and rows of the grid of a zoom from 0 to 26, one tile at zoom 0 and 67,108,864 a side at zoom 26 |
| TileAddressing.TilesNest | packages/tile-runtime/src/index.ts:454-466 | the tile of a point at any zoom is the ancestor, any number of levels up, of its tile at a deeper zoom, clamped edges included |
| TileAddressing.CellHalves | packages/tile-runtime/src/index.ts:454-466 | on one axis the cell at twice the scale halves to the cell, for any share of the side and through both clamps |

## Left out

- The Redis-unreachable fallback of the quota: it admits on durable usage alone and holds no reservation, so the limit is not exact there.
- A change of the plan limit, or of the period, while requests are in flight.
- Key lifetimes of the quota counter: that a key can vanish is the step `LoseCounter`; when it expires is not computed. How Lua prints numbers is not part of this model.
- The percentage in the quota evaluation, the remaining units of an unlimited plan, quota headers, quota emails and the per-minute limiters.
- The default cost of an endpoint: a reservation and its request cost are given.
- Floating point: plan sizes and tile counts are exact integers, elevations and shares of the Mercator square are exact reals, and the projection itself is a parameter.
- Version numbers that JavaScript cannot hold exactly, and fractional, negative or exponent-printed versions: a version is a natural number.
- Regular expressions: the path patterns are read on the segments between slashes; `ParseMeansPattern` and `PatternParses` state them on the whole path again.
- Case folding of letters outside ASCII in explicit tile names.
- NaN and infinite bounds in `resolveDemTileNames`, and the loading of tiles from a directory.
- ArtifactUpload.TransferArtifact: covers non-empty files, because the agent uploads files it has written and an empty plan has no part to upload; `PlanFits` covers an empty file's plan.
- The legacy proxied upload, retry delays and what makes an error transient: each failed attempt is given as transient or not.
- Workers that go on uploading after another one has failed the whole upload.
- Private-address, URL and redirect errors of an external download, and the file removal that goes with the first two; any other failure before an answer is an answer that never comes.
- ArtifactDownload.DownloadArtifact: what it requires is that a declared size is the artifact's and that what is on disk is a prefix or too long; the checksum that callers compare afterwards, which would find a wrong prefix, is not part of this model.
- The rows that a retry or a reconciliation changes beside the job (tileset, upload, import), the parsing of stored input, the console's audit log and job limits, and the queue states the reconciler asks for: whether it acts on a stale job is a step that may or may not come.
- The unguarded job and outbox helpers of the API (apps/api/src/domains/resources/processing-jobs.ts:206-264, apps/api/src/shared/outbox/outbox.ts:36-91): nothing calls them.
- The `processAt` and `lastError` columns of the outbox, the handlers a dispatcher runs, and the delivery rows with which quota notifiers keep from sending twice; any number of notifiers can have one quota warning in hand.
- The commands inside the supervisor's tasks, rollback eligibility (`canRollbackRelease` is a conjunction of two flags), redaction, and a crash in the middle of writing a record file.
- Parsing of Compose output, and the release override file.
- Creation of the releases directory, and writers on the same disk that are not installations.
- Collisions of the SHA-256 digest that keys the verified-key cache, and the evaluation of a key's policy after it was accepted.
- Reading tile coordinates from text, `queryVectorTile` and `nearestCoordinate`.
