# Alerting and session runtime: a verified model

The backend keeps most of its run-time state in one Redis keyspace whose keys expire, and in a few
database tables, while many messages and requests are in flight. This project models the protocols
that live there and proves what they guarantee over whole runs: the distributed lock, the meeting of
alerts with their snapshot images, the request throttle, registration by emailed code, the cached
speed limit, alert cooldowns, geofence transitions, route plans, live-stream sessions, MQTT topics and
access lists, the offline sweep, batch inserts, the nearest-telemetry lookup and the request sanitizer.

Check it with `dafny verify dfyconfig.toml` (Dafny 4.11).

## How the model is laid out

- Every stateful component has a *machine*: a `State`, an `Event` type, a total `Step` function and
  `Run` over event sequences. An event that cannot happen changes nothing, so every sequence of events
  is a run and every lemma about `Run(es)` is about all runs. Fields marked as history exist for the
  properties only; no step's outcome depends on them.
- Where the code awaits between reading and writing, the machine has one event per awaited step, so
  other handlers interleave: the lock, the rendezvous, the throttle, the cooldowns and the speed-limit
  cache. Registration, geofence checks, route plans, live streams and the sweep are atomic per handler;
  `ActivationRaces` and `SweepRaces` split activations and sweeps into their steps as well.
- Every service object is a class. Its methods follow the code statement by statement and their
  contracts give the new state by the same functions the machines step with; the `Uninterrupted...`
  lemmas say that split steps run back to back do what the method does.
- `TtlStore` is the store: a key is present while the time is at most its deadline, in milliseconds.
  Application and store share one clock, passed as `now`. `Keys` shows that the key families never
  collide, so each family is given its own store.

| file | component |
|---|---|
| Base, Text, Keys | options, counting, string splitting, key families |
| TtlStore | `src/services/redis/redis.service.ts` |
| DistributedLock | `src/services/redis/distributed-lock.service.ts` |
| Rendezvous | alert and media-log consumers, `confirmUpload` |
| RateLimit | `src/commons/guards/rate-limit.guard.ts` |
| Registration | `src/modules/users/users.service.ts` |
| SpeedLimit, Cooldown, TelemetryConsumer | `src/modules/telemetry/telemetry.consumer.ts` |
| Geofences, FenceAlerts | `src/modules/geofences/geofences.service.ts` and the cooldown on top of it |
| TelemetryBatch | `src/modules/telemetry/telemetry.service.ts` |
| RoutePlans, ActivationRaces | `src/modules/route-plans/` |
| LiveStreams | `src/modules/live-streams/` and `handleStreamStatus` |
| MqttTopics | access list, subscriptions and routing |
| OfflineSweep, SweepRaces | `src/modules/device-status/` |
| ClosestTelemetry | `findClosestTelemetry` |
| SanitizeRequest | `src/commons/pipes/sanitize-request.pipe.ts` |

## Where the code does less, or other, than it says

- The guard answers "Max limit requests per ttl seconds". Two lives of the counter can meet inside one
  ttl: the true maximum is 2 * limit - 1, for every limit and ttl, and it is attained
  (`RateLimit.WindowBound`, `RateLimit.WindowBoundIsTight`), so the answer is right exactly when the
  limit is 1 (`RateLimit.AdvertisedLimitHoldsOnlyForOne`). The decorator's comment and the guard's
  comment disagree on the default limit; the code's is 100.
- The lock's release deletes whatever entry is present. One caller that overruns its lifetime lets two
  later, punctual callers hold the lock together (`DistributedLock.OneOverrunHurtsPunctualCallers`).
  Exactly when every caller of a key releases it within its lifetime, no moment of the run lets in a
  second holder (`DistributedLock.ExcludesExactlyWhenTimely`).
- An alert misses an image that does arrive exactly when every matching upload ran both its steps
  between the alert's find and its create (`Rendezvous.MissedExactlyWhenUploadsFellBetween`, and for
  every moment, failures included, `Rendezvous.UnlinkedExactlyWhen`).
- The batch consumer starts checks without awaiting them, and overlapping checks can both alert
  (`Cooldown.OverlappingChecksAlertTwice`). For checks that each take at most half a cooldown, two
  alerts of a key are more than the cooldown apart exactly when one check had set the key before the
  other looked (`Cooldown.FarApartExactlyWhenSuccessive`, `Cooldown.SpacedExactlyWhenSerial`).
- One ACTIVE plan per device is the rule of `activate`, which runs no transaction. The rule is safe
  throughout a run, whichever activations under way finish next, exactly when activations of different
  plans of a device never overlap between their two updates
  (`ActivationRaces.RuleIsSafeExactlyWithoutOverlap`). They can: two open plans whose activations both
  look before either updates end up ACTIVE together (`ActivationRaces.OverlappingActivationsBothSucceed`).
- `activate` refuses COMPLETED and CANCELLED plans, but looks before it updates. A plan completed in
  between comes back as ACTIVE (`ActivationRaces.CompletedPlanComesBack`). Stages never go back in a run
  exactly when no activation finishes on a plan that was completed or cancelled after that activation
  began (`ActivationRaces.StagesKeptExactlyWhenUnhit`); re-activating an ACTIVE plan always cancels that
  plan first (`ActivationRaces.ReactivationHitsItsPlan`). For whole handlers stages never go back.
- STOPPED live streams can be revived. Over whole runs a stop lasts exactly until a new start, or a
  message of the same request with another status that is not lost to an unreachable media server and
  comes before the key expires (`LiveStreams.StopLastsExactlyUntil`). That is 60 s after the stop, but
  each STOPPED message of the device moves it, to the end of the session's own lifetime or 60 s on
  (`LiveStreams.RevivableUntil`); so a stop that the device acknowledges can be undone up to that end,
  for example after 50 minutes (`LiveStreams.AcknowledgedStopCanBeRevived`,
  `LiveStreams.RevivedAfterFiftyMinutes`).
- A fence that changes its type can begin to be violated without a report
  (`Geofences.BeginningGoesUnreported`), and a violation that goes on can be reported twice
  (`Geofences.ContinuingViolationIsReportedAgain`). For a fence observed before, a beginning is reported
  exactly when the type is the one last seen, a continuing violation exactly when it is not
  (`Geofences.TypeChangesExactly`).
- The sweep speaks of five minutes without a status report or telemetry. Telemetry never touches the
  swept rows, and a report that repeats what is stored need not write: a device can be marked OFFLINE one
  millisecond after it (`OfflineSweep.SilentReportDoesNotCount`). A device that has reported within five
  minutes is marked exactly when it is ONLINE and its row was last written more than five minutes ago
  (`OfflineSweep.MarkedDespiteReportExactlyWhen`).
- The sweep finds rows first and saves them one by one. A report in between is overwritten
  (`SweepRaces.ReportDuringSweepIsLost`, exactly when: `SweepRaces.SaveLosesAWriteExactlyWhen`), and the
  360 s bound grows by the time a sweep takes (`SweepRaces.FinishedSweepsKeepRowsRecent`).
- A pending registration lives 130 s although its comment says two minutes; its code is accepted for
  120 s. For the ten seconds between, a new registration is turned away and no code is accepted
  (`Registration.PendingBlocksExactly130Seconds`, `Registration.TenSecondsWithoutAWayIn`).

## Model

| member | source | states |
|---|---|---|
| TtlStore.PurgingIsUnobservable | src/services/redis/redis.service.ts:267-383 | whenever and however often the server reclaims expired keys, clients get the same replies as without |
| TtlStore.RedisService.GetKey | src/services/redis/redis.service.ts:299-308 | the value of a key that is present, otherwise none |
| TtlStore.RedisService.SetexKey | src/services/redis/redis.service.ts:338-350 | overwrites value and deadline of one key |
| TtlStore.RedisService.SetNxPx | src/services/redis/distributed-lock.service.ts:43-53 | succeeds iff the key is absent or expired, and only then writes |
| TtlStore.RedisService.DelKey | src/services/redis/redis.service.ts:358-366 | removes one key |
| TtlStore.RedisService.ExpireKey | src/services/redis/redis.service.ts:375-383 | moves the deadline of a present key, ignores others |
| TtlStore.IncrKey | src/services/redis/redis.service.ts:267-275 | counts on within a life of the key, restarts at 1 without a deadline otherwise |
| Keys.KeysNeverCollide | src/utils/key-redis.ts:5-15 | keys of different families differ, and within a family the id decides |
| Keys.KeyTexts | src/utils/key-redis.ts:5-15 | the prefixes of all key families as the code writes them |
| Keys.EntriesAreIndependent | src/services/redis/redis.service.ts:338-366 | writing or deleting the key of one id leaves what is stored under another id of its family |
| DistributedLock.HoldersBoundedByOverruns | src/services/redis/distributed-lock.service.ts:78-101 | in every interleaving the callers between acquire and release are at most 1 plus the number of callers under which that key expired |
| DistributedLock.BoundIsTight | src/services/redis/distributed-lock.service.ts:78-101 | for every n a run has n overruns and n + 1 holders |
| DistributedLock.MutualExclusion | src/services/redis/distributed-lock.service.ts:66-77 | without an overrun of the key two holders are the same caller |
| DistributedLock.TimelyKeysNeverOverrun | src/services/redis/distributed-lock.service.ts:66-77 | if at every moment each running caller of a key is within its own lifetime, that key never expires under a holder, whatever callers of other keys do |
| DistributedLock.TimelyCallersExclude | src/services/redis/distributed-lock.service.ts:66-77 | hence callers of a key that release it in time exclude each other |
| DistributedLock.ExcludesExactlyWhenTimely | src/services/redis/distributed-lock.service.ts:62-77 | no moment of a run lets one more call become a second holder of a key, if and only if every caller of the key releases it within its lifetime |
| DistributedLock.OneOverrunHurtsPunctualCallers | src/services/redis/distributed-lock.service.ts:62-64 | a concrete run: the unconditional delete lets two callers hold the lock, neither of which overran |
| DistributedLock.UninterruptedCall | src/services/redis/distributed-lock.service.ts:78-101 | acquire then release holds the lock in between, then frees it and touches no other key |
| DistributedLock.LocksHaveTheirOwnKeys | src/services/redis/distributed-lock.service.ts:43-64 | two locks share a store key only if they are the same lock |
| DistributedLock.RedisLockService.AcquireLock | src/services/redis/distributed-lock.service.ts:43-53 | true iff the lock key was absent; only then it is set, until now + ttl; every other lock's entry stays |
| DistributedLock.RedisLockService.ReleaseLock | src/services/redis/distributed-lock.service.ts:62-64 | deletes the lock key unconditionally; every other lock's entry stays |
| DistributedLock.RedisLockService.WithLock | src/services/redis/distributed-lock.service.ts:78-101 | refused calls run and touch nothing; otherwise the action runs over the store with the lock entry in it, its result or exception is passed on, and of what it leaves only the key is removed either way |
| Rendezvous.UnlinkedExactlyWhen | src/modules/alerts/alerts.consumer.ts:120-135 | in every reachable state, failures and pending handlers included, an alert is unlinked iff every matching image came after its find and, if it has run its link step, ran it before its create |
| Rendezvous.MissedExactlyWhenUploadsFellBetween | src/modules/alerts/alerts.consumer.ts:120-135 | once matching uploads have run their link steps, an alert is unlinked iff every one of them ran wholly between its find and its create |
| Rendezvous.OneLinkedUploadSuffices | src/modules/media-logs/media-logs.consumer.ts:88-104 | one matching upload that has linked, outside that gap, means the alert is linked, whatever other handlers do |
| Rendezvous.FinishedUploadsLink | src/modules/media-logs/media-logs.consumer.ts:88-104 | an upload that is neither under way nor failed has linked, so the same holds at its end |
| Rendezvous.LinksAreSound | src/modules/alerts/alerts.service.ts:126-138 | a link names an image log of the alert's own device and snapshotId |
| Rendezvous.LinksNeverChange | src/modules/alerts/alerts.service.ts:143-156 | whatever happens later, a link once set stays the same |
| Rendezvous.RendezvousCanMiss | src/modules/alerts/alerts.consumer.ts:121-135 | a concrete failure-free run that leaves a matching image unlinked |
| Rendezvous.Tables.FindSnapshotMediaLog | src/modules/alerts/alerts.service.ts:126-138 | the newest matching image log, none iff there is none |
| Rendezvous.Tables.FindStep | src/modules/alerts/alerts.consumer.ts:121-126 | looks the image up only for a present, non-empty snapshotId |
| Rendezvous.Tables.CreateAlertStep | src/modules/alerts/alerts.consumer.ts:127-135 | inserts the alert with what the earlier step found |
| Rendezvous.Tables.CreateLogStep | src/modules/media-logs/media-logs.service.ts:364-393 | inserts the log and decides whether a link step follows |
| Rendezvous.Tables.LinkStep | src/modules/alerts/alerts.service.ts:143-156 | alert by alert: those of that device and snapshotId without a link get this one, all others stay |
| RateLimit.EachLifeAcceptsItsFirstRequests | src/commons/guards/rate-limit.guard.ts:55-73 | with INCR and EXPIRE interleaved, a request passes iff fewer than limit requests of its life came before it |
| RateLimit.LifeAcceptsMinOfRequestsAndLimit | src/commons/guards/rate-limit.guard.ts:55-73 | a life with m requests accepts min(m, limit) |
| RateLimit.WindowBound | src/commons/guards/rate-limit.guard.ts:55-73 | any closed interval of length ttl has at most 2 * limit - 1 accepted requests, even if an EXPIRE is late or never runs |
| RateLimit.WindowBoundIsTight | src/commons/guards/rate-limit.guard.ts:55-73 | for every limit and ttl some run attains that number |
| RateLimit.AdvertisedLimitHoldsOnlyForOne | src/commons/guards/rate-limit.guard.ts:55-73 | "max limit requests per ttl" holds of every run if and only if the limit is 1 |
| RateLimit.UninterruptedRequest | src/commons/guards/rate-limit.guard.ts:56-61 | the two steps back to back are what the guard's method does to the store |
| RateLimit.CustomRateLimitGuard.CanActivate | src/commons/guards/rate-limit.guard.ts:34-84 | one call: counts, starts the window on the first count, accepts iff the count is within the limit, reports the remainder and the reset time; 100 and 60 s when unset or zero |
| Registration.AcceptsExactlyTheLatestCode | src/modules/users/users.service.ts:406-473 | a guess is accepted iff it is the latest code issued, at most 120 s old and not used up; it returns the registered email, password and name |
| Registration.CounterIsExactWhileAcceptable | src/modules/users/users.service.ts:430-462 | while a code is acceptable its guess counter has not expired and equals the wrong guesses since the last issue or right guess, fewer than 5 |
| Registration.FifthWrongGuessRemoves | src/modules/users/users.service.ts:444-469 | the n-th wrong guess reports 5 - n left and keeps the record; the fifth removes it |
| Registration.CounterSurvivesTheLastMillisecond | src/modules/users/users.service.ts:430-433 | exactly 120 s after the issue the record and, unless a right guess has removed it, the guess counter are still present, which the strict age test needs |
| Registration.PendingBlocksExactly130Seconds | src/modules/users/users.service.ts:373-384 | for an unregistered email, register answers that a registration is pending iff the latest code is not used up and at most 130 s old |
| Registration.TenSecondsWithoutAWayIn | src/modules/users/users.service.ts:430-436 | after 120 s and up to 130 s register is turned away although no code is accepted |
| Registration.LifeBounds | src/modules/users/users.service.ts:596-609 | per life of the request counter at most 5 codes are issued, and without a right guess at most 25 wrong guesses are compared |
| Registration.LifeBoundsAreTight | src/modules/users/users.service.ts:444-462 | a run with five registrations, each refused five times, attains 5 codes and 25 wrong guesses |
| Registration.RegisteredExactlyWhenSignedUp | src/modules/users/users.service.ts:270-305 | an email is a user's iff some earlier guess was the latest acceptable code and its sign-up created the user |
| Registration.CounterFollowsRequests | src/modules/users/users.service.ts:596-609 | the stored request counter is the number of requests since its life began, counted from the events, and lives 120 s |
| Registration.RegisterAnswersExactly | src/modules/users/users.service.ts:221-265 | in every run: email exists iff signed up, else pending exists iff the latest code is open and at most 130 s old, both changing nothing; else too many requests iff five are spent; else the code is stored and the reply depends on the mail |
| Registration.ResendAnswersExactly | src/modules/users/users.service.ts:326-352 | in every run: too many requests iff five are spent, refused without a pending record or a mail, both keeping the record; else the new code is stored with the registered details |
| Registration.VerifyAnswersExactly | src/modules/users/users.service.ts:270-321 | in every run: session expired, code expired, wrong guesses with what remains, and what each way sign-up can end leaves of record, counter and user |
| Registration.EmailHasItsOwnKeys | src/utils/key-redis.ts:5-15 | no email's keys coincide with another's, nor its two counters with each other |
| Registration.UsersService.IsRegistrationRateLimited | src/modules/users/users.service.ts:596-609 | counts the request, starts the 120 s window on the first, limits above 5; other emails unchanged |
| Registration.UsersService.StoreCode | src/modules/users/users.service.ts:373-384 | stores record (130 s) and zero counter (120 s), overwriting both |
| Registration.UsersService.RegisterUser | src/modules/users/users.service.ts:221-265 | the reply and the account after register, in the code's order of checks; email exists iff the email is a user's; other emails unchanged |
| Registration.UsersService.CheckOtp | src/modules/users/users.service.ts:406-484 | the verdict and the account after verifyOtp; other emails unchanged |
| Registration.UsersService.DeletePendingUser | src/modules/users/users.service.ts:566-582 | removes record and guess counter, keeps the request counter |
| Registration.UsersService.VerifyUser | src/modules/users/users.service.ts:270-321 | the reply and the account after verifyRegistration, for each way sign-up can end |
| Registration.UsersService.ResendCode | src/modules/users/users.service.ts:326-352 | counts first, stores the new code only when the mail went out |
| SpeedLimit.UsedLimitWasReal | src/modules/telemetry/telemetry.consumer.ts:151-165 | in every interleaving the limit used was the device's limit when read, and is used at most 300 s after it was cached |
| SpeedLimit.CachedDecisionIsRight | src/modules/telemetry/telemetry.consumer.ts:151-165 | if the limit v did not change for 300 s plus the time filling took, the cached decision is 0 < speed, v not 0 and v < speed |
| SpeedLimit.OnlyFasterExceeds | src/modules/telemetry/telemetry.consumer.ts:144-165 | no alert at or below the limit, standing, or without a limit; whatever is faster than a speed that alerts, alerts too |
| SpeedLimit.UninterruptedCheck | src/modules/telemetry/telemetry.consumer.ts:151-163 | a check run through uses the cached value or caches the current one for 300 s |
| Cooldown.SuccessiveAlertsAreSpaced | src/modules/telemetry/telemetry.consumer.ts:167-186 | in every interleaving, if one check had set the key before another looked, their alerts are more than the cooldown apart |
| Cooldown.SerialAlertsAreSpaced | src/modules/route-plans/route-deviation.service.ts:64-80 | if checks of a key do not overlap, any two of its alerts are more than the cooldown apart |
| Cooldown.OverlappingChecksAlertTwice | src/modules/telemetry/telemetry.consumer.ts:105-111 | in any state without a cooldown, two overlapping checks can both alert at the same moment |
| Cooldown.FarApartExactlyWhenSuccessive | src/modules/telemetry/telemetry.consumer.ts:167-186 | in every interleaving, for checks that end within half a cooldown, two alerts of a key are more than the cooldown apart if and only if one check had set the key before the other looked |
| Cooldown.SpacedExactlyWhenSerial | src/modules/route-plans/route-deviation.service.ts:64-80 | hence all alerts of a key are spaced if and only if its alerting checks ran one after another |
| Cooldown.RefusalIsJustified | src/modules/telemetry/telemetry.consumer.ts:222-227 | in every interleaving a check that finds the key has an alert of that key behind it, whose check set the key at most one cooldown ago |
| Cooldown.UninterruptedCheck | src/modules/telemetry/telemetry.consumer.ts:222-248 | the three steps back to back: nothing under a cooldown, otherwise one alert and a fresh cooldown |
| Geofences.LoopEqualsFilter | src/modules/geofences/geofences.service.ts:360-405 | for distinct fences the row-by-row loop reports what filtering against the store before the loop reports |
| Geofences.EvaluateStores | src/modules/geofences/geofences.service.ts:410-442 | after the loop each listed fence has its current presence stored and all other entries are unchanged |
| Geofences.StoreIsLastObservation | src/modules/geofences/geofences.service.ts:410-442 | over any run, types changing or not, the store holds exactly the presence last observed for each device and fence |
| Geofences.ReportedExactlyWhen | src/modules/geofences/geofences.service.ts:366-404 | a check reports a fence if and only if it violates it and the presence last observed differs or is missing, whatever the types were |
| Geofences.ReportsTellTransitions | src/modules/geofences/geofences.service.ts:360-404 | over every run a check reports exactly what its rows call for, in their columns: an exit outside a zone that is not forbidden, null type and null whereabouts included, an entry inside a forbidden zone, each when last seen on the other side or never, with both whereabouts |
| Geofences.TypeChangesExactly | src/modules/geofences/geofences.service.ts:381-383 | whatever the types: the beginning of a violation is reported iff it is the first observation or the type is the one last seen; a continuing violation is reported iff the type differs from the one last seen |
| Geofences.BeginningGoesUnreported | src/modules/geofences/geofences.service.ts:381-383 | two checks with a type change between them, whose second begins a violation without a report |
| Geofences.ContinuingViolationIsReportedAgain | src/modules/geofences/geofences.service.ts:381-383 | two checks with a type change between them, whose second reports a violation that goes on |
| Geofences.ReportsAreBlockStarts | src/modules/geofences/geofences.service.ts:366-404 | with a fixed fence type, reports come exactly at the starts of maximal violating blocks, the first observation included |
| Geofences.ReportCount | src/modules/geofences/geofences.service.ts:366-404 | so the number of reports is the number of violating blocks |
| Geofences.GeofencesService.GetPreviousState | src/modules/geofences/geofences.service.ts:410-418 | the stored presence or none |
| Geofences.GeofencesService.SaveCurrentState | src/modules/geofences/geofences.service.ts:420-442 | inserts or overwrites one presence |
| Geofences.GeofencesService.EvaluateGeofenceTransitions | src/modules/geofences/geofences.service.ts:334-408 | the loop's reports and the store it leaves; for distinct fences the filter over the old store, each violation an exit or an entry as the row's columns say, and each row's whereabouts stored |
| FenceAlerts.TransitionsAreConserved | src/modules/telemetry/telemetry.consumer.ts:213-248 | for every kind of transition, as many as the geofence engine alone reports in a failure-free run become alerts or are suppressed |
| FenceAlerts.StatesFollowChecks | src/modules/geofences/geofences.service.ts:360-404 | cooldowns do not disturb the engine: the stored presences are those of the run's checks alone |
| FenceAlerts.EdgesAreConserved | src/modules/telemetry/telemetry.consumer.ts:213-248 | the reports of all checks of a run together number its alerts plus its suppressed transitions |
| FenceAlerts.VisitsAreConserved | src/modules/telemetry/telemetry.consumer.ts:213-248 | for one device and a fence of fixed type, alerts plus suppressed transitions are the maximal violating blocks of its observations |
| FenceAlerts.AlertsSayWhatChecksSaw | src/modules/telemetry/telemetry.consumer.ts:213-248 | over every run with one row per fence and check, something is an alert or suppressed iff a check saw it at that time: an exit of a zone not forbidden, or an entry into a forbidden one, by the columns of its row and the whereabouts before |
| FenceAlerts.SuppressionIsJustified | src/modules/telemetry/telemetry.consumer.ts:222-248 | every suppressed transition has an alert of the same type, device and fence at most 300 s before it |
| FenceAlerts.AlertsAreSpaced | src/modules/telemetry/telemetry.consumer.ts:222-248 | alerts of the same type, device and fence are more than 300 s apart |
| FenceAlerts.KeysAreInjective | src/modules/telemetry/telemetry.consumer.ts:224 | colon-free ids never share a cooldown key |
| TelemetryConsumer.Consumer.HandleBatch | src/modules/telemetry/telemetry.consumer.ts:64-119 | every valid point is broadcast in order; they are saved as if one by one, and checks start only if saving worked |
| TelemetryConsumer.ValidPointsAreThoseOfValidMessages | src/modules/telemetry/telemetry.consumer.ts:64-97 | the points of a batch are those of its valid messages, each message once and in order |
| TelemetryConsumer.DevicesHaveTheirOwnKeys | src/modules/telemetry/telemetry.consumer.ts:153-168 | no two devices share a limit cache entry or a speeding cooldown |
| TelemetryConsumer.Consumer.CheckSpeedViolation | src/modules/telemetry/telemetry.consumer.ts:144-198 | alerts iff 0 < speed, the limit in use is set, not 0 and less than the speed, and no cooldown is present; the alert starts a cooldown of 60 s, a missed cache is filled for 300 s; nothing for unknown devices |
| TelemetryConsumer.Consumer.CheckGeofenceViolation | src/modules/telemetry/telemetry.consumer.ts:207-260 | one check is one step of the fence-alert machine |
| TelemetryBatch.BatchEqualsOneByOne | src/modules/telemetry/telemetry.service.ts:126-153 | the generated multi-row INSERT adds exactly the rows of saving each point, in order |
| TelemetryBatch.BatchInsertStores | src/modules/telemetry/telemetry.service.ts:131-147 | those rows are the points' fields with the geometry at (lng, lat) |
| TelemetryBatch.PlaceholdersAreBound | src/modules/telemetry/telemetry.service.ts:132-137 | every placeholder lies in 1..7n |
| TelemetryBatch.PointInsertStores | src/modules/telemetry/telemetry.service.ts:104-120 | the single INSERT stores the point with the geometry at (lng, lat) |
| TelemetryBatch.TelemetryService.SavePoint | src/modules/telemetry/telemetry.service.ts:104-120 | appends the point's row |
| TelemetryBatch.TelemetryService.SaveBatch | src/modules/telemetry/telemetry.service.ts:126-153 | appends the rows that saving one by one would, none for an empty batch |
| RoutePlans.OneActive | src/modules/route-plans/route-plans.service.ts:178-194 | in every run a device has at most one ACTIVE plan, soft-deleted rows counted |
| RoutePlans.TimestampsFollowStatus | src/modules/route-plans/route-plans.service.ts:180-222 | ACTIVE: activated, not completed; terminal: completed, not before activation; PLANNED: neither |
| RoutePlans.StagesNeverGoBack | src/modules/route-plans/route-plans.service.ts:165-233 | whatever happens later, COMPLETED and CANCELLED plans are never PLANNED or ACTIVE again |
| RoutePlans.StatusFollowsEvents | src/modules/route-plans/route-plans.service.ts:165-223 | over every run a plan's status is what the events alone make it: activated, completed, cancelled or superseded, by whoever may touch it |
| RoutePlans.ActivationIsLocal | src/modules/route-plans/route-plans.service.ts:165-197 | activation changes another plan iff it was the device's ACTIVE one, which it cancels; other devices' plans stay |
| RoutePlans.OrderingIsIrrelevant | src/modules/route-plans/route-deviation.service.ts:47-57 | the deviation query has at most one row to choose from, so ORDER BY and LIMIT decide nothing |
| RoutePlans.DeviationKeysDiffer | src/modules/route-plans/route-deviation.service.ts:64-65 | colon-free ids share a deviation cooldown only if device and plan are the same |
| RoutePlans.RouteDeviationService.CheckDeviation | src/modules/route-plans/route-deviation.service.ts:30-91 | nothing without an ACTIVE plan of the device that has a geometry and is not deleted; otherwise the one activated last, then created last, gets an alert and a cooldown iff its distance exceeds its threshold and no cooldown is present |
| RoutePlans.RoutePlansService.FindOne | src/modules/route-plans/route-plans.service.ts:137-163 | not found iff missing or soft-deleted, else forbidden iff neither administrator nor owner, else the plan |
| RoutePlans.RoutePlansService.CreatePlan | src/modules/route-plans/route-plans.service.ts:48-75 | adds one PLANNED plan without timestamps |
| RoutePlans.RoutePlansService.ActivatePlan | src/modules/route-plans/route-plans.service.ts:165-197 | refusals change nothing, conflict only for COMPLETED and CANCELLED plans; otherwise this plan is ACTIVE from now on, the device's other ACTIVE plans are CANCELLED now, all else stays |
| RoutePlans.RoutePlansService.CompletePlan | src/modules/route-plans/route-plans.service.ts:199-210 | refusals change nothing; otherwise this plan alone is COMPLETED now, from any status |
| RoutePlans.RoutePlansService.CancelPlan | src/modules/route-plans/route-plans.service.ts:212-223 | refusals change nothing; otherwise this plan alone is CANCELLED now, from any status |
| RoutePlans.RoutePlansService.RemovePlan | src/modules/route-plans/route-plans.service.ts:225-233 | soft-deletes, keeping the status |
| ActivationRaces.OneActiveWithoutOverlap | src/modules/route-plans/route-plans.service.ts:170-194 | with the three awaited steps interleaved, one ACTIVE plan per device holds in every run whose activations do not overlap |
| ActivationRaces.OverlappingActivationsBothSucceed | src/modules/route-plans/route-plans.service.ts:170-194 | from every state, two open plans of a device whose activations both look before either updates end up ACTIVE together |
| ActivationRaces.OverlapInARunBreaksTheRule | src/modules/route-plans/route-plans.service.ts:180-194 | in every reachable state, finishing two overlapping activations of different plans of a device leaves two ACTIVE plans |
| ActivationRaces.RuleIsSafeExactlyWithoutOverlap | src/modules/route-plans/route-plans.service.ts:170-194 | the rule holds at every moment of a run, also if any two activations under way finish next, if and only if activations never overlap |
| ActivationRaces.StagesKeptExactlyWhenUnhit | src/modules/route-plans/route-plans.service.ts:165-223 | with steps interleaved, no plan ever goes back to an earlier stage if and only if no activation finishes on a plan completed or cancelled since that activation began |
| ActivationRaces.FinishingAlwaysRevives | src/modules/route-plans/route-plans.service.ts:190-194 | an activation that finishes makes its plan ACTIVE, and takes it back a stage exactly when it had become terminal |
| ActivationRaces.CompletedPlanComesBack | src/modules/route-plans/route-plans.service.ts:165-210 | a concrete interleaving: a plan completed after activate looked it up ends as ACTIVE |
| ActivationRaces.ReactivationHitsItsPlan | src/modules/route-plans/route-plans.service.ts:180-194 | an activation begun on an ACTIVE plan has had that plan cancelled before it can finish |
| ActivationRaces.UninterruptedActivation | src/modules/route-plans/route-plans.service.ts:165-197 | the three steps back to back are the atomic activation |
| LiveStreams.SessionIsLatestStart | src/modules/live-streams/live-streams.service.ts:36-56 | in every run the stored session carries requestId, owner, startedAt and expiresAt of the device's latest start |
| LiveStreams.SessionCarriesItsStart | src/modules/live-streams/live-streams.service.ts:36-56 | the same from the events alone: request, user and time of the latest start, and its expiry the chosen or 300 seconds later |
| LiveStreams.StaleMessagesAreIgnored | src/services/mqtt/mqtt.service.ts:345-350 | a status message for any but the latest request, superseded ones included, changes nothing |
| LiveStreams.ReadyHasUrl | src/services/mqtt/mqtt.service.ts:356-365 | READY sessions always have a WebRTC URL |
| LiveStreams.DeadlineBounds | src/services/mqtt/mqtt.service.ts:369-379 | after any accepted status message the key lives until expiresAt and at most max(expiresAt + 999 ms, write + 60 s); after a start exactly until expiresAt |
| LiveStreams.StoppedCanBeRevived | src/services/mqtt/mqtt.service.ts:356-379 | within 60 s of a stop, a READY of the same request without a stream URL revives the session |
| LiveStreams.StopEndsExactlyWhen | src/services/mqtt/mqtt.service.ts:345-379 | with nothing but time since the stop, a message with another status ends it if and only if it comes within 60 s, names the same request and is not lost to an unreachable media server |
| LiveStreams.StopLastsExactlyUntil | src/services/mqtt/mqtt.service.ts:345-379 | over whole runs a stop lasts until the first new start or the first message of the same request with another status that is not lost and comes no later than 60 s after the stop, a limit which each later stop and each STOPPED message in time moves as the code's TTL does |
| LiveStreams.AcknowledgedStopCanBeRevived | src/services/mqtt/mqtt.service.ts:369-379 | after a stop the device acknowledged, a READY revives the session at any time up to its own expiry |
| LiveStreams.RevivedAfterFiftyMinutes | src/services/mqtt/mqtt.service.ts:369-379 | a concrete run: an hour's stream, stopped and acknowledged, is READY again 50 minutes later |
| LiveStreams.StopLastsUntilUndone | src/modules/live-streams/live-streams.service.ts:74-93 | over whole runs a stopped session stays STOPPED if and only if no new start and no such message reaches it while its key is present |
| LiveStreams.SessionServices.StartStream | src/modules/live-streams/live-streams.service.ts:28-69 | stores a STARTING session of the caller without URLs for the chosen or 300 seconds and publishes the start command; other devices unchanged |
| LiveStreams.SessionServices.StopStream | src/modules/live-streams/live-streams.service.ts:74-106 | stores the session as STOPPED without URL for 60 s and publishes the stop command; not found changes nothing |
| LiveStreams.SessionServices.HandleStreamStatus | src/services/mqtt/mqtt.service.ts:329-388 | nothing for another request or an unreachable media server; otherwise status, URLs and error as the message says, READY with the device's own WebRTC URL, kept for the first whole second that reaches the expiry or 60 s; other devices unchanged |
| MqttTopics.AllowedTopics | src/services/mqtt/mqtt-auth.controller.ts:67-98 | a device with a plain id may publish on its six topics and no others |
| MqttTopics.AllowedTopicTexts | src/services/mqtt/mqtt-auth.controller.ts:67-98 | the same letter by letter, with the handler each of these topics gets |
| MqttTopics.RoutedExactly | src/services/mqtt/mqtt.service.ts:85-111 | for every topic whatever: it goes to a channel's handler under its second level iff the levels after that begin with the channel's suffix |
| MqttTopics.ExactlyOneSubscription | src/services/mqtt/mqtt.service.ts:52-57 | each of them matches exactly the one gateway subscription meant for it |
| MqttTopics.AllowedTopicsRouteToTheirDevice | src/services/mqtt/mqtt.service.ts:85-111 | whatever a device may publish is routed to the right handler under its own id |
| MqttTopics.DevicesAreIsolated | src/services/mqtt/mqtt-auth.controller.ts:63-104 | no topic is open to two devices, for publishing or subscribing |
| MqttTopics.AllowedCommands | src/services/mqtt/mqtt-auth.controller.ts:99-103 | the subscribe rule covers exactly the topics at or below the device's own command level |
| MqttTopics.CommandsReachTheirDevice | src/modules/live-streams/live-streams.service.ts:58-60 | start and stop commands are open to their device only and never come back to the gateway |
| OfflineSweep.PunctualSweepsKeepRowsRecent | src/modules/device-status/offline-detector.service.ts:39-73 | in every run with sweeps at most 60 s apart, from the first sweep on no ONLINE row is more than 360 s old |
| OfflineSweep.OnlineRowsAreRecent | src/modules/device-status/offline-detector.service.ts:61-73 | the same at any single moment at most 60 s after a sweep |
| OfflineSweep.RecencyBoundIsTight | src/modules/device-status/offline-detector.service.ts:62-67 | a row can be ONLINE and exactly 360 s old |
| OfflineSweep.SweepMarksExactly | src/modules/device-status/offline-detector.service.ts:61-73 | over every run a sweep marks exactly the ONLINE devices whose row was last written more than 300 s before, by the events of the run |
| OfflineSweep.MarkedDespiteReportExactlyWhen | src/modules/device-status/offline-detector.service.ts:56-67 | a device that has reported within 300 s is marked OFFLINE iff it is ONLINE and its row was last written more than 300 s ago |
| OfflineSweep.WritingReportsCount | src/modules/device-status/device-status.service.ts:94-105 | if every report of a device writes its row, the last write is never older than the last report |
| OfflineSweep.SilentReportDoesNotCount | src/modules/device-status/offline-detector.service.ts:56-67 | a concrete run: a device that reports the same again after five minutes is due for OFFLINE one millisecond later |
| OfflineSweep.OnlySweepsOverrule | src/modules/device-status/offline-detector.service.ts:61-79 | over every run a row is MAINTENANCE iff that is what its device last said, and ONLINE only if it said so |
| OfflineSweep.RestingRowsStay | src/modules/device-status/offline-detector.service.ts:64-79 | a MAINTENANCE or OFFLINE row stays as it is, sweeps or not, until the device's next heartbeat |
| OfflineSweep.StatusServices.UpsertStatus | src/modules/device-status/device-status.service.ts:94-105 | inserts or changes one device's row: status and readings as reported, an optional reading that is missing keeps its stored value, or 0 for a new row |
| OfflineSweep.StatusServices.SweepHeartbeats | src/modules/device-status/offline-detector.service.ts:61-97 | a row becomes OFFLINE now with its readings iff it was ONLINE and updated before now - 300 s, all others stay; exactly those devices are broadcast, once each, as OFFLINE with their readings |
| SweepRaces.FinishedSweepsKeepRowsRecent | src/modules/device-status/offline-detector.service.ts:61-79 | with query and saves interleaved with everything else, once a sweep begun at most 60 s plus some duration ago has finished, no ONLINE row is older than 360 s plus that duration |
| SweepRaces.SaveLosesAWriteExactlyWhen | src/modules/device-status/offline-detector.service.ts:77-79 | the row a sweep saves differs from the one it found iff some event wrote it in between; then a newer row is replaced by OFFLINE with the old readings, otherwise the save is that of the one-step sweep |
| SweepRaces.ReportDuringSweepIsLost | src/modules/device-status/offline-detector.service.ts:64-79 | a device that reports between the query and its save ends OFFLINE with its earlier readings |
| SweepRaces.UninterruptedSweep | src/modules/device-status/offline-detector.service.ts:61-97 | query and saves without interruption, in any order, are the one-step sweep |
| ClosestTelemetry.TwoNeighboursSuffice | src/modules/media-logs/media-logs.service.ts:425-466 | however the queries break ties, the choice has minimal time distance over all the device's points and prefers the earlier side |
| ClosestTelemetry.ClosestTimeIsUnique | src/modules/media-logs/media-logs.service.ts:454-463 | that specification determines the timestamp |
| ClosestTelemetry.FindClosestTelemetry | src/modules/media-logs/media-logs.service.ts:413-466 | (lat, lng) of a point of the device with none nearer in time, a later one only if no earlier is as near; none iff the device has no telemetry |
| SanitizeRequest.SanitizeAt | src/commons/pipes/sanitize-request.pipe.ts:23-47 | at every position: files untouched, blank object fields undefined, everything else, strings in arrays included, same kind, keys and value |
| SanitizeRequest.SanitizeAddsNothing | src/commons/pipes/sanitize-request.pipe.ts:23-47 | no position appears that was not there |
| SanitizeRequest.SanitizedIsClean | src/commons/pipes/sanitize-request.pipe.ts:35-43 | afterwards no object field outside files is '' or 'null' |
| SanitizeRequest.FixedExactlyWhenClean | src/commons/pipes/sanitize-request.pipe.ts:23-47 | sanitizing changes nothing iff the request is clean already; twice is once |
| SanitizeRequest.SanitizeCleans | src/commons/pipes/sanitize-request.pipe.ts:23-47 | the result is clean and at every path of the tree cleaned from what was there |
| SanitizeRequest.TransformPipes | src/commons/pipes/sanitize-request.pipe.ts:15-21 | the pipe cleans bodies that are objects or arrays and returns everything else as it was |
| SanitizeRequest.TransformIsIdempotent | src/commons/pipes/sanitize-request.pipe.ts:15-21 | applying the pipe twice is applying it once, for bodies and for everything else |
| SanitizeRequest.SanitizeHeld | src/commons/pipes/sanitize-request.pipe.ts:23-47 | on heap objects: overwrites fields where they are, returns the same object, copies arrays, touches nothing outside the request, and leaves the sanitized value |
| SanitizeRequest.OverwriteFields | src/commons/pipes/sanitize-request.pipe.ts:34-43 | the loop over an object's keys: each field is cleaned in place, none disturbs another |
| SanitizeRequest.SanitizeElements | src/commons/pipes/sanitize-request.pipe.ts:24-26 | the mapped array holds the sanitized elements in order |
| SanitizeRequest.TransformHeld | src/commons/pipes/sanitize-request.pipe.ts:15-21 | on heap objects: a body that is an object or array ends clean, at every path cleaned from what was there; anything else is returned untouched |

## Left out

- Kafka, MQTT, S3, SMTP, Mapbox, MediaMTX and WebSocket transport: publishes and broadcasts are recorded, outcomes such as "mail sent" or "save failed" are free choices.
- PostGIS: `ST_Within` and `ST_Distance` answers are inputs; a null `is_inside` counts as outside.
- Redis outages, and process crashes other than a split-step handler that simply takes no further step.
- Lifetimes of zero or below, which Redis refuses; the modelled callers pass positive ones.
- Handlers treated as one atomic step: concurrent registration calls for one email, concurrent geofence checks for one device, and concurrent live-stream updates are outside those lemmas.
- Geofences.ReportsAreBlockStarts: runs in which the fence's type changes, for which ReportedExactlyWhen and TypeChangesExactly hold instead.
- Cooldown.FarApartExactlyWhenSuccessive: checks that never reach their set step or take longer than half a cooldown, for which only the direction of SuccessiveAlertsAreSpaced holds.
- SanitizeRequest.SanitizeHeld: requests in which one object occurs in two places, which parsing a body never yields.
- TelemetryBatch.TelemetryService.SaveBatch: the SQL is an expression tree, not text, and PostgreSQL's limit on bound parameters is not modelled.
- RateLimit.CustomRateLimitGuard.CanActivate: the throttle key is given; how it is built from handler, user and address is not modelled, nor is letting requests pass when Redis fails.
- Rendezvous.Tables.FindSnapshotMediaLog: creation times are distinct moments; the database may break ties between equal timestamps either way.
- OfflineSweep.StatusServices.UpsertStatus: whether an unchanged row gets a new update time is left open, since the object mapper decides it.
- Deleting alerts and media logs, the other columns of the tables, and text formatting of numbers and messages.
- Better Auth, bcrypt, JSON parsing, validation, email normalisation, ownership checks of devices, query builders, dashboards, statistics, migrations.
