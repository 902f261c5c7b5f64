# Stateful protocols of the Tusker gateway, modelled and proved in Dafny

The gateway's hard code is a set of small protocols over shared rows, files and clocks. This project
models them branch by branch and proves what they keep over every run: idempotency leases, the
circuit breaker, the generation-stamped configuration store with its snapshot and its PATCH
endpoint, the audit hash chain, token budgets, the pool-fallback dispatch loop, and the limiters,
caches, schedulers and stream checks around them.

`dafny verify dfyconfig.toml` checks the whole project.

## How the model is built

Each protocol comes in two layers.

* The first layer has the source's own shape: a class whose methods update its fields, or a method
  with the source's loop. Methods are proved against specification functions on values
  (`Idempotency.Apply`, `CircuitBreaker.FinishCheck`, `ConfigStore.Commit`, `AuditChain.Appended`,
  `Budget.Charged`, `FallbackLoop.Step`, `GeminiThought.Stored`, `Maintenance.Step`, ...).
* The second layer runs those functions over all histories and proves the theorems. Where several
  callers share a row, a call is split into its read and its statement, and any steps of other
  callers may come in between.

| files | subject |
|---|---|
| `Idempotency`, `IdempotencyRuns`, `IdempotencyOutcomes` | reservation rows under fencing tokens; exclusion, fencing, replay, orphan cleanup; the outcome of every call by the calls before it |
| `CircuitBreaker`, `BreakerRuns`, `BreakerCooldowns`, `BreakerPayloads` | the breaker row; interleaved reads and conditional updates, trip and recovery, how long a route is held, learned payload limits |
| `ConfigStore`, `ConfigSnapshots`, `ConfigLookups`, `PoolPatch` | transactions with a generation, torn snapshots, what callers find, optimistic PATCH (section 13.1.1 of RFC 9110) |
| `ConfigRuntime`, `Rotators` | publishing the last good configuration, retrying a failed one, keeping live rotators by identity |
| `AuditScan`, `AuditBounds`, `AuditChain` | backward scan, bounded values, append and verify |
| `Budget`, `BudgetRuns`, `RequestCharge` | usage buckets, what the caps bound, the record/refund pairing of a request |
| `FallbackLoop`, `FallbackRuns` | the dispatch loop over pools |
| `LoginLimiter`, `Cooldown`, `Maintenance` | sliding window, deadlines, the probe scheduler |
| `GeminiThought`, `GeminiRuns`, `GeminiEviction`, `GeminiWalks` | signature cache, extraction, injection, round trip, order of eviction |
| `StreamCheck`, `StreamVerdicts`, `Luhn` | chunk-independent stream verdict and what is accepted (sections 9.2.5 and 9.2.6 of the WHATWG HTML Standard), card checksum (annex B of ISO/IEC 7812-1) |

Assumptions, all visible in the types or the preconditions:

* A clock reading is an integer of any resolution, passed in as a parameter; a property that needs
  readings to be in some order says which. The leases need it only among the calls of one holder.
* A block under `BEGIN IMMEDIATE` or `FOR UPDATE` and a single UPDATE, INSERT or DELETE are atomic
  steps. `_cas_persist_credentials` reads and writes in one transaction without a lock clause; the
  method `PersistCredentials` takes that transaction as atomic, and two lemmas say what it is worth
  when it is not.
* SHA-256, HMAC, JSON encoding and decoding, `str()` and the tests for blank text are function
  parameters. JSON text is written with sorted keys, so a payload reads back in canonical form,
  and the digests do not see the order in which nested keys were inserted. Nothing assumes that
  digests are injective: where a property rests on it, the collision is named in the conclusion.
* Lease tokens are fresh where a theorem says so. The selector of the dispatch loop returns a
  candidate of the pool that is not excluded, or nothing.

## Where the code does not do what its text says

Each of these is proved, with the exact condition wherever one is stated.

* Leases exclude one another exactly when `ttl_secs >= lock_secs`; the code accepts any pair
  (`ExclusiveIffRowsOutliveLocks`).
* A breaker call writes from what it read earlier. It leaves the documented diagram, labels included,
  exactly when `Escapes` holds (`DocumentedEdgesIff`). Without interference that is when an outcome
  arrives on an OPEN route and does not trip it again, and when a check is forced
  (`UndisturbedEscapesIff`); with it, the success of a request that was let through while the route was
  CLOSED can close a route that a failed probe has just reopened (`StaleSuccessClosesReopened`).
* Unforced checks can be admitted before the cooldown that stands has ended. A check takes a slot by the
  row it read, not by the opening there is (`AdmittedIff`); it is early exactly when a slot is free, the
  standing cooldown is not over, and it read either an OPEN row whose own cooldown was over, which makes
  the read stale, or a HALF_OPEN row on a route that is HALF_OPEN (`EarlyAdmissionIff`). The second case
  needs no stale read: a forced check is documented to admit one probe early, but where two slots are
  free it opens the door to the unforced checks behind it (`ForcedCheckOpensTheDoor`). The first arises
  from every reachable OPEN route with a free slot whose cooldown, if it has any, is over
  (`StaleReadAdmitsEarly`). In every run whose checks read a clock that does not go back, an early
  admission needs one of the two causes, at that step or an earlier one: a forced check or a stale read
  that is admitted early (`EarlyAdmissionNeedsForceOrStaleRead`).
* Reopening is said to reset the probe slots every time. A failure that read no row and trips when it
  is inserted over a row with slots in use does not (`OpenHasNoProbesIff`), and can leave an OPEN
  route that admits nobody, not even a forced check, until an outcome or a payload insert rewrites
  its state (`TrippingInsertCanStick`, `StuckRouteAdmitsNobody`). `release_probe` frees no slot either (`ReleaseFreesNoSlot`) and can leave
  a HALF_OPEN route stuck in the same way (`ReleaseCanStick`). A request that is cancelled after it took
  the last slot reports nothing and shuts the route until an outcome, a payload insert or a restart
  (`FullRouteAdmitsNobody`).
* A payload record that lost a race can force a tripped row CLOSED (`ClosedBelowThresholdIff`).
* A route is said to be skipped only for a body there is positive evidence it cannot take. A route that
  refused nothing yet is skipped for every body larger than those it took (`SkippedWithoutRefusalIff`).
  Accepted bodies are said only to widen the ceiling and refused ones only to narrow it; with a stale read
  each can do the opposite (`AcceptedLowersIff`, `RejectedRaisesIff`).
* The budget windows, daily and monthly, are aligned, not rolling: a cap bounds an interval in every
  run exactly when the interval starts on a multiple of the window; any other interval can carry
  twice the cap (`CapBoundsIntervalIffAligned`). A refund of a charge that never reached the store,
  or that was written before the window rolled over, becomes credit (`TakenBackIsNeutralIff`).
* One transaction is said to wrap the check and the increment. They are two, and k requests in flight
  can carry a window past its cap, by exactly as much as `InFlightOvershoot` allows
  (`OvershootIsReached`).
* An audit event with a field called "hash" is digested with it and verified without it
  (`WrittenLinkIff`, `BuiltLogVerifiesIff`).
* A generation that is not applied is said to be retried at the next poll. The next poll that can apply
  it does so exactly when it is not remembered already (`NextPollAppliesIff`). A step loses the retry
  exactly when it remembers the current generation unapplied: a query that loads the store or finds it
  showing that generation, or a reload or start whose apply fails (`KeepsRetriedIff`); a query that
  finds the store at an older generation does no harm. A commit, or a reload or start that succeeds,
  brings the retry back, and nothing else does (`RestoresRetryIff`), which makes the condition exact for
  every run (`FailedGenerationIsRetriedIff`, `QueryHidesGeneration`).
* A PATCH is protected against lost updates by an If-Match value that was a generation of this
  database when the request came in. Of the other values, none at all and every number from 2 up can
  lose an update; a guessed 1 cannot (`ObservedPatchLosesNothing`, `UnobservedPatchCanLoseIff`).
* The credential swap is documented as a compare-and-swap, but has no lock clause. Its write is the
  atomic swap exactly when what it read still serves: there was no row and still is none, or there is
  one, both hold the credential or neither does, and if they do they differ only in entries the swap
  replaces anyway (`WriteBackIsAtomicIff`). Two swaps that both read first both report success, and one
  rotated credential is lost (`UnlockedSwapsLoseOne`).
* The signature cache is documented as LRU. It evicts by the time a key came in (`YoungestSurvive`),
  and is an LRU cache throughout a run exactly when no operation of the run uses an entry with
  younger ones behind it (`LruIff`); an entry that was just stored again can be the next one to go
  (`RefreshedEntryIsEvictedFirst`).
* The tool cadence of the maintenance loop is not independent: a shorter modality interval starves
  it, and no other does (`ToolCycleStarvesIff`), and the composite clock makes it run early
  (`ToolRunsEarlyIff`).

One property that no text promises, but that the provider and group deadlines have, fails for the
deadline of a single model: it is that of the last response, not of the longest. It never
moves back exactly when no response asks for less than the previous one that was not cleared since
(`ModelDeadlineIsLast`, `NeverMovesBackIff`), and moving back lets a route go early exactly when neither its provider nor its capacity holds it (`EarlyReturnIff`).

## Model

| member | source | states |
|---|---|---|
| Idempotency.IdempotencyStore.Claim | tusker_gateway/idempotency.py:156-219 | purges expired rows, then grants, conflicts, replays or reports in progress, with the row it leaves |
| Idempotency.IdempotencyStore.Complete | tusker_gateway/idempotency.py:221-243 | stores the response only for the token, hash and state that hold the row |
| Idempotency.IdempotencyStore.Abandon | tusker_gateway/idempotency.py:245-256 | removes only the caller's own processing row |
| Idempotency.IdempotencyStore.Renew | tusker_gateway/idempotency.py:258-278 | extends lock and expiry of the caller's own processing row only |
| IdempotencyRuns.LeaseExclusion | tusker_gateway/idempotency.py:156-278 | in every run whose holders make their own calls in order, two tokens get one key one after the other only if some reading in between is a lock later or the first was handed back |
| IdempotencyRuns.LeaseExclusionOnOneClock | tusker_gateway/idempotency.py:156-278 | with all readings in order the second grant itself comes a lock later, or the first was handed back |
| IdempotencyRuns.ExclusiveIffRowsOutliveLocks | tusker_gateway/idempotency.py:164-219 | exclusion holds in every run exactly when rows live at least as long as locks |
| IdempotencyRuns.GrantOccupies | tusker_gateway/idempotency.py:164-278 | a grant keeps its key, or its finished work, until its lock runs out unless it is abandoned |
| IdempotencyRuns.SupersededTokenIsFenced | tusker_gateway/idempotency.py:221-278 | once a later claim took over, every call with the old token returns False and changes nothing |
| IdempotencyRuns.OrphanPollReleases | tusker_gateway/idempotency.py:331-389 | the first abandon poll after a cancelled claim commits removes that row for good and touches no other; a poll before it is a no-op |
| IdempotencyRuns.CompletedResponseIsReplayed | tusker_gateway/idempotency.py:186-243 | as long as no call read its expiry, a completed row never changes, the same hash replays its exact response, other hashes conflict, other calls are refused |
| IdempotencyRuns.OneCompletePerLifetime | tusker_gateway/idempotency.py:221-243 | between two successful completes of a key some call found the row expired and the key was claimed anew |
| IdempotencyRuns.RowsStemFromGrants | tusker_gateway/idempotency.py:177-278 | every row's expiry and lock are counted from the clock of one grant of its token |
| IdempotencyOutcomes.ClaimAfterGrant | tusker_gateway/idempotency.py:164-219 | after a grant read at t, with nothing completed or handed back since: another hash conflicts before t + ttl, the same hash waits until t + lock and then takes the key over with a lock and an expiry of its own, and any claim gets the key once one has read t + ttl |
| IdempotencyOutcomes.ClaimAfterComplete | tusker_gateway/idempotency.py:164-206 | after a complete the same hash replays and another conflicts exactly until a claim reads a ttl past the grant that was completed |
| IdempotencyOutcomes.ClaimOfFreeKey | tusker_gateway/idempotency.py:174-199 | a key that nobody got or that was handed back is granted |
| IdempotencyOutcomes.EveryClaimIsCovered | tusker_gateway/idempotency.py:156-219 | from an empty table every claim of every run is one of these |
| IdempotencyOutcomes.FencedCallSucceedsIff | tusker_gateway/idempotency.py:221-278 | in every run complete, abandon and renew succeed exactly for the token and hash of the last grant, with no success and no purge since |
| CircuitBreaker.Breaker.Check | tusker_gateway/circuit_breaker.py:213-344 | decision, new row and statistics of an uninterrupted check |
| CircuitBreaker.Breaker.RecordSuccess | tusker_gateway/circuit_breaker.py:346-382 | the row after a success, no other row changed |
| CircuitBreaker.Breaker.RecordFailure | tusker_gateway/circuit_breaker.py:384-460 | the row after a failure, tripped or not, no other row changed |
| CircuitBreaker.Breaker.ReleaseProbe | tusker_gateway/circuit_breaker.py:462-471 | only the in-flight flag is cleared |
| CircuitBreaker.Breaker.RecordAcceptedPayload | tusker_gateway/circuit_breaker.py:549-575 | raises the payload ceiling or leaves it |
| CircuitBreaker.Breaker.RecordRejectedPayload | tusker_gateway/circuit_breaker.py:577-607 | lowers the payload ceiling or leaves it |
| BreakerRuns.ProbeAdmissionBounded | tusker_gateway/circuit_breaker.py:195-344 | under every interleaving, probes admitted since the last close or reopen never exceed the limit |
| BreakerRuns.AdmissionTakesASlot | tusker_gateway/circuit_breaker.py:234-344 | a caller that read a non-CLOSED row is admitted only by reserving a free slot |
| BreakerRuns.WindowCountersBounded | tusker_gateway/circuit_breaker.py:654-673 | failures, total and window size stay ordered through halving and stale writes |
| BreakerRuns.ClosedBelowThresholdIff | tusker_gateway/circuit_breaker.py:563-571 | a step keeps CLOSED rows below the threshold exactly when it is not a payload insert that lost a race |
| BreakerRuns.ClosedRowsBelowThreshold | tusker_gateway/circuit_breaker.py:346-460 | without such a race every reachable CLOSED row is below the threshold |
| BreakerRuns.PayloadInsertCanForceClosed | tusker_gateway/circuit_breaker.py:627-639 | a run in which the race closes a tripped row |
| BreakerRuns.DocumentedEdgesIff | tusker_gateway/circuit_breaker.py:9-13 | whatever comes between a call's read and its statement, the statement takes a documented edge under its documented label exactly when it does not escape |
| BreakerRuns.OtherStepsKeepState | tusker_gateway/circuit_breaker.py:195-205 | besides statements only a restart moves the state, from HALF_OPEN to OPEN |
| BreakerRuns.UndisturbedEscapesIff | tusker_gateway/circuit_breaker.py:372-382 | without interference exactly forced checks and the outcomes that arrive on an OPEN route and do not trip it escape, and the outcomes close it |
| BreakerRuns.StaleSuccessClosesReopened | tusker_gateway/circuit_breaker.py:354-370 | from every reachable route that is due for a probe, a run in which an older request's success closes a route that was just reopened |
| BreakerRuns.AdmittedIff | tusker_gateway/circuit_breaker.py:241-336 | an unforced check takes a slot exactly when one is free and it read an expired OPEN row on a route not CLOSED, or a HALF_OPEN row on a HALF_OPEN route |
| BreakerRuns.EarlyAdmissionIff | tusker_gateway/circuit_breaker.py:241-336 | an admission, on an OPEN or a HALF_OPEN row, comes before the end of the cooldown that stands exactly when its OPEN read was stale or it read HALF_OPEN on a HALF_OPEN route, with a slot free |
| BreakerRuns.ForcedCheckOpensTheDoor | tusker_gateway/circuit_breaker.py:222-292 | from every reachable OPEN route with two free slots, a run in which a forced check is followed by an unforced one that is admitted early with a fresh read |
| BreakerRuns.EarlyAdmissionNeedsForceOrStaleRead | tusker_gateway/circuit_breaker.py:213-344 | over every run with checks on an ordered clock, an early admission needs a forced check or a stale read admitted early, then or before |
| BreakerRuns.StaleReadAdmitsEarly | tusker_gateway/circuit_breaker.py:241-336 | from every reachable route that is due for a probe, a run that admits an unforced check at the start of a new cooldown |
| BreakerRuns.NoAdmissionBeforeCooldown | tusker_gateway/circuit_breaker.py:241-277 | under every interleaving a tripped route stays OPEN with its opening and admits nobody until an outcome, a racing payload insert, a forced check, a check after the cooldown or a stale read |
| BreakerRuns.TripsIff | tusker_gateway/circuit_breaker.py:384-460 | a new route is OPEN after any number of outcomes exactly when the last failed and completed the run of failures, or failed in a full window with too large a share of them; the counters are exact through every halving |
| BreakerRuns.RecoveredRouteStartsOver | tusker_gateway/circuit_breaker.py:354-370 | after a successful probe a route trips when a new one would |
| BreakerRuns.OpenHasNoProbesIff | tusker_gateway/circuit_breaker.py:333-335 | a step keeps all slots of OPEN rows free exactly when it is not a tripping insert over used slots |
| BreakerRuns.OpenRowsHaveNoProbes | tusker_gateway/circuit_breaker.py:333-335 | in every run without such an insert OPEN rows have all slots free |
| BreakerRuns.RecoveryAdmitsExactly | tusker_gateway/circuit_breaker.py:241-344 | after the cooldown the next check after k others is admitted exactly when more than k slots were left |
| BreakerRuns.ReachableRecovery | tusker_gateway/circuit_breaker.py:241-344 | in every run without a tripping insert that is the configured number of probes |
| BreakerRuns.ReleaseFreesNoSlot | tusker_gateway/circuit_breaker.py:462-471 | after a release a caller is admitted exactly when a slot was free anyway |
| BreakerRuns.ReleaseCanStick | tusker_gateway/circuit_breaker.py:462-471 | a HALF_OPEN route without free slots is stuck after a release |
| BreakerRuns.StuckRouteAdmitsNobody | tusker_gateway/circuit_breaker.py:195-205 | under every interleaving of checks, releases, payload records and restarts a stuck route admits nobody until an outcome arrives |
| BreakerRuns.TrippingInsertCanStick | tusker_gateway/circuit_breaker.py:431-441 | a run that ends in a stuck OPEN route |
| BreakerRuns.FullRouteAdmitsNobody | tusker_gateway/circuit_breaker.py:294-344 | under every interleaving a route with all slots taken admits nobody until an outcome, a payload insert or a restart |
| BreakerCooldowns.CheckObeysTheCooldown | tusker_gateway/circuit_breaker.py:213-344 | under every interleaving the decision of a check by what it read and what the route is by then; an OPEN route turns it away exactly while less time has passed since the last opening than the last cooldown a failure asked for since the last success, or else the policy's |
| BreakerCooldowns.RestartReopensIff | tusker_gateway/circuit_breaker.py:195-205 | in every run a restart reopens a HALF_OPEN route exactly when the last of admissions, releases and probe ends was an admission |
| BreakerPayloads.SkippedIff | tusker_gateway/circuit_breaker.py:549-607 | a body is skipped exactly when there is a report and every one that vouches for its size was contradicted by a later refusal |
| BreakerPayloads.SkippedWithoutRefusalIff | tusker_gateway/circuit_breaker.py:532-540 | without any refusal a route is skipped exactly for bodies larger than all it took |
| BreakerPayloads.AcceptedLowersIff | tusker_gateway/circuit_breaker.py:549-575 | under every interleaving an accepted body lowers the ceiling exactly when it is smaller and its caller read a lower ceiling or none |
| BreakerPayloads.RejectedRaisesIff | tusker_gateway/circuit_breaker.py:577-607 | a refused body raises it exactly when its margin is larger and its caller read a higher ceiling or none |
| ConfigStore.Store.ReloadNow | tusker_gateway/config_store.py:696-714 | an uninterrupted reload leaves the snapshot current, with every lookup as the rows say, and reports whether it read the tables |
| ConfigStore.ProjectShows | tusker_gateway/config_store.py:315-529 | every lookup in terms of the rows: a filled table hides the fallback, zeros in pools are shown as defaults, a secret is accepted when the fallback has it or an unrevoked key carries it, identities need a principal and a tenant |
| ConfigStore.Store.UpsertPool | tusker_gateway/config_store.py:885-965 | validation, generation precondition, one commit with one bump, current snapshot |
| ConfigStore.Store.DeletePool | tusker_gateway/config_store.py:1003-1023 | refuses the code pool and missing pools, removes any other |
| ConfigStore.Store.PersistCredentials | tusker_gateway/config_store.py:1311-1376 | replaces exactly the credentials equal to the expected one, seeds a missing row, otherwise changes nothing |
| ConfigStore.SecondSwapLoses | tusker_gateway/config_store.py:1311-1376 | a second swap from the same credential finds nothing exactly when the first replacement differed from it |
| ConfigStore.SwappedAlikeIff | tusker_gateway/config_store.py:1353-1361 | replacing a credential makes two rows equal exactly when they differ only in entries it replaces or leaves as the replacement |
| ConfigStore.WriteBackIsAtomicIff | tusker_gateway/config_store.py:1329-1376 | for every read and every row since, a missing one included, the write is the atomic swap exactly when the read still serves |
| ConfigStore.UnlockedSwapsLoseOne | tusker_gateway/config_store.py:1329-1376 | two swaps that both read before either writes both succeed, and the first credential is gone |
| ConfigStore.SwapTouchesOnlyMatches | tusker_gateway/config_store.py:1578-1583 | a swap leaves every other credential of every provider alone |
| ConfigSnapshots.EqualGenerationMeansCurrent | tusker_gateway/config_store.py:315-529 | under every interleaving of reloads and writers a loaded snapshot with the database's generation is the projection of the current tables |
| ConfigSnapshots.QuietReloadConverges | tusker_gateway/config_store.py:696-714 | from any reachable state an uninterrupted reload makes the snapshot current |
| ConfigSnapshots.TornSnapshotKeepsOldGeneration | tusker_gateway/config_store.py:315-529 | a run whose snapshot mixes two generations; its label lags behind |
| ConfigLookups.TakesEffectIff | tusker_gateway/config_store.py:718-1234 | a write moves the generation by one exactly when it is applicable and is a no-op otherwise |
| ConfigLookups.LastWriteStands | tusker_gateway/config_store.py:741-1417 | in every run the tables say what the last write of an entry asked for; no other write disturbs it |
| ConfigLookups.UnexpiredAreKept | tusker_gateway/config_store.py:1380-1417 | a purge drops what has expired and keeps everything else |
| ConfigLookups.CurrentSnapshotShows | tusker_gateway/config_store.py:315-529 | in every run a snapshot with the database's generation answers every lookup from the rows |
| ConfigLookups.RevokedKeyIsOut | tusker_gateway/config_store.py:497-501 | once a key is revoked, and until it is issued again, a current snapshot accepts its secret only if the fallback or another live key has it |
| ConfigLookups.RotatedKeyIsReplaced | tusker_gateway/config_store.py:1175-1230 | a rotation lets the new secret in, the old one out unless shared, and moves the identity; a revoked key comes back as a live one |
| ConfigLookups.ReloadAfterWriteIsCurrent | tusker_gateway/config_store.py:696-739 | one quiet reload after a write makes the snapshot current |
| PoolPatch.ObservedPatchLosesNothing | tusker_gateway/admin.py:1469-1513 | a PATCH committed under an observed If-Match stores each of the nine fields from its body, or else from the pool of that generation, which was still in place, and nothing else changes |
| PoolPatch.PatchOverridesWhatItRead | tusker_gateway/admin.py:1469-1513 | every PATCH that commits stores field by field its body over the pool as committed at the generation it read |
| PoolPatch.StoredPoolsHaveNoZeros | tusker_gateway/config_store.py:940-957 | in every run no stored pool of any generation has a zero where a default belongs |
| PoolPatch.ObservedPatchNeverLoses | tusker_gateway/config_store.py:914-961 | no such PATCH overwrites an update it has not seen |
| PoolPatch.UnobservedPatchCanLoseIff | tusker_gateway/admin.py:1493-1500 | a PATCH with an unobserved If-Match loses an update in some run exactly when the header is missing or names 2 or more |
| PoolPatch.AlwaysFaithful | tusker_gateway/config_store.py:718-724 | generations count commits and what a request read is the pool of the generation it read |
| PoolPatch.PatchRoundTrip | tusker_gateway/config_store.py:967-1002 | what was put is what is read, and an empty PATCH changes no field |
| ConfigRuntime.Runtime.RuntimeConfig | tusker_gateway/config_runtime.py:74-91 | the snapshot, the last good configuration or the fallback, and the generation it remembers |
| ConfigRuntime.Runtime.ApplyReload | tusker_gateway/config_runtime.py:55-66 | success means the current generation is published and applied; a failed apply is raised with the generation already remembered |
| ConfigRuntime.Runtime.InitializeOnce | tusker_gateway/config_runtime.py:172-198 | success means the current generation is published and applied |
| ConfigRuntime.Runtime.Apply | tusker_gateway/config_runtime.py:223-260 | nothing is published unless the pool manager could be built |
| ConfigRuntime.Runtime.PollOnce | tusker_gateway/config_runtime.py:540-558 | the remembered generation advances only with a successful apply |
| ConfigRuntime.PublishedIsLastGood | tusker_gateway/config_runtime.py:223-260 | in every run the published configuration is the initial one or a committed, buildable one |
| ConfigRuntime.LastGoodIsSeen | tusker_gateway/config_runtime.py:74-91 | in every run there is a last good configuration exactly when a query saw the store loaded, and then the store stays loaded, so it is never answered from |
| ConfigRuntime.NextPollAppliesIff | tusker_gateway/config_runtime.py:540-558 | the next poll that can leaves a buildable current generation applied exactly when it is not remembered unapplied |
| ConfigRuntime.KeepsRetriedIff | tusker_gateway/config_runtime.py:74-144 | a step loses the retry exactly when it remembers the current generation without applying it |
| ConfigRuntime.RestoresRetryIff | tusker_gateway/config_runtime.py:55-66 | a step brings a lost retry back exactly when it commits or applies the current configuration |
| ConfigRuntime.FailedGenerationIsRetriedIff | tusker_gateway/config_runtime.py:540-558 | in every run, the next poll that can applies the current generation exactly when no step since the last that restores the retry remembered it unapplied |
| ConfigRuntime.QueryHidesGeneration | tusker_gateway/config_runtime.py:74-91 | a query before the poll makes every later poll skip the generation |
| Rotators.Rotator.Reload | tusker_gateway/passthrough.py:1198-1212 | new credentials, the cursor stays unless the list became too short, running account cooldowns stay and everything else is forgotten |
| Rotators.ReloadsKeepAccounts | tusker_gateway/passthrough.py:1198-1212 | after any number of reloads exactly the cooldowns of accounts that still run are left |
| Rotators.RotatorFor | tusker_gateway/config_runtime.py:427-456 | the same object with its cursor, reloaded only when its credentials changed, or a new one |
| Rotators.LiveRotators.Rebuild | tusker_gateway/config_runtime.py:397-464 | exactly the configured providers with their credentials, kept rotators by identity, dropped ones untouched, no rotator shared |
| AuditScan.LinesAreNonBlankSplitLines | tusker_gateway/audit.py:136-147 | splitting at every break byte yields the non-blank lines of splitlines |
| AuditScan.LastLineOfSuffix | tusker_gateway/audit.py:136-147 | a suffix that shows two non-blank lines ends in the file's last one |
| AuditScan.ScanBackwards | tusker_gateway/audit.py:122-149 | the chunked scan returns the last non-blank line of the whole file and gives up on exactly the unrecoverable ones |
| AuditScan.TwoChunksSuffice | tusker_gateway/audit.py:22-26 | two chunks of a log of bounded records show two lines or the whole file |
| AuditScan.ScanLog | tusker_gateway/audit.py:122-149 | on such a log at most two chunks are read and the newest record is found |
| AuditBounds.BoundedIsWithin | tusker_gateway/audit.py:97-120 | what is written is bounded in depth, width and text length |
| AuditBounds.WithinIsFixed | tusker_gateway/audit.py:97-120 | a bounded value passes through unchanged |
| AuditBounds.BoundedIsIdempotent | tusker_gateway/audit.py:97-120 | bounding twice is bounding once |
| AuditBounds.BoundedAbridges | tusker_gateway/audit.py:97-120 | what is kept: scalars as they are, texts up to their limit, the first 32 items of each collection two levels deep, the last of entries with one key |
| AuditBounds.SortedByKey | tusker_gateway/audit.py:175-186 | the canonical form lists the same entries in the order of their keys |
| AuditBounds.CanonForgetsOrder | tusker_gateway/audit.py:175-186 | dictionaries with the same entries have one canonical form |
| AuditChain.AuditLogger.Append | tusker_gateway/audit.py:151-196 | the appended file with a record that carries the event, or an error and the file as it was |
| AuditChain.AppendToAnyFile | tusker_gateway/audit.py:122-196 | on any file a record goes after what is there and names the hash of the last non-blank line, or the genesis value; exactly an unrecoverable file or a last line that is no chain record is refused before the size is looked at, and a refusal changes nothing |
| AuditChain.SignedCarries | tusker_gateway/audit.py:163-174 | under every key not reserved the record has the bounded value of the last of the first 32 items with that cut key, one of two defaults, or nothing |
| AuditChain.FittingEventIsKept | tusker_gateway/audit.py:163-174 | a record of an event within the bounds has its items as they are and no other key than the reserved ones and the two defaults, which stand where the event has none |
| AuditChain.AuditLogger.VerifyFile | tusker_gateway/audit.py:250-280 | true exactly for a file whose records form a chain; the count is the number of good links |
| AuditChain.WrittenLinkIff | tusker_gateway/audit.py:174-191 | a written record verifies exactly when its digests with and without a "hash" field agree, which they do when the event has none |
| AuditChain.CanonLinksIff | tusker_gateway/audit.py:262-276 | a record links exactly when what it reads back as does |
| AuditChain.BuiltLogVerifiesIff | tusker_gateway/audit.py:151-280 | a log built by appends reads back as the canonical forms of the written records and verifies exactly when those digests agree for each |
| AuditChain.BuiltLogVerifies | tusker_gateway/audit.py:250-280 | a log of events without a "hash" field verifies with the number of appends |
| AuditChain.LogTellsItsEvents | tusker_gateway/audit.py:151-280 | what the verifier reads back is, record by record, the canonical form of a record that carries its event, names its predecessor and mode and is sealed by the digest of that mode |
| AuditChain.OnlyOversizeIsRefused | tusker_gateway/audit.py:151-196 | on a log built by appends an append fails only for its size |
| AuditChain.LastHashPinsLog | tusker_gateway/audit.py:250-280 | two verifying logs with the same last hash are equal or exhibit a collision |
| AuditChain.CollisionIsReal | tusker_gateway/audit.py:262-276 | equal hashes in verified logs are equal digests of the two texts, each in the mode its record claims, and no other mode verifies |
| AuditChain.TamperingShows | tusker_gateway/audit.py:250-280 | a changed log that still verifies ends in another hash, collisions aside |
| Budget.BudgetTracker.Check | tusker_gateway/budget.py:159-228 | the cap that refuses, in order, and its statistics; a raise exactly when a sum is needed and the store is unreachable; no row changes |
| Budget.RefusedIff | tusker_gateway/budget.py:159-228 | a request is refused exactly when it would pass some cap, under the first of them in order, with that cap's usage and limit |
| Budget.NeedsSumIff | tusker_gateway/budget.py:159-228 | the store is read exactly when some cap applies |
| Budget.BudgetTracker.Record | tusker_gateway/budget.py:230-254 | all windows charged in one transaction, silently nothing when the store is unreachable |
| Budget.BudgetTracker.Refund | tusker_gateway/budget.py:256-274 | all windows reduced in one transaction, silently nothing when the store is unreachable |
| BudgetRuns.SumIsAlignedWindow | tusker_gateway/budget.py:304-334 | the rolling query returns the net tokens since the last multiple of the window |
| BudgetRuns.MonthIsThirtyDays | tusker_gateway/budget.py:116-117 | every monthly row equals the sum of its thirty daily rows |
| BudgetRuns.AlignedWindowUnderCap | tusker_gateway/budget.py:159-254 | serialised requests keep an aligned window within every cap |
| BudgetRuns.IntervalUnderTwiceCap | tusker_gateway/budget.py:159-254 | any interval as long as the window carries at most twice the cap |
| BudgetRuns.CapBoundsIntervalIffAligned | tusker_gateway/budget.py:17-20 | for the daily, monthly and pool windows, a cap bounds an interval in every run exactly when it starts on a multiple of the window |
| BudgetRuns.InFlightOvershoot | tusker_gateway/budget.py:159-254 | with k requests of at most R tokens in flight, of any pools for a daily or monthly cap, an aligned window carries less than cap + k * R |
| BudgetRuns.OvershootIsReached | tusker_gateway/budget.py:24-27 | for every window, cap, k and R a run that keeps to them carries exactly cap - 1 + k * R |
| RequestCharge.Handle | tusker_gateway/anthropic_adapter.py:787-888 | one charge, taken back at most once and by the recorded amount, and what the caller sees, through every exit of the handler, cancelled writes included |
| RequestCharge.WindowMovesByWhatIsOwed | tusker_gateway/anthropic_adapter.py:787-888 | every window moves by the provider's own count, or the estimate where there is none, for a request that got through, and not at all for one that was taken back |
| RequestCharge.NothingOwedNothingWritten | tusker_gateway/anthropic_adapter.py:787-888 | nothing is written for a request that owes nothing or a tracker that is off |
| RequestCharge.TakenBackIsNeutralIff | tusker_gateway/budget.py:230-274 | a charge taken back leaves nothing exactly when both writes met the same window or neither reached the store |
| FallbackLoop.CallWithPoolFallback | tusker_gateway/anthropic_adapter.py:340-473 | the loop terminates, every call it makes is a legal step, and its result is the one the trace stands for, or it was stopped at an await |
| FallbackLoop.SkipRefused | tusker_gateway/anthropic_adapter.py:356-376 | the inner loop ends with an admitted candidate, an exhausted pool, or stopped |
| FallbackRuns.RouteTriedOnce | tusker_gateway/anthropic_adapter.py:340-473 | no route is checked twice or dispatched twice, over all pools together |
| FallbackRuns.OnlyAfterAllowed | tusker_gateway/anthropic_adapter.py:356-405 | a dispatch follows directly on the breaker's consent, and its route is a candidate of the current pool |
| FallbackRuns.EventsAreTheEnvironments | tusker_gateway/anthropic_adapter.py:340-473 | every verdict is the breaker's, every answer the provider's, every route the selector's choice out of what was not given up, at that moment |
| FallbackRuns.RefusedIsNotDispatched | tusker_gateway/anthropic_adapter.py:356-376 | a refused route is never dispatched, in any pool |
| FallbackRuns.EarlierAdmissionsAreSettled | tusker_gateway/anthropic_adapter.py:404-473 | wherever the loop is stopped, every admission but the one it works on was dispatched and recorded |
| FallbackRuns.EveryAdmissionIsSettled | tusker_gateway/anthropic_adapter.py:404-473 | unless it is stopped, every admission is dispatched and its outcome recorded at once; an unusable answer counts as success, then failure |
| FallbackRuns.PoolsAreExhaustedInOrder | tusker_gateway/anthropic_adapter.py:377-392 | a pool is entered only when the selector had nothing left in every pool before it |
| FallbackRuns.CallerSeesLastDispatch | tusker_gateway/anthropic_adapter.py:390-473 | the caller sees the last dispatch's response or error; no healthy models exactly when nothing was dispatched |
| FallbackRuns.ServedEndsTheRun | tusker_gateway/anthropic_adapter.py:434-467 | nothing follows a served answer but the record of its success |
| FallbackRuns.FailureLeavesNothingUntried | tusker_gateway/anthropic_adapter.py:377-392 | with a complete selector a request fails only after every candidate was refused or tried in vain |
| FallbackRuns.SanitizedIffOtherProvider | tusker_gateway/anthropic_adapter.py:398-403 | replay state is stripped exactly for providers other than the first one dispatched |
| LoginLimiter.LoginRateLimiter.Allow | tusker_gateway/admin.py:228-236 | admits when fewer than max recent attempts are stored, and the list it leaves |
| LoginLimiter.PrunedListSuffices | tusker_gateway/admin.py:228-236 | the pruned list and the whole history hold the same recent attempts |
| LoginLimiter.DeniedIffWindowFull | tusker_gateway/admin.py:220-239 | an attempt is denied exactly when max were admitted in the preceding window of the whole history since the last reset |
| LoginLimiter.AdmittedSpanWindow | tusker_gateway/admin.py:220-236 | any max + 1 admitted attempts span at least the window |
| Cooldown.CooldownTracker.Cooldown | tusker_gateway/cooldown.py:196-220 | the deadlines after a cooldown of a route |
| Cooldown.CooldownTracker.CooldownGroup | tusker_gateway/cooldown.py:222-231 | the deadlines after a cooldown of a capacity group |
| Cooldown.CooldownTracker.Clear | tusker_gateway/cooldown.py:328-332 | only the route's own deadline is dropped |
| Cooldown.CooldownTracker.IsCooldown | tusker_gateway/cooldown.py:238-282 | active exactly when the global circuit, the group, the route or the provider is |
| Cooldown.HeldIff | tusker_gateway/cooldown.py:238-282 | in every run a route is held exactly while some cooldown of its group or provider runs, or the one of its own last event does |
| Cooldown.ProviderDeadlineIsLatest | tusker_gateway/cooldown.py:212-219 | over any run the provider deadline is the maximum its events asked for, each capped at thirty days |
| Cooldown.GroupDeadlineIsLatest | tusker_gateway/cooldown.py:222-231 | the same for a capacity group |
| Cooldown.NoEarlyReturn | tusker_gateway/cooldown.py:212-219 | no later event re-enables a route before a provider-wide cooldown it was given has ended |
| Cooldown.ModelDeadlineIsLast | tusker_gateway/cooldown.py:205-207 | over any run a model's deadline is that of the last event that set it, unless it was cleared since |
| Cooldown.NoDeadlineUnlessSet | tusker_gateway/cooldown.py:205-207 | a model nothing cooled down has no deadline |
| Cooldown.MovesBackIff | tusker_gateway/cooldown.py:205-207 | an event moves a model's deadline back exactly when it asks for less than the previous one that set it and was not cleared since |
| Cooldown.NeverMovesBackIff | tusker_gateway/cooldown.py:205-207 | over any run a model's deadline never moves back exactly when no event asks for less than the previous one that was not cleared since |
| Cooldown.EarlyReturnIff | tusker_gateway/cooldown.py:196-282 | an event lets a held route go exactly when it sets or clears the model's own deadline and nothing else holds the route |
| Cooldown.ModelDeadlineIsOverwritten | tusker_gateway/cooldown.py:206-207 | on a model-scoped provider a shorter cooldown brings the model back early |
| Cooldown.SiblingsUnaffected | tusker_gateway/cooldown.py:208-213 | a model's cooldown on a model-scoped provider changes no other route's status |
| GeminiThought.GeminiThoughtCache.Store | tusker_gateway/gemini_thought.py:54-61 | the cache after a store, within its bound |
| GeminiThought.GeminiThoughtCache.StoreMany | tusker_gateway/gemini_thought.py:63-66 | the cache after storing the items in order, each with clock readings of its own |
| GeminiThought.GeminiThoughtCache.Get | tusker_gateway/gemini_thought.py:70-83 | the live signature or nothing; forgetting an expired entry changes nothing a later request can find |
| GeminiThought.GeminiThoughtCache.EvictLocked | tusker_gateway/gemini_thought.py:168-179 | expired entries go, then the oldest overflow |
| GeminiThought.ExtractFromResponse | tusker_gateway/gemini_thought.py:87-121 | the signatures of all calls, message-level ones spread over the calls |
| GeminiThought.GeminiThoughtCache.InjectIntoMessages | tusker_gateway/gemini_thought.py:133-164 | every message patched in place exactly as specified, and the number of patched calls |
| GeminiRuns.NothingOrLastStored | tusker_gateway/gemini_thought.py:54-83 | in every run the cache keeps its bound and yields nothing or the last signature stored for an id |
| GeminiRuns.FreshAreFound | tusker_gateway/gemini_thought.py:168-179 | signatures stored together under fresh distinct ids, no more than the bound, are found until they expire |
| GeminiRuns.SignaturesComeBack | tusker_gateway/gemini_thought.py:87-164 | extract, strip, inject restores the signature of every call of every choice and leaves every other field alone |
| GeminiRuns.SecondInjectPatchesNothing | tusker_gateway/gemini_thought.py:133-164 | a second injection patches nothing |
| GeminiRuns.ReadAfterWrite | tusker_gateway/gemini_thought.py:196-220 | a written signature reads back, and no other field of the call, of its extra content or of the nested object changes |
| GeminiWalks.ExtractionFindsLastClaim | tusker_gateway/gemini_thought.py:87-121 | extraction finds for every id the last signature claimed for it by a call, its message or a delta |
| GeminiWalks.CountIsDifferences | tusker_gateway/gemini_thought.py:133-164 | injection changes exactly the calls with an id, no signature and a live cached one, and counts them |
| GeminiWalks.OnlyAssistantCallsChange | tusker_gateway/gemini_thought.py:133-164 | nothing but the tool calls of assistant messages changes |
| GeminiWalks.RequestCountIsDifferences | tusker_gateway/gemini_thought.py:133-164 | the number returned is the number of calls that differ afterwards |
| GeminiEviction.BirthFacts | tusker_gateway/gemini_thought.py:54-61 | every cached key was stored when it was absent and has been there ever since |
| GeminiEviction.YoungestSurvive | tusker_gateway/gemini_thought.py:168-179 | in every run entries stand in the order their keys came in, and a store leaves exactly the live ones with fewer than the bound younger than they are |
| GeminiEviction.StepIsLruIff | tusker_gateway/gemini_thought.py:23 | an operation does what an LRU cache does exactly when it uses no entry with younger ones behind it |
| GeminiEviction.LruIff | tusker_gateway/gemini_thought.py:23 | the cache is an LRU cache throughout a run exactly when no operation of the run does |
| GeminiRuns.RefreshedEntryIsEvictedFirst | tusker_gateway/gemini_thought.py:168-179 | an entry stored again is still evicted before an untouched younger one |
| Maintenance.QualificationMaintenanceLoop | tusker_gateway/maintenance.py:562-692 | which probes every iteration of the loop runs, and on which pool |
| Maintenance.CompositeRunsIff | tusker_gateway/maintenance.py:639-659 | the composite probe runs exactly when it is enabled and the loop wakes an interval after its last run or its initial delay after the start |
| Maintenance.ModalityRunsIff | tusker_gateway/maintenance.py:664-692 | the same for the modality probe |
| Maintenance.ToolRunsIff | tusker_gateway/maintenance.py:594-607 | the tool cycle runs exactly when the next modality run is at least its delay away, and serves the pools in turn |
| Maintenance.ModalityRunsAreSpaced | tusker_gateway/maintenance.py:664-692 | two modality runs are at least the interval apart |
| Maintenance.CompositeRunsAreSpaced | tusker_gateway/maintenance.py:639-659 | two composite runs are at least the interval apart |
| Maintenance.NoDeadlineIsOverslept | tusker_gateway/maintenance.py:582-597 | an iteration that wakes on time oversleeps neither clock and wakes for the first of its three reasons |
| Maintenance.ToolCycleStarves | tusker_gateway/maintenance.py:582-604 | after a modality run a shorter modality interval keeps the tool cycle from ever running |
| Maintenance.ToolCycleStarvesIff | tusker_gateway/maintenance.py:576-604 | in the runs the sleeping loop can make, that loss happens exactly when the modality interval is the shorter one |
| Maintenance.ToolRunsEarlyIff | tusker_gateway/maintenance.py:594-604 | the tool cycle runs before its delay exactly when the composite clock wakes the loop and the modality deadline is a full delay away |
| Maintenance.EveryWakeServesNextPool | tusker_gateway/maintenance.py:604-607 | without the modality probe every wake runs the tool cycle, on the pools in turn |
| StreamCheck.SplitIsStable | tusker_gateway/sse.py:15-25 | more bytes do not change a frame that was complete |
| StreamCheck.DrainInTwoSteps | k8s/smoke_chat.py:25-75 | handling a buffer in two steps is handling it at once |
| StreamCheck.CheckStream | k8s/smoke_chat.py:25-75 | verdict and content depend on the concatenated bytes alone |
| StreamVerdicts.AcceptedIff | k8s/smoke_chat.py:25-75 | a stream passes exactly when its frames are readable content up to one [DONE], silent after it, without an error event, with blanks trailing, within the limit and with some text; its content is the texts in order |
| StreamVerdicts.FaultIsTheReason | k8s/smoke_chat.py:40-66 | the reason of a rejection is that of the first faulty frame |
| StreamVerdicts.WholeIsTheReason | k8s/smoke_chat.py:67-75 | without a faulty frame it is the limit, the trailing fragment, the missing end or the missing text |
| StreamVerdicts.ErrorNames | k8s/smoke_chat.py:40-42 | an event line is an error exactly when its name, blanks aside, is one of three |
| StreamVerdicts.WellFormedStreamPasses | tusker_gateway/sse.py:15-39 | whichever line ends are used, an encoded stream of readable events that ends in [DONE] passes with all its texts |
| Luhn.IsValidCreditCard | tusker_gateway/guardrails.py:57-69 | the loop computes the checksum of 13 to 19 digits |
| Luhn.PairOnTheRight | tusker_gateway/guardrails.py:57-69 | two more digits on the right add the last one as it is and the other doubled, less nine where that takes two digits |
| Luhn.SingleChangeIsRejected | tusker_gateway/guardrails.py:57-69 | every change of one digit of a valid number is rejected |
| Luhn.SwapIsRejectedIff | tusker_gateway/guardrails.py:57-69 | a swap of neighbours goes unnoticed exactly when they are equal or 0 and 9 |
| Luhn.UniqueCheckDigit | tusker_gateway/guardrails.py:57-69 | every prefix of legal length has exactly one valid check digit |

## Left out

- IdempotencyRuns.OrphanPollReleases: the cadence and the time budget of the polls are not modelled, so it says what each poll does, not that one runs after the commit.
- AuditChain.LastHashPinsLog: states equality or a collision instead of assuming an injective digest, because a digest of 64 characters cannot be injective.
- AuditChain.AuditLogger.VerifyFile: a file that cannot be read or is not UTF-8 is not modelled.
- FallbackLoop.CallWithPoolFallback: the passthrough branch makes a single dispatch and is left out.
- BreakerRuns.TripsIff: outcomes recorded one after another; two outcomes that read the same row, which count as one, are in the model but not in this theorem.
- RequestCharge.Handle: the passthrough and pool dispatch behind it enter as one outcome.
- ConfigStore.Store.PersistCredentials: its transaction is taken as atomic although it has no lock clause; WriteBackIsAtomicIff says when that is so.
- BudgetRuns.InFlightOvershoot: the up to four sums of one check are taken in one step; records that land between them are not modelled.
- GeminiThought.GeminiThoughtCache.InjectIntoMessages: one clock reading serves a whole injection, and a message is replaced in its slot instead of being mutated inside, so aliasing between messages is not captured; ids that are not text count as absent.
- StreamCheck.CheckStream: over the byte limit the reason may name a fault found earlier, so the reason alone depends on the chunking there.
- Cooldown.CooldownTracker.IsCooldown: the tracker's failure counter is left out, and the case folding of provider names is absorbed by the `scoped` parameter.
- Maintenance.QualificationMaintenanceLoop: the probes themselves and their errors; a failing probe is rescheduled like a successful one.
- ConfigSnapshots.EqualGenerationMeansCurrent: each table is read by one atomic statement; decryption failures that abort a reload are not modelled.
- Floating-point rounding: the failure ratio of the breaker is compared in exact reals, and clock arithmetic is exact.
- The parser of retry hints, 429 body heuristics and the transient ladder in `cooldown.py`: library text matching and clamps.
- `cache.py`, `copilot_enroll.py`, `protocol_probe_coordinator.py`: a map with a time to live, a file format and a semaphore, next to which the properties above are the harder ones.
- Guard pipeline and redaction tree walks in `guardrails.py`: rebuilt around regular expressions and an external tokenizer.
- Rotators.Rotator.Reload: token refresh and the set of initial refresh tokens are not modelled; one clock reading serves a whole rebuild.
- Catalog, capability and media-handler rebuilding in `config_runtime.py`: assembly of clients.
- `SessionManager` in `admin.py`: its content is signing.
- HTTP handlers and middleware, SQL dialects, migrations, file locks, fsync, OAuth flows, CLI workers and consoles: input and output without a deep invariant.
