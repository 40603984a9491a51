# csuite: a verified model of its stateful core

This project models the stateful, runtime-independent logic of csuite (a broker
that connects agents and people, keeps their messages, and captures what the
agents do) and proves what that logic promises over whole runs. SQL tables are
sequences in rowid order or insertion-ordered maps; a JavaScript `Map` is an
insertion-ordered map (`OrderedMap`). Clock readings, random draws, hashes,
ciphers, compression and JSON decoding are parameters, with a law stated only
where a proof needs one. Objects the source updates in place are classes whose
methods are proved against specification functions; the results are lemmas
about those functions over arbitrary runs.

| files | what they model |
|---|---|
| `Diagnostic*.dfy` | the diagnostics retention ladder: events fold into hour buckets, hours into days, caps evict, a coverage floor keeps every answer honest. `DiagnosticLedger` and `DiagnosticCoverage` carry a ghost ledger of everything ever written; `DiagnosticRecords` says whom a record writes for, `DiagnosticRetention` what the sweep and the caps do to each row, `DiagnosticAnswers` what a query may answer; `DiagnosticOutages` follows the outage latch over runs; `DiagnosticStores` holds the class |
| `Correlator*.dfy`, `GenAiCorrelators.dfy` | the GenAI correlator: request bodies without ids claimed through a per-model FIFO, joined to responses by request id, across batches. `CorrelatorLinear` accounts for every captured body with a ledger of losses by cause; `CorrelatorLosses` says which of them are not counted as dropped; `CorrelatorRecords` says what one record of each kind does |
| `BoundedParallel.dfy` | bounded-parallel fan-out as an interleaved step system |
| `Paging.dfy`, `ActivityStores.dfy`, `ActivityRows.dfy`, `InMemoryActivityStores.dfy`, `SqliteActivityStores.dfy`, `GenAiStores.dfy` | refill paging past undecodable rows, and the two activity stores as twins |
| `EventFeed.dfy`, `Brokers.dfy` | live fan-out against the durable feed |
| `BlobRetention.dfy` | the raw-body store and reference-counted blob collection |
| `Channel*.dfy` | the channel store and its audit log; `ChannelOutcomes` says the outcome of each operation over the rows |
| `Enrollment*.dfy` | the device-code flow (poll outcomes of section 3.5 of RFC 8628): `EnrollmentFlow` over runs, `EnrollmentRows` field by field |
| `MintLimiter.dfy`, `TotpLockout.dfy`, `TotpVerdicts.dfy`, `TotpSources.dfy` | the enrollment mint limiter, the sign-in lockouts, when a sign-in succeeds, and what one source can spend of the shared codeless bucket |
| `Prelude.dfy`, `OrderedMap.dfy` | shared sequence and map vocabulary |

`dafny verify dfyconfig.toml` checks the whole project.

## Where the code and its comments differ

The model follows the code. Each difference is proved, with a concrete input where
it is a failure.

- `enforceCaps` writes the state cap's overflow fact after the bucket cap has run,
  so the bucket table can hold one row more than its cap: exactly when
  `DiagnosticHealth.CapsBound` says, reached in `DiagnosticHealth.BucketBoundIsTight`.
- The fact that makes a refused fan-out visible to member-filtered queries is written
  after the insert; a throw between the two leaves such a window answering as if
  nothing had been refused (`DiagnosticAnswers.RefusalHonestIff`).
- The correlator counts only cap and TTL drops. An accounting record that repeats a
  request id overwrites the body claimed before, which is then neither held, emitted
  nor counted (`CorrelatorLosses.OverwriteReachable`); `CorrelatorLosses.UncountedLossIff`
  says exactly when a body is lost without being counted.
- `boundedParallel` with a NaN concurrency starts no runner and resolves with
  nothing done (`BoundedParallel.DoneMeansAll`, `BoundedParallel.NaNDoesNothing`).
- `clampListLimit` and `clampQueryLimit` turn a fraction in (0, 1) into 0: a SQLite
  listing then returns an empty page, while the in-memory walks, which test the
  length after a push, return one row (`Paging.ClampIsUsable`, `Prelude.WalkBack`).
- The feed and the live fan-out agree except in three exactly stated cases
  (`Brokers.FeedAgrees`), each of which occurs (`Brokers.EachCaseOccurs`).
- `ChannelStore.create` and `update` look up the first row with a slug; an older
  archived row hides an active duplicate from that check, and the caller gets the
  index's raw error instead of `slug_taken` (`ChannelAudit.DuplicateRefused`,
  `ChannelAudit.DuplicateRenameRefused`, reached in `ChannelAudit.ArchivedRowHidesDuplicate`
  and `ChannelAudit.ArchivedRowHidesRename`).
- `addMember` is documented as a no-op for a present member; it logs a role change
  and resets the join time (`ChannelAudit.ReAddIsLogged`, `ChannelAudit.ReAddOccurs`).
- `EnrollmentStore.approve` is documented to return false for an expired row; its
  update looks at the status only (`EnrollmentFlow.DecisionIgnoresExpiry`,
  `EnrollmentFlow.ExpiredDecisionOccurs`). The token of such a row is still never
  delivered (`EnrollmentFlow.TokenIsFirstApproval`).
- The mint limiter and the lockouts are described as sliding windows; they are
  fixed windows, so up to 19 mints fit into one window's length
  (`MintLimiter.RateBoundIsTight`; `MintLimiter.RateFromBucket` gives the exact maximum
  from each bucket). The lockout map can exceed its cap by one, exactly when
  `TotpLockout.CapPlusOne` says (`TotpLockout.CapPlusOneReached`), and the codeless maximum is 40, not 10. A named sign-in
  as `__codeless__` is charged to the shared bucket but to no source's
  (`TotpSources.SharedBucketChargedIff`).

## Model

| member | source | states |
|---|---|---|
| `DiagnosticAnswers.AnswerIs` | packages/core/src/diagnostics.ts:1143-1261 | the whole answer after any run of a new store, over predicates written out on what was written and on the rows: below the floor, `indeterminate` with nothing; else the coverage, the resolution, the interval and the bounds on count, first and last, for each of the three member filters with and without a cause |
| `DiagnosticAnswers.CoverageSound` | packages/core/src/diagnostics.ts:1143-1261 | after any run of records, sweeps, cap evictions and recoveries from an empty store, an `exact` answer counts exactly what was written under that cause and member (any, none or a name) in [from, to], with its true first and last; a `bucket` answer lies between what happened in the window and in the interval it returns, and its ends bracket the window's evidence and are real. The filters are written out over what was written |
| `DiagnosticAnswers.RefusedStillCounts` | packages/core/src/diagnostics.ts:1208-1260 | a window that crosses a refused fan-out loses `exact`, never the evidence: its count keeps the same bounds |
| `DiagnosticAnswers.RefusedFanoutNeverExact` | packages/core/src/diagnostics.ts:1223-1243 | if the fact of a refused fan-out (an affected set over 256) was written in the window, no member-filtered query over it is ever `exact`, whatever was swept or evicted before or since, and wherever after the fact the record was cut short by a throw |
| `DiagnosticAnswers.RefusalHonestIff` | packages/core/src/diagnostics.ts:879-889 | the fact is written after the insert: a refused record that throws at unit `fault` wrote it if and only if it got past its insert. After any earlier run a member-filtered window over it is then refused, and otherwise has the very coverage it had before, `exact` on a new store |
| `DiagnosticAnswers.Conservation` | packages/core/src/diagnostics.ts:778-891 | per cause and member, over any run: live events + the sum of bucket counts + what the caps and the day horizon deleted, summed unit by unit over the run, is exactly what was written, and outside the store's own `retention.*` causes exactly what was recorded |
| `DiagnosticAnswers.Partition` | packages/core/src/diagnostics.ts:778-1365 | everything written is live, behind rows whose counts it makes up, or shed; what was shed is, per cause and member, exactly what caps and the day horizon deleted, and all of it lies below the coverage floor |
| `DiagnosticAnswers.BucketsAreTrue` | packages/core/src/diagnostics.ts:702-710 | in every reachable state a bucket row's n, first and last are the number and true extremes of distinct written occurrences inside its interval |
| `DiagnosticAnswers.FloorNeverFalls` | packages/core/src/diagnostics.ts:722-726 | the coverage floor never falls over a run |
| `DiagnosticAnswers.WrittenFactRefuses` | packages/core/src/diagnostics.ts:729-743 | a refusal fact once written and not shed is still found by the refusal clause of a later query |
| `DiagnosticCoverage.ReachableAccounts` | packages/core/src/diagnostics.ts:853-891 | every state a fresh store can reach accounts for everything ever written: each occurrence is a live event, in exactly one bucket, or shed below the floor, and shed means deleted by a cap or the day horizon |
| `DiagnosticCoverage.FoldDetailAccounts` | packages/core/src/diagnostics.ts:1285-1306 | folding aged events into hour buckets sheds nothing |
| `DiagnosticCoverage.FoldHoursAccounts` | packages/core/src/diagnostics.ts:1308-1339 | folding aged hour buckets into day buckets sheds nothing |
| `DiagnosticCoverage.DropDaysAccounts` | packages/core/src/diagnostics.ts:1341-1365 | what the day horizon drops ends below the raised floor |
| `DiagnosticLedger.HourInDay` | packages/core/src/diagnostics.ts:1319-1330 | the two floor divisions are aligned, so an hour bucket's occurrences all fall inside the day it folds into |
| `DiagnosticSweep.TotalSweep` | packages/core/src/diagnostics.ts:1285-1365 | for every set of bucket keys, what the sweep leaves under it is what the table and the folded events held under its pre-image |
| `DiagnosticSweep.FoldConfluent` | packages/core/src/diagnostics.ts:1285-1366 | folding at t1 and then at t2 >= t1 leaves the events, bucket rows, unresolved rows and floor that folding at t2 leaves; t1 = t2 is idempotence |
| `DiagnosticSweep.SweepConfluent` | packages/core/src/diagnostics.ts:1275-1367 | the same for whole sweeps from any reachable state, when no cap is met on the way |
| `DiagnosticSweep.RunOk` | packages/core/src/diagnostics.ts:702-710 | in every reachable state bucket rows have distinct primary keys and intervals of their resolution's width |
| `DiagnosticHealth.CapsBound` | packages/core/src/diagnostics.ts:778-850 | one enforcement bounds every table; it leaves the bucket table one row over its cap if and only if unresolved state is evicted while no detail is, the table is exactly full and it holds no overflow row of this hour (with a cap of 0: if anything is left or evicted at all) |
| `DiagnosticHealth.OperationsBound` | packages/core/src/diagnostics.ts:853-891 | after every record and every sweep: events <= maxDetailRows, state <= maxStateRows, buckets <= maxBucketRows + 1, the extra row under exactly that condition on the tables before the caps |
| `DiagnosticHealth.BucketBoundIsTight` | packages/core/src/diagnostics.ts:832-849 | the extra bucket row is reachable from an empty store: the fact of an outage fills the table, and the next incident's state eviction writes its overflow fact after the bucket cap has run |
| `DiagnosticHealth.UnresolvedIsHistory` | packages/core/src/diagnostics.ts:688-694 | until a state-cap eviction, (cause, member) is unresolved iff an incident was recorded for it since its last recovery, `since` being the first such instant, whatever ran between |
| `DiagnosticHealth.EvictionLatches` | packages/core/src/diagnostics.ts:1370-1391 | health reads `unknown` for ever after a state eviction, and the latch has no other cause |
| `DiagnosticOutages.LatchIs` | packages/core/src/diagnostics.ts:1089-1124 | over any run of emitter calls, sweeps and other writes of a new store, the outage latch is set if and only if some call threw and no later call got through, that is, threw after the last outage fact that landed |
| `DiagnosticOutages.OutagesRecorded` | packages/core/src/diagnostics.ts:1092-1116 | over any run as many outage facts are written as the latch was cleared |
| `DiagnosticOutages.ClearingRecorded` | packages/core/src/diagnostics.ts:1092-1116 | and each clearing has left one, at the time of its call |
| `DiagnosticOutages.UnknownIff` | packages/core/src/diagnostics.ts:1370-1391 | health reads `unknown` if and only if a throw is unhealed or some enforcement of the run evicted unresolved state |
| `DiagnosticRecords.RecordWritesFor` | packages/core/src/diagnostics.ts:856-891 | a record writes one occurrence for each of its distinct members and for nobody else, all at its own time; with no member, or more than 256, one occurrence under nobody's name |
| `DiagnosticRecords.RefusalCounts` | packages/core/src/diagnostics.ts:879-889 | and with more than 256 it adds a refusal that counts them, in no other case |
| `DiagnosticRecords.RecordUnresolves` | packages/core/src/diagnostics.ts:876-886 | an incident leaves each of those members unresolved, from then if not before, and no other row is added, as long as no state is evicted |
| `DiagnosticRecords.RecoverResolves` | packages/core/src/diagnostics.ts:1131-1133 | a recovery clears the one incident of its cause and member, and touches nothing else |
| `DiagnosticRetention.SweepLands` | packages/core/src/diagnostics.ts:1285-1365 | where a sweep moves each row and each aged event, key by key: hours past their age join their day, days past theirs go, and each row left holds exactly what landed on it, its number, first and last |
| `DiagnosticRetention.SweepEvents` | packages/core/src/diagnostics.ts:1286-1306 | a sweep takes from the detail table exactly the events past the detail age |
| `DiagnosticRetention.SweepFloor` | packages/core/src/diagnostics.ts:1341-1365 | a sweep raises the floor past an instant if and only if some day it drops, or events it folds into such a day, end after it |
| `DiagnosticRetention.CapDetailIs` | packages/core/src/diagnostics.ts:783-798 | past its cap the detail table loses its oldest events down to the cap, and the floor passes the newest of them and no more |
| `DiagnosticRetention.CapBucketIs` | packages/core/src/diagnostics.ts:800-825 | past its cap the bucket table loses the rows that start earliest, down to one below the cap, and the floor rises to the last of their ends and no more |
| `DiagnosticRetention.CapStateIs` | packages/core/src/diagnostics.ts:832-849 | past its cap the state table loses the rows unresolved longest; health latches and the floor stays |
| `DiagnosticRetention.OverflowCounts` | packages/core/src/diagnostics.ts:751-769 | each such eviction counts one overflow, in the hour of the enforcement, and changes no other count |
| `DiagnosticRetention.FloorIsEarned` | packages/core/src/diagnostics.ts:722-726 | after any run of a new store the floor is where it began, or something that was written lies below it and within a day of it |
| `DiagnosticOutages.HealthIs` | packages/core/src/diagnostics.ts:1370-1391 | health over any run: unknown under an unhealed throw or after a state eviction, else degraded while the last overflow of the run is younger than the detail age, else healthy |
| `DiagnosticHealth.RecordIs` | packages/core/src/diagnostics.ts:853-891 | a record is its insert, its truncation fact if any, then the three caps, in that order |
| `DiagnosticHealth.SweepIs` | packages/core/src/diagnostics.ts:1275-1367 | a sweep is its one transaction, then the three caps |
| `DiagnosticStores.DiagnosticStore.RaiseFloorTo` | packages/core/src/diagnostics.ts:722-726 | the floor becomes the larger of the two |
| `DiagnosticStores.DiagnosticStore.FoldRow` | packages/core/src/diagnostics.ts:702-710 | the upsert merges into the row with the same key, keeping min and max, or inserts |
| `DiagnosticStores.DiagnosticStore.RecordFanoutTruncated` | packages/core/src/diagnostics.ts:729-743 | the refused size is added to this hour's fact row |
| `DiagnosticStores.DiagnosticStore.RecordOverflowFact` | packages/core/src/diagnostics.ts:751-769 | one overflow occurrence is folded straight into this hour's row |
| `DiagnosticStores.DiagnosticStore.EnforceDetailCap` | packages/core/src/diagnostics.ts:783-798 | evicts the oldest events over the cap, floor one past the newest evicted |
| `DiagnosticStores.DiagnosticStore.EnforceBucketCap` | packages/core/src/diagnostics.ts:800-825 | evicts the oldest buckets and one more, floor at their latest exclusive end |
| `DiagnosticStores.DiagnosticStore.EnforceStateCap` | packages/core/src/diagnostics.ts:832-849 | evicts the longest unresolved rows and latches |
| `Prelude.ArgMinIsLeftmostLeast` | packages/core/src/diagnostics.ts:783-798 | each eviction step takes a row with the least timestamp, the first inserted among equals |
| `DiagnosticStores.DiagnosticStore.InsertRows` | packages/core/src/diagnostics.ts:879-886 | the insert loop refines the specified batch insert and first-since upsert |
| `DiagnosticStores.DiagnosticStore.RecordDiagnostic` | packages/core/src/diagnostics.ts:853-891 | the method refines `Record`, so every whole-run result holds of it |
| `DiagnosticStores.DiagnosticStore.Resolve` | packages/core/src/diagnostics.ts:1131-1133 | clears exactly the (cause, member) row |
| `DiagnosticStores.DiagnosticStore.FoldAgedDetail` | packages/core/src/diagnostics.ts:1286-1306 | the row loop and the delete refine the one-step fold |
| `DiagnosticStores.DiagnosticStore.FoldAgedHours` | packages/core/src/diagnostics.ts:1308-1339 | the row loop and the delete refine the one-step fold |
| `DiagnosticStores.DiagnosticStore.DropAgedDays` | packages/core/src/diagnostics.ts:1341-1365 | drops aged days and raises the floor past them |
| `DiagnosticStores.DiagnosticStore.SweepTables` | packages/core/src/diagnostics.ts:1275-1367 | the method refines `Sweep` |
| `DiagnosticStores.DiagnosticStore.Perform` | packages/core/src/diagnostics.ts:853-891 | each atomic unit of the run model is one the class performs |
| `DiagnosticStores.DiagnosticStore.EmitSafely` | packages/core/src/diagnostics.ts:1089-1124 | a driver that throws at any unit leaves exactly the units before it applied and the latch set; the latch clears only when the outage fact has landed; so the call is one step of the outage runs |
| `DiagnosticStores.DiagnosticStore.QueryWindow` | packages/core/src/diagnostics.ts:1143-1261 | the query refines `Ask`, so every answer result above holds of it |
| `DiagnosticStores.DiagnosticStore.ReadHealth` | packages/core/src/diagnostics.ts:1370-1391 | reports the specified health, latch first |
| `CorrelatorPairing.ClaimTakesFirstOfModel` | apps/server/src/genai-correlator.ts:177-184 | searching by model takes the call that is first of its model and leaves the others in order |
| `CorrelatorPairing.OwnBodyIsNext` | apps/server/src/genai-correlator.ts:408-419 | per-model FIFO pairing: when, per model, calls claim in body order, every claim finds its own body at the head of its model's queue, under any interleaving of calls and models |
| `CorrelatorPairing.QueuesHold` | apps/server/src/genai-correlator.ts:393-419 | at every point each model's waiting bodies are exactly its bodies sent and not yet claimed, in order |
| `CorrelatorJoins.EveryBodyMeetsItsResponse` | apps/server/src/genai-correlator.ts:312-475 | for any interleaving of calls and any batching, of any length in time: while no drop is reported, what is emitted is exactly each completed call's own body joined to its own response, each raw exchange is assigned its own request id, and the FIFO holds exactly the unclaimed bodies |
| `CorrelatorJoins.InferencesAreCalls` | apps/server/src/genai-correlator.ts:312-352 | every emitted inference is one call's: its own body and response, and, with one record of each kind per call, the source and agent its accounting record named and its own time: the body's, or else that of the later of the two records, or else the clock's |
| `CorrelatorJoins.CallsAreInferences` | apps/server/src/genai-correlator.ts:454-465 | every completed call whose texts build is emitted, with those fields |
| `CorrelatorJoins.EmittedExactly` | apps/server/src/genai-correlator.ts:312-475 | as long as no drop is reported, an inference comes out of some batching if and only if it is the expected one of a completed call whose texts build, field by field |
| `CorrelatorJoins.IngestInOrder` | apps/server/src/genai-correlator.ts:485-486 | what one ingest returns is in time order |
| `CorrelatorRecords.ReachableKeys` | apps/server/src/genai-correlator.ts:410-412 | in every reachable state a synthetic key is new: its number is below the counter, and no key is there twice |
| `CorrelatorRecords.AccountingJoins` | apps/server/src/genai-correlator.ts:408-453 | what an accounting record does in any such state: the body it claims joins the exchange of its request id, the first source and agent named stay, the raw exchange is told the id, source and agent, and a complete exchange is emitted with its fields; a record without an id meets no other |
| `CorrelatorRecords.ResponseJoins` | apps/server/src/genai-correlator.ts:454-465 | likewise a response: it joins the exchange of its request id, or without an id one that nothing else reaches |
| `CorrelatorRecords.ErrorDrops` | apps/server/src/genai-correlator.ts:466-474 | an error record takes one waiting body, as a claim would, and whatever waits under its own non-empty request id, and nothing else |
| `CorrelatorRecords.BodyWaits` | apps/server/src/genai-correlator.ts:393-407 | a body joins the end of the queue; at the cap the oldest goes, counted |
| `CorrelatorRecords.ClaimIs` | apps/server/src/genai-correlator.ts:177-184 | a claim takes the oldest body of the record's model, or the oldest of all if none is of it |
| `CorrelatorBatches.BatchOrder` | apps/server/src/genai-correlator.ts:381-387 | a batch is taken in order of event sequence, records without one last; then by time; then as it arrived |
| `CorrelatorBatches.ShuffledAsSent` | apps/server/src/genai-correlator.ts:381-386 | numbered records are processed as they were sent, however each batch was shuffled on the way |
| `CorrelatorBatches.BatchSplitInvariant` | apps/server/src/genai-correlator.ts:381-487 | from any state, if everything held and everything in the (seq, ts)-ordered stream lies within ttlMs of the newest timestamp, any two ways of cutting it into batches emit the same multiset of inferences and end in the same FIFO, pending map and counters |
| `CorrelatorBatches.QuietCutsAgree` | apps/server/src/genai-correlator.ts:381-487 | from any state and over any length of time, any two cuts of a stream processed in the same order that report no drop emit the same multiset of inferences and end in the same state |
| `CorrelatorBatches.OrderedAsSent` | apps/server/src/genai-correlator.ts:381-392 | a stream cut into batches that are each in (seq, ts) order is processed as it was sent |
| `CorrelatorBatches.IngestAllKeeps` | apps/server/src/genai-correlator.ts:354-379 | the reported count never falls, and batches that report no drop do what their records do with no eviction between them |
| `CorrelatorBatches.QuietEviction` | apps/server/src/genai-correlator.ts:354-379 | an eviction that reports nothing changes nothing |
| `CorrelatorBatches.EvictFresh` | apps/server/src/genai-correlator.ts:354-379 | evicting when nothing is stale or over the cap changes nothing |
| `CorrelatorBatches.OneBatchKeeps` | apps/server/src/genai-correlator.ts:381-487 | beyond the TTL the split does matter: in one batch a claim finds its own body |
| `CorrelatorBatches.TwoBatchesDrop` | apps/server/src/genai-correlator.ts:354-379 | ... and cut before the claim, the first batch evicts and reports that body |
| `CorrelatorLinear.LinearUse` | apps/server/src/genai-correlator.ts:312-475 | over any run of batches and sweeps every captured body is in the FIFO, the pending map, the output or the losses, together exactly as often as it was captured; each loss carries its cause (cap trim, stale FIFO entry, stale exchange, overwritten claim, missing text, unbuildable pair, error claim, error delete), and the total counted as dropped is exactly the losses by cap and TTL |
| `CorrelatorLosses.UncountedLossIff` | apps/server/src/genai-correlator.ts:312-474 | a record leaves some body in fewer places without counting it as dropped if and only if it claims a body for an id that already holds one, completes an exchange that lacks a text or whose two texts do not parse or build (which another diagnostic reports), or is an error that discards a waiting or held body |
| `CorrelatorLosses.EvictionCounts` | apps/server/src/genai-correlator.ts:354-379 | an eviction that gives up a body counts it as dropped |
| `CorrelatorLosses.OverwriteReachable` | apps/server/src/genai-correlator.ts:412-419 | a second accounting record with the same request id overwrites the first claimed body: from an empty correlator it ends up neither held nor emitted, with nothing counted as dropped |
| `CorrelatorLosses.DropMispairs` | apps/server/src/genai-correlator.ts:177-184 | correct pairing does need the no-drop condition: after a cap drop the fallback claim joins one call's response to another call's body, even of another model |
| `CorrelatorLinear.RunBounds` | apps/server/src/genai-correlator.ts:399-405 | after every run the FIFO is within maxPending |
| `CorrelatorLinear.StepBounds` | apps/server/src/genai-correlator.ts:399-405 | between records the FIFO never exceeds its cap, and each cap drop is reported one for one |
| `CorrelatorLinear.EvictionReported` | apps/server/src/genai-correlator.ts:354-379 | an eviction reports exactly the entries it removed: the stale prefix of the FIFO and every pending exchange whose two times are both stale |
| `GenAiCorrelators.GenAiCorrelator.ClaimRequest` | apps/server/src/genai-correlator.ts:177-184 | removes and returns the oldest body of the model, else the oldest |
| `GenAiCorrelators.GenAiCorrelator.TryEmit` | apps/server/src/genai-correlator.ts:312-352 | a complete exchange leaves the map and is emitted once; an incomplete one stays |
| `GenAiCorrelators.GenAiCorrelator.DrainFifo` | apps/server/src/genai-correlator.ts:357-361 | drops exactly the stale prefix |
| `GenAiCorrelators.GenAiCorrelator.ShiftOverflow` | apps/server/src/genai-correlator.ts:363-366 | drops exactly the oldest overflow |
| `GenAiCorrelators.GenAiCorrelator.DropStalePending` | apps/server/src/genai-correlator.ts:368-374 | drops exactly the stale exchanges |
| `GenAiCorrelators.GenAiCorrelator.Evict` | apps/server/src/genai-correlator.ts:354-379 | refines the specified eviction with its gap count |
| `GenAiCorrelators.GenAiCorrelator.TakeRequestBody` | apps/server/src/genai-correlator.ts:393-407 | appends, and trims to the cap with every drop counted |
| `GenAiCorrelators.GenAiCorrelator.TakeAccounting` | apps/server/src/genai-correlator.ts:408-453 | claims, bridges the id and settles, as specified |
| `GenAiCorrelators.GenAiCorrelator.TakeResponse` | apps/server/src/genai-correlator.ts:454-465 | joins the response under its key and settles |
| `GenAiCorrelators.GenAiCorrelator.TakeError` | apps/server/src/genai-correlator.ts:466-474 | discards the matching body and the pending entry |
| `GenAiCorrelators.GenAiCorrelator.TakeRecord` | apps/server/src/genai-correlator.ts:387-482 | one record is one specified step |
| `GenAiCorrelators.GenAiCorrelator.IngestRecords` | apps/server/src/genai-correlator.ts:381-487 | the loop refines the specified ingest, so every run result above holds of the object |
| `BoundedParallel.HandedInOrder` | packages/core/src/broker.ts:208-225 | in every interleaving the worker receives items 0, 1, 2, ... each once, in order |
| `BoundedParallel.EachItemOnce` | packages/core/src/broker.ts:188-227 | a handed item is in flight on one runner, returned once, or reported to `onError` once: exactly one of the three |
| `BoundedParallel.OutcomesAre` | packages/core/src/broker.ts:195-221 | over every run an item is reported to `onError`, once, if and only if the worker that held it settled by throwing, and counted as done, once, if and only if it returned |
| `BoundedParallel.InFlightBounded` | packages/core/src/broker.ts:195-211 | at most max(1, floor(concurrency)) items are in flight, for every concurrency: infinite ones give one runner an item or a single runner, and NaN none |
| `BoundedParallel.InFlightReached` | packages/core/src/broker.ts:195-211 | and some run reaches that many |
| `BoundedParallel.DoneMeansAll` | packages/core/src/broker.ts:188-227 | when all runners have finished every item is done or reported, if and only if the concurrency is not NaN (with items to do): a NaN starts no runner and resolves at once |
| `BoundedParallel.NeverStuck` | packages/core/src/broker.ts:217-221 | until all runners are done some runner can step: a failing item does not stop the others |
| `BoundedParallel.RunsTerminate` | packages/core/src/broker.ts:213-224 | every step decreases a measure, so every run ends |
| `Paging.Refill` | packages/core/src/member-activity.ts:247-300 | the refill loop returns exactly the first `limit` decodable matching rows strictly past the cursor, in page order, and terminates because the cursor strictly advances |
| `Paging.AdvanceCursor` | packages/core/src/member-activity.ts:290-296 | moving the cursor to the k-th raw row leaves exactly the rows after it |
| `Paging.StrictUnique` | packages/core/src/member-activity.ts:263-267 | two strictly ordered listings of the same rows are the same listing, for either order |
| `Paging.ShortPageIsExhaustion` | packages/core/src/member-activity.ts:235-246 | a short page means no decodable row remains |
| `Paging.PagesEnumerate` | packages/core/src/genai-store.ts:225-289 | following the cursor of the last row returned enumerates every decodable matching row exactly once, in order |
| `Paging.ClampIsUsable` | packages/core/src/activity-store.ts:309-318 | a clamped limit lies in [0, max] and is at least 1 if and only if the raw limit is not a fraction in (0, 1) |
| `Paging.LimitIs` | packages/core/src/activity-store.ts:309-318 | a usable limit is rounded down and capped, any other becomes the default, or half the cap without one |
| `Paging.PageIs` | packages/core/src/member-activity.ts:247-300 | a page holds due rows only, in page order and within its limit, and one it leaves out comes after every row of a full page |
| `ActivityStores.MemAppendInv` | packages/core/src/activity-store.ts:154-218 | after every append the in-memory dedup set is exactly the source ids of the stored rows, with no id twice |
| `ActivityStores.AppendTwins` | packages/core/src/member-activity.ts:175-232 | twin states admit the same events of any batch and stay twins |
| `ActivityStores.PruneTwins` | packages/core/src/member-activity.ts:324-328 | a prune of both keeps them twins, ids released on the one side as index entries go on the other |
| `ActivityStores.StepTwins` | packages/core/src/activity-store.ts:154-285 | one append or prune gets the same reply from both stores |
| `ActivityStores.RunTwins` | packages/core/src/activity-store.ts:154-285 | every run of appends and prunes gets the same replies from both and leaves the same rows per member, up to ids and creation times |
| `ActivityStores.RunsAgree` | packages/core/src/activity-store.ts:136-285 | from empty stores, over any run of appends and prunes, both stores give the same replies and hold the same events for every member |
| `ActivityStores.AppendIdempotent` | packages/core/src/activity-store.ts:157-179 | replaying a batch whose events all carry source ids adds nothing, after any run of appends and prunes in between, as long as no prune of the run reaches a stored event that holds one of the batch's ids |
| `ActivityStores.SqlAppendIdempotent` | packages/core/src/member-activity.ts:160-232 | the same of the SQLite store, whose reply to the replay is that nothing landed |
| `ActivityStores.ReplayAddsNothingIff` | packages/core/src/activity-store.ts:165-179 | a batch adds nothing if and only if each of its events has a source id already known |
| `ActivityStores.ReleasedIds` | packages/core/src/activity-store.ts:266-275 | releasing the pruned rows' ids leaves exactly the kept rows' ids, because no id is stored twice |
| `ActivityStores.MemPruneBucket` | packages/core/src/activity-store.ts:261-285 | a prune leaves each member its rows at or after the cutoff and the dedup set of exactly those rows |
| `ActivityStores.ConflictIsKnown` | packages/core/src/member-activity.ts:160-164 | the unique-index conflict is the in-memory membership test |
| `ActivityStores.TwinsSameSize` | packages/core/src/activity-store.ts:261-285 | twin stores hold the same number of rows, so prune counts agree |
| `ActivityRows.AdmittedAre` | packages/core/src/activity-store.ts:165-179 | an event of a batch lands if and only if it has no source id, or one neither known nor carried by an earlier event of the batch; those that land keep their order |
| `ActivityRows.MemAppendIs` | packages/core/src/activity-store.ts:181-218 | an append puts one row for each event that lands at the end of its member's rows, and takes one id for each |
| `ActivityRows.SqlAppendIs` | packages/core/src/member-activity.ts:175-232 | and the SQLite table gains the same rows, likewise numbered |
| `ActivityRows.MadeRowsAre` | packages/core/src/activity-store.ts:190-204 | those rows are numbered upward from the next id and carry the member, the event and the time of the append |
| `ActivityRows.PruneIs` | packages/core/src/activity-store.ts:261-285 | a prune takes exactly the rows older than the cutoff, from either store, and gives no id back |
| `ActivityRows.IdsNeverReused` | packages/core/src/activity-store.ts:136-285 | over any run ids rise along every member's rows and no two rows share one, pruned rows included |
| `InMemoryActivityStores.InMemoryActivityStore.Append` | packages/core/src/activity-store.ts:154-218 | the new state and the returned rows are those specified: suppressed duplicates take no id |
| `InMemoryActivityStores.InMemoryActivityStore.ScanBatch` | packages/core/src/activity-store.ts:165-179 | the scan admits each source id once and never one already known |
| `InMemoryActivityStores.InMemoryActivityStore.List` | packages/core/src/activity-store.ts:220-246 | returns the matching rows last appended first, cut at the limit, but at least one row if one matches |
| `InMemoryActivityStores.PageSizeIs` | packages/core/src/activity-store.ts:225-226 | at most as many rows as the limit asks for: rounded down and capped, one for a fraction, half the cap where it is unusable |
| `InMemoryActivityStores.ListIs` | packages/core/src/activity-store.ts:220-246 | those rows are the ones in the window, of the kinds and before the cursor asked for, each once, and any row passed over was appended before all of them |
| `InMemoryActivityStores.InMemoryActivityStore.Prune` | packages/core/src/activity-store.ts:261-285 | the two loops leave exactly the specified buckets and index, and count the rows removed |
| `InMemoryActivityStores.InMemoryActivityStore.PruneBucket` | packages/core/src/activity-store.ts:264-276 | one bucket splits into kept rows and released ids |
| `Prelude.WalkBack` | packages/core/src/activity-store.ts:227-245 | the newest-first walk returns the first matches up to the limit, and one match even for a limit of 0 |
| `SqliteActivityStores.SqliteActivityStore.Append` | packages/core/src/member-activity.ts:175-232 | the insert loop leaves the specified table and returns exactly the rows it appended |
| `SqliteActivityStores.SqliteActivityStore.Prune` | packages/core/src/member-activity.ts:324-328 | leaves the rows at or after the cutoff; the count is the size difference |
| `SqliteActivityStores.SqliteActivityStore.List` | packages/core/src/member-activity.ts:247-300 | the first `limit` decodable matching rows past the cursor, newest first |
| `SqliteActivityStores.ListIs` | packages/core/src/member-activity.ts:247-300 | that page is the latest wanted rows, latest first by (ts, id): of the member, in the window, of the kinds, before the cursor and decodable, none passed over |
| `SqliteActivityStores.OpenCursorReads` | packages/core/src/member-activity.ts:269-274 | without a cursor every matching row is read if and only if it lies before the largest-safe-integer sentinel |
| `SqliteActivityStores.ListsAgree` | packages/core/src/activity-store.ts:227-245 | for rows appended in (ts, id) order that all decode and lie before the sentinel, the in-memory backward walk and the SQLite listing give the same page at every length |
| `GenAiStores.GenAiStore.Append` | packages/core/src/genai-store.ts:175-217 | an unserializable record is skipped; otherwise one row is added with the given or the clock's time |
| `GenAiStores.GenAiStore.List` | packages/core/src/genai-store.ts:237-289 | the first `limit` decodable matching rows past the cursor, oldest first |
| `GenAiStores.ListIs` | packages/core/src/genai-store.ts:237-289 | that page is the earliest wanted rows, earliest first by (ts, id): of the member and model, in the window, after the cursor and decodable, none passed over |
| `GenAiStores.OpenCursorReads` | packages/core/src/genai-store.ts:262-265 | without a cursor every matching row is read if and only if it lies after the least-safe-integer sentinel |
| `GenAiStores.PagingEnumerates` | packages/core/src/genai-store.ts:225-289 | paging the store enumerates every decodable matching row exactly once |
| `EventFeed.InMemoryEventLog.Append` | packages/core/src/event-log.ts:224-229 | the log grows by exactly this message and audience |
| `EventFeed.InMemoryEventLog.Query` | packages/core/src/event-log.ts:238-256 | the matching messages newest first, cut at the page size |
| `EventFeed.FeedPageSize` | packages/core/src/event-log.ts:172-176 | a page holds between 1 and 1000 rows, and a limit in [1, 1000] is rounded down |
| `EventFeed.QueryIs` | packages/core/src/event-log.ts:238-256 | each message returned is asked for, last logged first, each once, and any passed over was logged before all of them |
| `EventFeed.AskedIs` | packages/core/src/event-log.ts:247-252 | what a query asks for: before its cursor, of its channel, or else what passed between the two ends it names, or else the viewer's feed |
| `EventFeed.FeedRules` | packages/core/src/event-log.ts:181-209 | the four rules of the feed: no secrets; an address reaches its ends only; an audience reaches itself and the sender; and what has neither reaches everyone unless it looks scoped |
| `EventFeed.ScopedTagIs` | packages/core/src/event-log.ts:95-108 | a tag looks scoped if it starts like a secret, objective, tool, variable or hook thread, or is another channel's than general's |
| `EventFeed.LooksScopedIs` | packages/core/src/event-log.ts:110-126 | a message looks scoped by that tag or by one of two kinds |
| `EventFeed.DirectViewIs` | packages/core/src/event-log.ts:303-317 | the direct view is exactly what passed between the two members, in either direction, the same from either end |
| `EventFeed.ChannelViewIs` | packages/core/src/event-log.ts:288-301 | a channel's view is exactly the messages tagged with it, and for general also untagged broadcasts |
| `EventFeed.PageSizeIs` | packages/core/src/event-log.ts:172-176 | an absent or useless limit means 100, a fraction one row, any other is rounded down and capped at 1000 |
| `EventFeed.NarrowedWithinFeed` | packages/core/src/event-log.ts:303-319 | the direct-message view shows nothing the default feed hides, secrets aside |
| `EventFeed.OneChannelPerMessage` | packages/core/src/event-log.ts:288-301 | channel views do not overlap: a message is in at most one |
| `Brokers.Broker.Push` | packages/core/src/broker.ts:310-371 | a refused push leaves the log alone; an accepted one is logged with its audience and fans out to exactly the specified registered members |
| `Brokers.PushIs` | packages/core/src/broker.ts:310-371 | when a push is refused and why; whom an accepted one reaches live, the audience its row records and the targets it counts, name by name |
| `Brokers.Broker.Register` | packages/core/src/broker.ts:274-284 | the registry gains the name |
| `Brokers.FeedAgrees` | packages/core/src/broker.ts:310-371 | for a registered viewer and any push, being in the live fan-out and being shown by the durable feed are equivalent if and only if the push is in none of three cases spelled out in its addressing: a secret event meant for the viewer, an unlisted broadcast with a scoped tag or kind not sent by the viewer, or an empty sender name read by the empty viewer |
| `Brokers.EachCaseOccurs` | packages/core/src/broker.ts:310-371 | each of the three cases occurs, at a concrete push |
| `Brokers.FeedIsShown` | packages/core/src/event-log.ts:198-256 | over any run, the unnarrowed feed is the accepted pushes that reached the viewer live, corrected by exactly those three cases, newest first up to the limit |
| `Brokers.FeedIsFanout` | packages/core/src/broker.ts:334-371 | over any run with no differing push, the feed is exactly the live deliveries |
| `BlobRetention.ActivityDb.AppendBody` | apps/server/src/raw-body-store.ts:184-207 | the blob is stored once per hash and one exchange is added |
| `BlobRetention.ActivityDb.AssignRequestId` | apps/server/src/raw-body-store.ts:209-219 | fills empty fields of the one exchange |
| `BlobRetention.ActivityDb.ReadBlob` | apps/server/src/raw-body-store.ts:221-244 | never returns bytes that do not hash to the key |
| `BlobRetention.ActivityDb.PruneActivityDb` | packages/core/src/activity-retention.ts:111-149 | leaves the specified tables, and every reported count is the real size difference, the total included |
| `BlobRetention.ActivityDb.SweepOrphans` | packages/core/src/activity-retention.ts:119-138 | deletes exactly the unreferenced blobs, with a clause only for a referrer table that exists |
| `BlobRetention.NoOrphans` | packages/core/src/activity-retention.ts:85-138 | after a prune a blob survives iff a retained row refers to it, when a referrer table exists; with none the sweep does not run. The exchanges retained are exactly those at or after the cutoff and those with no event time |
| `BlobRetention.PruneTwice` | packages/core/src/activity-retention.ts:111-149 | a prune at c1 then at c2 is one prune at max(c1, c2) |
| `BlobRetention.StepInv` | apps/server/src/raw-body-store.ts:184-244 | every append, assignment, foreign insert and prune keeps every retained exchange's blob and every blob's content address |
| `BlobRetention.RetainedBodiesReadBack` | apps/server/src/raw-body-store.ts:221-244 | over any interleaving a retained exchange's body reads back: bytes hashing to its key, and with a collision-free hash the very bytes captured |
| `BlobRetention.InferenceKeepsBlob` | packages/core/src/activity-retention.ts:128-133 | a blob a retained inference refers to survives the prune |
| `BlobRetention.RunFillsOnce` | apps/server/src/raw-body-store.ts:173-180 | over any run a filled request id, query source or agent name never changes, and no other column does |
| `BlobRetention.AssignFills` | apps/server/src/raw-body-store.ts:209-219 | an assignment fills exactly the empty fields of the one exchange with what the patch has, and leaves filled ones and all others |
| `BlobRetention.CaptureIs` | apps/server/src/raw-body-store.ts:184-207 | a capture adds one exchange that says who sent what and how long; blobs that were there stay, and new content reads back |
| `BlobRetention.AgedRowsGo` | packages/core/src/activity-retention.ts:85-118 | a prune takes exactly the rows older than the cutoff from each of the four tables that is there |
| `BlobRetention.ReadIs` | apps/server/src/raw-body-store.ts:221-244 | a read serves a blob if and only if it is there, decompresses and hashes to its key |
| `ChannelAudit.AuditReplays` | packages/core/src/channels.ts:490-498 | in every reachable state, folding a channel's audit entries from the start gives exactly its slug, description, archive time and member map (role and join time); an id never created has no log and no members |
| `ChannelAudit.StepInv` | packages/core/src/channels.ts:333-468 | every operation keeps replay for every channel and the table invariants, and a failed one changes no table |
| `ChannelAudit.OneActivePerSlug` | packages/core/src/channels.ts:123-127 | at most one active channel holds a slug in every reachable state, and only general holds general's |
| `ChannelAudit.OthersKept` | packages/core/src/channels.ts:333-468 | an operation on one channel touches no other channel's row, members or log |
| `ChannelAudit.GeneralKept` | packages/core/src/channels.ts:301-311 | no run changes general's row or gives it members or a log |
| `ChannelAudit.PatternIsGrammar` | packages/core/src/channels.ts:150-166 | the slug pattern accepts exactly the documented grammar: letters, digits and dashes, none at either end, no two together |
| `ChannelAudit.DuplicateRefused` | packages/core/src/channels.ts:333-361 | a second active channel with a slug is always refused, as `slug_taken` if and only if the first row with that slug is the active one; otherwise by the index's raw error |
| `ChannelAudit.DuplicateRenameRefused` | packages/core/src/channels.ts:367-403 | the same of an update: renaming onto a slug another active channel holds is always refused, as `slug_taken` if and only if the first row with that slug is the active one |
| `ChannelAudit.ArchivedRowHidesDuplicate` | packages/core/src/channels.ts:352-359 | the second case is reachable: create, archive, create again, and the next create gets the raw error |
| `ChannelAudit.ArchivedRowHidesRename` | packages/core/src/channels.ts:385-395 | and so is a rename: with one more channel, renaming it onto the slug gets the raw error |
| `ChannelAudit.ReAddIsLogged` | packages/core/src/channels.ts:425-454 | adding a present member changes the store unless the channel is general, missing or archived: it is logged and the join time is reset |
| `ChannelAudit.ReAddOccurs` | packages/core/src/channels.ts:425-454 | it occurs: re-adding a present member moves the join time and adds a log entry |
| `ChannelAudit.RecipientsAreMembers` | packages/core/src/channels.ts:500-516 | fan-out list, membership test and role agree for every name; general is everyone |
| `ChannelAudit.RecipientsInOrder` | packages/core/src/channels.ts:282-287 | members are listed admins first, then by join time |
| `ChannelAudit.ListedWhereMember` | packages/core/src/channels.ts:264-274 | a member's list holds exactly the active channels that count the member in |
| `ChannelAudit.ListedNewestFirst` | packages/core/src/channels.ts:265-274 | that list is newest first |
| `ChannelOutcomes.CreateIs` | packages/core/src/channels.ts:333-361 | which error a create gets, over the rows, and otherwise its row, its creator as a member and one entry, every other row as it was |
| `ChannelOutcomes.UpdateIs` | packages/core/src/channels.ts:367-403 | the same of an update: an archived channel refuses it, nothing to change changes nothing, and one entry is logged for each field that does change |
| `ChannelOutcomes.ArchiveIs` | packages/core/src/channels.ts:405-417 | the same of an archive |
| `ChannelOutcomes.AddMemberIs` | packages/core/src/channels.ts:425-454 | the same of adding a member |
| `ChannelOutcomes.RemoveMemberIs` | packages/core/src/channels.ts:456-468 | the same of removing one |
| `ChannelStores.ChannelStore.CreateChannel` | packages/core/src/channels.ts:333-361 | reply and all three tables as specified, with the source's error order |
| `ChannelStores.ChannelStore.UpdateChannel` | packages/core/src/channels.ts:367-403 | reply and tables as specified: one audit entry per changed field |
| `ChannelStores.ChannelStore.ArchiveChannel` | packages/core/src/channels.ts:405-417 | archives once; a second archive changes nothing |
| `ChannelStores.ChannelStore.AddChannelMember` | packages/core/src/channels.ts:425-454 | re-seats the member and logs an addition or a role change |
| `ChannelStores.ChannelStore.RemoveChannelMember` | packages/core/src/channels.ts:456-468 | removes the one row and logs it |
| `EnrollmentFlow.RowAlone` | packages/core/src/enrollments.ts:336-363 | whatever the store does, one device code's row evolves by a rule that looks at that row alone |
| `EnrollmentFlow.PollsFormTrace` | packages/core/src/enrollments.ts:482-528 | over any run that does not draw the same device code again, the polls of a code answer (pending | slow_down)* ((approved | denied)? | threw*) expired*, so the token is delivered at most once, and one that cannot be decrypted never |
| `EnrollmentFlow.ReadableNeverThrows` | packages/core/src/enrollments.ts:499-519 | no poll throws while no approved token carries the cipher's prefix |
| `EnrollmentFlow.MintedCodeTrace` | packages/core/src/enrollments.ts:378-528 | the same two for a code minted after any earlier run of a new store |
| `EnrollmentFlow.TokenIsFirstApproval` | packages/core/src/enrollments.ts:447-528 | a token is delivered only if the first decision on the user code was an approval, it is that approval's token, id and member, never after expiry; a denial answers only a rejection that came first |
| `EnrollmentFlow.SealRoundTrip` | packages/core/src/enrollments.ts:447-451 | reading back the stored token gives the plaintext, except that with a cipher a plaintext already carrying the wrapper's prefix is decrypted as it stands |
| `EnrollmentFlow.NextPollDelivers` | packages/core/src/enrollments.ts:499-519 | after a winning approval the next poll before expiry delivers the plaintext and consumes the row |
| `EnrollmentFlow.SlowDownIs` | packages/core/src/enrollments.ts:521-527 | a pending code's first poll is never told to slow down; a later one is exactly when it comes less than 2.5 s after the one before |
| `EnrollmentFlow.DecisionIgnoresExpiry` | packages/core/src/enrollments.ts:336-345 | a decision succeeds if and only if a pending row holds the code; it still succeeds on a row that a lookup calls expired, exactly when that row's time is over |
| `EnrollmentFlow.ExpiredDecisionOccurs` | packages/core/src/enrollments.ts:336-345 | it occurs: a reachable row that a lookup calls expired is still approved |
| `EnrollmentFlow.OneDecision` | packages/core/src/enrollments.ts:336-352 | a decision changes at most one row |
| `EnrollmentFlow.MintIs` | packages/core/src/enrollments.ts:378-416 | minting succeeds iff one of five draws is free of both collisions, and leaves exactly that row pending for five minutes |
| `EnrollmentFlow.StepInv` | packages/core/src/enrollments.ts:322-366 | every operation keeps user codes unique and approved rows complete |
| `EnrollmentFlow.CodeRoundTrip` | packages/core/src/enrollments.ts:253-266 | the displayed form of a canonical code normalizes back to it |
| `EnrollmentFlow.GeneratedIsCanonical` | packages/core/src/enrollments.ts:268-286 | every generated code is canonical |
| `EnrollmentFlow.LookupIs` | packages/core/src/enrollments.ts:422-435 | a lookup describes the one row with the code, expired first and then by its decision, and is missing if and only if there is none |
| `EnrollmentRows.MintTakesFirstFree` | packages/core/src/enrollments.ts:378-416 | a mint takes the first of at most five draws whose codes are both free, as a row with every field said; with none it changes nothing |
| `EnrollmentRows.ApprovalIs` | packages/core/src/enrollments.ts:447-460 | an approval sets status, actor, member, token id and sealed token of the pending row with the code, and nothing else of it |
| `EnrollmentRows.RejectionIs` | packages/core/src/enrollments.ts:466-469 | a rejection sets status, actor and reason, and nothing else |
| `EnrollmentRows.OthersUndecided` | packages/core/src/enrollments.ts:336-352 | rows with another code or already decided are left as they are |
| `EnrollmentRows.RejectionIsTold` | packages/core/src/enrollments.ts:491-497 | the first timely poll after a rejection is told the reason given then, and takes the row away |
| `EnrollmentRows.PurgeIs` | packages/core/src/enrollments.ts:544-547 | a purge removes exactly the rows whose time is over |
| `EnrollmentRows.DisplayedIs` | packages/core/src/enrollments.ts:262-266 | a code is displayed as two groups of four, anything else as it is |
| `EnrollmentRows.TypedIs` | packages/core/src/enrollments.ts:253-260 | a typed code is read without blanks and dashes, in upper case, and only as eight symbols of the alphabet |
| `EnrollmentRows.SymbolsEven` | packages/core/src/enrollments.ts:268-286 | two random bytes give the same symbol if and only if they agree modulo 32, so every symbol is equally likely |
| `EnrollmentStores.EnrollmentStore.MintCode` | packages/core/src/enrollments.ts:378-416 | the retry loop takes the first free draw, or changes nothing |
| `EnrollmentStores.EnrollmentStore.LookupByUserCode` | packages/core/src/enrollments.ts:422-435 | the specified lookup outcome, expiry before status |
| `EnrollmentStores.EnrollmentStore.ApproveCode` | packages/core/src/enrollments.ts:447-460 | updates the pending row with the code; true iff one was there |
| `EnrollmentStores.EnrollmentStore.RejectCode` | packages/core/src/enrollments.ts:466-469 | updates the pending row with the code; true iff one was there |
| `EnrollmentStores.EnrollmentStore.PollByDeviceCode` | packages/core/src/enrollments.ts:482-528 | the specified answer, consuming the row on every final one |
| `EnrollmentStores.EnrollmentStore.PurgeExpired` | packages/core/src/enrollments.ts:544-547 | removes exactly the expired rows and counts them |
| `MintLimiter.Limiter.CheckMintLimit` | packages/core/src/app.ts:5940-5955 | the verdict and the new bucket, other sources' buckets untouched |
| `MintLimiter.VerdictIs` | packages/core/src/app.ts:5940-5955 | a mint passes if and only if its source has no bucket, its hour is over or fewer than ten are counted; every attempt counts, and only a new window moves the start |
| `MintLimiter.RateBound` | packages/core/src/app.ts:5903-5955 | with a clock that never goes back, no half-open interval of one window's length holds more than 19 accepted mints of a source |
| `MintLimiter.RateBoundIsTight` | packages/core/src/app.ts:5903-5955 | 19 is reached: one mint, nine just before its window ends, ten just after |
| `MintLimiter.RateFromBucket` | packages/core/src/app.ts:5903-5955 | from any bucket left by earlier requests, an interval of one window's length accepts at most 10 mints and what a still running window has left: the limit slides exactly from an absent, lapsed or used-up bucket |
| `MintLimiter.RateFromBucketReached` | packages/core/src/app.ts:5903-5955 | and from every such bucket that maximum is reached |
| `MintLimiter.RetryAfterIsExact` | packages/core/src/app.ts:5948-5953 | waiting the reported seconds is enough, and waiting a second less never is |
| `TotpLockout.RunBounded` | packages/core/src/app.ts:913-977 | whatever the clock readings, after any run of sign-ins no bucket's failures exceed its key's maximum and the map holds at most MAX_BUCKETS + 1 entries |
| `TotpLockout.LoginBounded` | packages/core/src/app.ts:1148-1230 | one sign-in keeps both bounds, because the handler checks each bucket before it records a failure in it |
| `TotpLockout.CheckGivesRoom` | packages/core/src/app.ts:921-937 | an open check leaves room for one more failure, at any later reading of the clock |
| `TotpLockout.CapPlusOne` | packages/core/src/app.ts:953-977 | recording a failure leaves the map over its cap if and only if the running bucket is in a map already over it, or a new window opens among as many live buckets as the cap: from a map within the cap, when it is full of live buckets and the key is new |
| `TotpLockout.CapPlusOneReached` | packages/core/src/app.ts:1148-1230 | the extra entry is reached from an empty map by one wrong code for each of MAX_BUCKETS + 1 well-formed names |
| `TotpLockout.RefusalRecordsNothing` | packages/core/src/app.ts:1160-1188 | a refused attempt adds no failure to any bucket |
| `TotpLockout.TargetedIsolated` | packages/core/src/app.ts:1148-1230 | short of a full map a targeted sign-in changes no other key's bucket |
| `TotpSources.SourceSpendsAtMost` | packages/core/src/app.ts:1141-1230 | over any run inside one window's length, a source costs the shared codeless bucket at most nine failures, and at most five if it came without a bucket, as long as no success clears its bucket and the map stays short of full |
| `TotpSources.FiveReached` | packages/core/src/app.ts:1141-1230 | five are spent by a run from an empty map |
| `TotpSources.NineReached` | packages/core/src/app.ts:1141-1230 | nine are spent by a run whose first failure comes just before the interval |
| `TotpSources.SharedBucketChargedIff` | packages/core/src/app.ts:1141-1230 | a wrong code is charged to the shared bucket if and only if the sign-in is codeless or names the shared key itself, which is a well-formed member name: that one spelling spends it without a source's bucket |
| `TotpLockout.SuccessClears` | packages/core/src/app.ts:1222-1230 | a success leaves no bucket that stood in its way, nor the member's own |
| `TotpVerdicts.LoginVerdict` | packages/core/src/app.ts:1148-1230 | a full running bucket in the way refuses, whatever the code, and for exactly the seconds it says: the source's first if codeless, then the sign-in's own; otherwise the code alone decides |
| `TotpVerdicts.SignsInIff` | packages/core/src/app.ts:1164-1230 | a sign-in succeeds if and only if the code matches and no bucket in its way is full |
| `TotpVerdicts.LoginEffect` | packages/core/src/app.ts:1190-1230 | every bucket after a sign-in, short of a full map: one more failure, removed, or as before |
| `TotpVerdicts.RecordIs` | packages/core/src/app.ts:968-977 | a failure counts in its own bucket, and only where it opens one in a full map are others pruned |
| `TotpLockout.PruneIs` | packages/core/src/app.ts:953-966 | a prune drops every lapsed bucket, and of the others only as many as exceed the cap, oldest first |
| `TotpLockout.LoginGuard.CheckTotpLockout` | packages/core/src/app.ts:921-937 | reply and map as specified; an elapsed bucket is removed |
| `TotpLockout.LoginGuard.PruneTotpLockouts` | packages/core/src/app.ts:953-966 | drops elapsed buckets, then the oldest over the cap |
| `TotpLockout.LoginGuard.SweepExpired` | packages/core/src/app.ts:954-956 | leaves exactly the live buckets, in order |
| `TotpLockout.LoginGuard.RecordTotpFailure` | packages/core/src/app.ts:968-977 | one more failure, or a fresh bucket after making room |
| `TotpLockout.LoginGuard.Login` | packages/core/src/app.ts:1148-1230 | the handler refines the specified sign-in: source bucket first, then the other, then record or clear |

## Left out

- Diagnostics: field sanitising and attribution labels, the per-site emitter methods, `membersForHash`, schema migration, the write-only counters `overflow_count` and `fanout_truncated_last`, and clearing retired causes when a database is reopened. The clock is read once per operation, and rows that tie in a cap eviction are taken in rowid order by both statements. The source does not enforce the caps after writing the `retention.unavailable` fact, so that fact may add one more bucket row until the next record or sweep; the bounds are stated after those.
- GenAI correlator: reading and unlinking body files, raw capture and its failures, JSON parsing and the mapping of a pair of texts (one abstract predicate), the `model` field of a pending exchange (written, never read), and a raw store that throws.
- CorrelatorJoins.EveryBodyMeetsItsResponse: calls carry distinct request ids and a model, per model they claim in the order of their bodies, and no drop is reported, because a dropped body lets the fallback claim pair across calls (`CorrelatorLosses.DropMispairs`); synthetic keys are kept apart from real ids by type.
- CorrelatorBatches.BatchSplitInvariant: streams within one TTL, where only the cap can drop anything; for longer ones `CorrelatorBatches.QuietCutsAgree` takes the absence of a report as its condition.
- BoundedParallel: a step system rather than a class, because the source interleaves at awaits; an `onError` that throws is not modelled.
- Broker: presence, subscribers and tabs, the delivery ledger (leases, settlement, redelivery), dispositions and their counts; the registry is a set of names. `tail` and `latestObjectiveSignals` of the event log.
- Activity stores: listeners, logging, the SQL text; a row's stored form is its event, and `decodes` says which rows parse. `ListsAgree` is limited to rows in (ts, id) order, since the in-memory store walks insertion order.
- GenAI store: `getById` and `count`, single reads.
- Blob retention: display columns of an exchange, `list` and `stats`, index creation, byte and length columns of a blob.
- Channels: `listAll`, `listMembers` beyond its order, and `rename`, thin reads or wrappers; ids come from outside, and a repeated id is the primary key's raw error.
- Enrollments: the source address, label and approval arguments of a row, and `listPending`. A decryption that throws is an answer of its own (`PollThrew`).
- TotpSources.SourceSpendsAtMost: the bound is for one window's length and a bucket that is neither cleared by a success nor evicted from a full map; each of those gives the source a new bucket.
- TotpVerdicts.LoginEffect: stated short of a full map, where opening a bucket prunes others; `TotpVerdicts.RecordIs` and `TotpLockout.PruneIs` say what happens then.
- Limiters: the HTTP handlers around them, source keys, session creation, and verifying a TOTP code, which is a parameter of the attempt.
- HTTP routing, WebSockets, push sending, the CLI, secrets, variables, objectives and notifications are not part of this model.
