# Verified model of the device telemetry gateway and its segment engine

A Dafny 4.11 model of the parts of the repository whose correctness rests on two
sides agreeing, with proofs that they do, or of exactly when they do.

**Segment membership.** `Incremental` is the engine of `internal/segment/incremental.go`
as a class over its Redis keys (stats, category counts, the purchase sorted set trimmed
to 90 days, the forward and inverted indexes). `FullRecompute` is `recompute.go` as row
filters, grouping and group conditions, with what each query means. `ProfileFold` proves
the representation invariant between the bounded state and a profile's whole history,
`Agreement` compares the two verdicts on one profile, `EngineRuns` lifts the comparison
to whole runs, `Definitions` builds the test segments, and `SegmentBench` and `Diff`
carry it through the batching consumer to the final comparison of `cmd/segmentbench`.
`Edges` holds inputs on which the two sides differ.

**Telemetry ingest.** `IngestProtocol` is `internal/ingest/pipeline.go` as a step
relation: concurrent Ingest calls, a drainer with 32 slots, a producer that may
refuse or land a reading and still report an error. `IngestPipeline` is the same
code as objects, shown to be one of its schedules, and `DrainSchedules` shows that
every schedule of a drain round comes down to that one. `Spools` is the byte framing of
`spool.go`, `Windows` the bounded FIFO memory behind both dedup edges (generic in
key, group and cap) with the reference dedup, `IngestDedup` the per-device
records on the heap, and `Reference` the digest.

**Beside these.** `EventIngest` is the storefront edge, where unique event ids come
from, as a step relation of concurrent calls. `Corpus` is the in-place sort that makes
each profile's events chronological. `StorefrontPath` composes them: corpora, edge,
partitions, consumer, engine, comparison. `DeliveryStats` is the per-minute rollup
against the raw log. `Sequences`, `Bytes`, `Events`, `Members`, `Redis` and `Producers`
are the vocabulary.

Run `dafny verify dfyconfig.toml` in this directory.

## Assumptions

The engine theorems take, per profile: events in non-decreasing time order,
timestamps after the epoch, distinct purchase event ids without `|`, page views
with a category; and per segment: thresholds of at least 1, purchase windows of 0
to 90 days (`Events.WellFormed`, `Events.Sane`); a lower threshold breaks the
agreement (`Edges.SaneExactly`). Every event is at or before `asOf`. Segment ids are
distinct. The 50 test segments meet all that is asked of a segment
(`Definitions.TestSegmentsUsable`). Timestamps are integer milliseconds, prices
integer cents.

`EdgeClear` is what a caller would check on top: that no event sits on the seam
between the engine's clock seconds and the query's milliseconds. Without it the
equality is false (`Edges`), and the exactness lemmas show it is needed, family by
family. With whole-second timestamps it reduces to no purchase lying exactly 90
days before the profile's latest one.

`StorefrontPath` establishes the assumptions on the log from assumptions on the
corpora and on how they are sent: one call of a profile at a time, and partitions
read in the order they were written.

The ingest theorems take a codec that round-trips records under 4 GiB. Failed spool
writes and produce errors that hide a landing are steps of both edges' relations; a
theorem that excludes either says so in its premises.

## Where the documentation and the code disagree

- `README.md:236-247` and `internal/segment/incremental.go:23-33` name cart
  abandonment, churn risk and recent activity as families that time alone turns
  false. In the code time alone turns the first two true; it turns recent activity,
  purchase count and purchase value false (`EngineRuns.OnlyTimePasses`).
- The claim that membership is identical to a full recompute is true of every clear
  log (`EngineRuns.FinalizeMatchesRecompute`) and not of every other. For the
  elapsed-days families and, over all thresholds, for purchase counts, a clear log is
  also needed (`EngineRuns.ElapsedMatchesExactly`, `EngineRuns.CountMatchesExactly`);
  for purchase values the miscounted cents must balance
  (`EngineRuns.ValueMatchesExactly`). At one fixed threshold the window families can
  agree on an unclear log.
- The outage benchmark takes an empty spool file for a cleared backlog; a drain
  round may hold it (`IngestProtocol.EmptySpoolIsNotDelivered`; exactly when not:
  `IngestProtocol.EmptySpoolMeansDelivered`).
- `internal/eventingest/pipeline.go:29-32` treats a duplicate as on its way or
  landed. That is so unless every send of the id let in was refused; a produce error
  that hid a landing leaves it true (`EventIngest.DuplicateAnswerExact`,
  `EventIngest.SoleSendExactly`, `EventIngest.RefusedSendRetried`).
- `internal/ingest/pipeline.go:19-21` says nothing that passed dedup is dropped
  silently. A reading whose re-spool fails is gone but for a log line
  (`IngestProtocol.FailedRespoolDrops`; exactly when nothing is missing:
  `IngestProtocol.AtLeastOnce`).
- `internal/ingest/reference.go:12-17` calls sets with one digest bit-identical;
  that needs device ids of one length and leaves timestamps out
  (`Reference.DigestSafeForOneLength`, `Reference.DigestIdentifiesReadings`).

## Model

| member | source | states |
|---|---|---|
| `EngineRuns.FinalizeMatchesRecompute` | internal/segment/incremental.go:52-249 | After any run of events and earlier Finalize sweeps, one Finalize leaves every sane, clear segment's members, read through the inverted index, equal to the recompute over the whole log, for all eight families |
| `EngineRuns.ElapsedMatchesExactly` | internal/segment/recompute.go:27-34 | Cart abandonment and churn: the engine's members are always among the recomputed ones, and the two sets are equal if and only if no profile is within the clock second of its deadline |
| `EngineRuns.CountMatchesExactly` | internal/segment/incremental.go:173-197 | Purchase counts over any run: the finalized member set equals the recompute at every threshold if and only if every profile's edge second is clear |
| `EngineRuns.ValueMatchesExactly` | internal/segment/incremental.go:199-213 | Purchase values over any run, with any event ids and non-negative prices: the member sets are equal at every threshold if and only if, profile by profile, the cents counted too often balance those not credited |
| `EngineRuns.WindowMembersContained` | internal/segment/incremental.go:62-67 | Both window families, at the segment's own threshold: off the trim the engine lists at least the recomputed members, and when the trim touches every profile's window at most those |
| `EngineRuns.TimelessMatchesRecompute` | internal/segment/incremental.go:217-228 | Category views, never-purchased and multi-category agree with the recompute after every event, with no Finalize, and as of any later instant |
| `EngineRuns.WholeSecondLogIsClear` | internal/segment/incremental.go:66-67 | Whole-second clocks and no purchase exactly 90 days before its profile's latest one: no millisecond edge is left in any segment |
| `EngineRuns.OnlyTimePasses` | internal/segment/incremental.go:23-33 | With no new event, a later instant can only turn purchase-count, purchase-value and recently-active false, and cart-abandon and churn true |
| `EngineRuns.InterleavingIrrelevant` | internal/segment/incremental.go:52-139 | Two logs with equal per-profile subsequences drive the engine to the same whole store: profile states, touched set, both indexes |
| `EngineRuns.RunMembership` | internal/segment/incremental.go:98-139 | At every point of every run a profile's segments are the evaluation of its current state as of the last instant it was evaluated at |
| `EngineRuns.RunProfile` | internal/segment/incremental.go:52-77 | A profile's stored state is the fold of that profile's own history, whatever else the run contained |
| `EngineRuns.IndexesAreConverse` | internal/segment/incremental.go:117-138 | Over every run the forward and inverted indexes are converses, and touched is exactly the set of profiles seen |
| `EngineRuns.LaterSweepErases` | internal/segment/incremental.go:82-96 | A Finalize erases the effect of any earlier one; repeated at one instant it is idempotent |
| `Agreement.VerdictsAgree` | internal/segment/incremental.go:190-233 | One profile, any family: the verdict from the bounded state is the query's verdict on the full history, on clear histories |
| `Agreement.WindowsDifferOnEdge` | internal/segment/incremental.go:174-181 | Millisecond timestamps: engine window and query window differ only on purchases in the second of the lower edge, in one direction for a whole history (extras, or, when the trim touches the edge, omissions) |
| `Agreement.WindowCountsEqual` | internal/segment/incremental.go:66-67 | ZCOUNT over the trimmed set equals count() over the log if and only if the edge second is clear |
| `Agreement.CountFamilyExact` | internal/segment/recompute.go:19-22 | Purchase-count membership agrees for every threshold if and only if the edge second is clear |
| `Agreement.ValueFamilyExact` | internal/segment/recompute.go:23-26 | One profile's purchase-value membership agrees for every threshold if and only if overcounted and undercounted cents balance, free purchases and barred ids included |
| `Agreement.BalancedExactly` | internal/segment/incremental.go:206-213 | They balance when no credited purchase is on the wrong side of the edge second and none in the window has a bar in its id; when they balance each half implies the other; with plain ids the edge alone decides |
| `Agreement.WindowContained` | internal/segment/incremental.go:174-181 | One profile: off the trim the query's verdict implies the engine's, and when the trim touches the window the reverse |
| `Agreement.TrimInvisibleExactly` | internal/segment/incremental.go:67 | The trimmed and the untrimmed window hold the same purchases, for every window up to 90 days, if and only if it is not the 90-day window read in the second of the latest purchase with a purchase in its first second |
| `Agreement.TrimSeenByMeasures` | internal/segment/incremental.go:67 | ZCOUNT reads that window, and a measure positive on purchases is equal over both windows if and only if they hold the same purchases |
| `Agreement.CartFamilyExact` | internal/segment/incremental.go:214-216 | Cart abandonment for one profile: engine implies query, and they agree if and only if the cart is not within the second of its deadline |
| `Agreement.ChurnFamilyExact` | internal/segment/incremental.go:224-226 | The same for churn risk |
| `Agreement.BlankViewsCountOnce` | internal/segment/recompute.go:53-56 | uniqExact counts views without a category as one category more than the engine does; otherwise the two counts are equal |
| `Agreement.MultiCategoryExact` | internal/segment/recompute.go:53-56 | Multi-category membership agrees at every threshold if and only if no view lacks a category |
| `Agreement.RecentlyActiveAgrees` | internal/segment/incremental.go:220-221 | Elapsed time since the last event within the limit exactly when the query finds a row in the window |
| `Agreement.NeverPurchasedAgrees` | internal/segment/incremental.go:222-223 | The counters say never purchased exactly when the query's sum is 0 |
| `ProfileFold.FoldRepresents` | internal/segment/incremental.go:56-74 | The representation invariant: counters, last-seen times, categories and every sorted-set range of the bounded state are those of the whole history |
| `ProfileFold.PurchasesSurviveTrims` | internal/segment/incremental.go:62-67 | Through every later trim the sorted set holds exactly the purchases less than 7 776 000 clock seconds, 90 days, before the latest one, each at its second |
| `ProfileFold.KeptForNinetyDays` | internal/segment/incremental.go:62-67 | A purchase of the history is in the sorted set, at its own second, if and only if no purchase of the profile is 7 776 000 or more clock seconds later |
| `ProfileFold.OnlyPurchasesKept` | internal/segment/incremental.go:62-66 | Nothing but purchases of the history is in the sorted set |
| `ProfileFold.WindowReads` | internal/segment/incremental.go:173-213 | ZCOUNT and the ZRANGEBYSCORE sum over the trimmed set are a count and a sum over a filter of the whole history |
| `ProfileFold.StatsRememberHistory` | internal/segment/incremental.go:57-69 | Counters and last-seen timestamps equal counts and maxima over the history |
| `ProfileFold.CategoryKeys` | internal/segment/incremental.go:70-73 | The catviews fields are the distinct non-empty categories viewed |
| `Members.MemberCentsExact` | internal/segment/incremental.go:66 | The price written into a sorted-set member reads back if and only if the event id holds no bar (it reads 0 otherwise) |
| `Members.MemberInjective` | internal/segment/incremental.go:66 | Different purchases never share a member, bars in ids or not |
| `Members.MemberByExample` | internal/segment/incremental.go:66 | The member format on a plain and on a negative price |
| `Members.NoBarNoCents` | internal/segment/incremental.go:206-213 | A string without a bar adds nothing to the sum |
| `Incremental.IncrementalEngine.ApplyEvent` | internal/segment/incremental.go:52-80 | The new store, all of it, as a function of the old one; both indexes stay converse |
| `Incremental.IncrementalEngine.Finalize` | internal/segment/incremental.go:85-96 | The swept store whatever order the touched profiles come in, and how many there were |
| `Incremental.IncrementalEngine.Reevaluate` | internal/segment/incremental.go:98-139 | The profile's set becomes the evaluated set whatever it was; the ids written to both indexes are exactly those that joined or left |
| `Incremental.IncrementalEngine.EvaluateProfile` | internal/segment/incremental.go:143-235 | The two passes return exactly the ids whose predicate holds of the stored state |
| `Incremental.IncrementalEngine.MembersOf` | internal/segment/incremental.go:239-249 | What is read off the inverted index is exactly the profiles whose own set in the forward index lists the segment |
| `Incremental.ReindexedIndexes` | internal/segment/incremental.go:117-132 | Writing only the delta keeps the indexes converse and gives the profile exactly the wanted set |
| `FullRecompute.RecomputeByProfile` | internal/segment/recompute.go:18-60 | Filtering then grouping decides each profile on that profile's own events |
| `FullRecompute.SelectedMeans` | internal/segment/recompute.go:18-60 | Each of the eight queries selects a profile if and only if its events satisfy the sentence the family stands for, windows in milliseconds and counts as cardinalities of sets of events |
| `FullRecompute.RecomputeCutAtAsOf` | internal/segment/recompute.go:19-58 | Rows later than asOf are not looked at: the recompute equals the one over the log cut at asOf |
| `FullRecompute.RecomputePermutation` | internal/segment/recompute.go:18-60 | The answer does not depend on the order rows were inserted in |
| `Diff.DiffSets` | internal/segment/diff.go:19-39 | Both difference counts, both sizes, and exactness if and only if the sets are equal |
| `Edges.TrimForgetsTheNinetiethDay` | internal/segment/incremental.go:67 | An input: whole seconds, purchases 90 days apart, and the 90-day count is one short |
| `Edges.EdgeSecondIsCounted` | internal/segment/incremental.go:174-177 | An input: a purchase half a second too old is still counted by the engine |
| `Edges.CartWithinTheSecond` | internal/segment/recompute.go:33 | An input: the query calls a cart abandoned that the engine does not yet |
| `Edges.BarredIdLosesItsPrice` | internal/segment/incremental.go:206-213 | Every purchase with a bar in its id misses a value segment it alone should reach |
| `Edges.SaneExactly` | internal/segment/recompute.go:18-58 | Any segment, its purchase window inside the trim, agrees with the query on every well-formed clear history if and only if its threshold is at least 1 |
| `Edges.LowThresholdDiffers` | internal/segment/incremental.go:190-228 | A lower threshold: a profile with nothing to count is listed by the engine and has no row in the query |
| `SegmentBench.RunConserves` | cmd/segmentbench/main.go:158-213 | Over every interleaving each received row is stored, being inserted, batched or dropped by a failed insert, once; events reach the engine in receive order |
| `SegmentBench.InsertLands` | cmd/segmentbench/main.go:161-172 | A batch joins the store when its insert succeeds and is dropped when it fails |
| `SegmentBench.DroppedOnlyByFailure` | cmd/segmentbench/main.go:161-172 | Over a run without failed inserts nothing is dropped; over one with failed inserts only, nothing is stored |
| `SegmentBench.FlushAtFiveHundred` | cmd/segmentbench/main.go:197-201 | The consumer flushes when the event it received makes the batch 500 rows, and only then |
| `SegmentBench.BatchBounded` | cmd/segmentbench/main.go:158-213 | Over every run no batch and no insert is of more than 500 rows, and the consumer never inserts an empty one |
| `SegmentBench.StoreComplete` | cmd/segmentbench/main.go:161-172 | The store is a permutation of what was received if and only if nothing is batched, being inserted or dropped |
| `SegmentBench.FinalDiffIsExact` | cmd/segmentbench/main.go:293-316 | Once everything is stored and applied, every clear segment's recompute over the store equals the finalized members |
| `SegmentBench.MainFlushDoesNotWait` | cmd/segmentbench/main.go:257 | A run in which every event is consumed and main's flush has returned, yet the store is empty |
| `SegmentBench.CompareAll` | cmd/segmentbench/main.go:295-316 | One diff a segment, each measured: both sizes and both one-sided counts of the profiles whose own set lists the segment against the recompute over the store; the exact count is how many diffs have no pair, the mismatched count the sum of all one-sided pairs; only an unknown family stops the loop |
| `SegmentBench.CountsAgree` | cmd/segmentbench/main.go:307-316 | The exact count is the number of segments if and only if every diff is exact, and if and only if no mismatched pair is counted |
| `SegmentBench.Check` | cmd/segmentbench/main.go:277-316 | The engine, fed a log and finalized, matches a recompute over any permutation of it on every segment |
| `IngestProtocol.RunConserves` | internal/ingest/pipeline.go:35-104 | Over every run and schedule each admitted copy is delivered, spooled, held by an Ingest call, held by the round, or lost to a failed spool write, once, plus hidden landings; each copy a round took is accounted for |
| `IngestProtocol.RunKeepsInvariant` | internal/ingest/pipeline.go:35-104 | Over every run the spool file is well framed, the records inside Produce and inside a re-spool are together at most 32, and admissions are those of the bounded memory |
| `IngestProtocol.AtLeastOnce` | internal/ingest/pipeline.go:19-21 | At quiescence, from any spool file left behind, every inherited and admitted copy is on the topic if and only if hidden landings make up for the failed spool writes; always when no write failed |
| `IngestProtocol.FailedRespoolDrops` | internal/ingest/pipeline.go:94-100 | A run, every error honest, that comes to rest with an admitted reading nowhere: its re-spool failed and was only logged |
| `IngestProtocol.ExactlyOnce` | internal/ingest/pipeline.go:42-48 | At quiescence the topic is a permutation of the inherited and admitted readings if and only if the hidden landings are the copies lost; with working writes, if and only if no error report hid a landing |
| `IngestProtocol.ReplayMatchesReference` | internal/ingest/pipeline.go:35-104 | At quiescence the topic is a permutation of what the spool held and the reference dedup of the input if and only if readmissions and hidden landings are the copies lost; with working writes, if and only if no landing was hidden and duplicates stay in the dedup window |
| `IngestProtocol.ReplayDigestsAgree` | internal/ingest/reference.go:12-61 | At quiescence, with working writes, topic and reference give the hash the same bytes if and only if no landing was hidden and duplicates stay in the window; the digests are then equal, whatever the hash |
| `IngestProtocol.EmptySpoolMeansDelivered` | internal/ingest/spool.go:100-112 | Over every run with an empty spool, the topic is a permutation of what was inherited and admitted if and only if hidden landings match the copies in hand or lost; with working writes and honest errors, if and only if no Ingest call and no drain round holds anything |
| `IngestProtocol.EmptySpoolIsNotDelivered` | internal/ingest/spool.go:100-112 | A run with an empty spool file and an admitted reading still held by a drain round |
| `IngestProtocol.RecoveryDelivers` | internal/ingest/pipeline.go:52-68 | From any state a run can reach, with marshallable records, a bounded run of successful steps reaches quiescence with every inherited or admitted copy on the topic but those lost, and hidden landings once more |
| `IngestProtocol.TimeoutAfterLandingDeliversTwice` | internal/ingest/pipeline.go:40-43 | A run in which a timed-out but landed produce delivers one reading twice |
| `IngestProtocol.DrainIsBounded` | internal/ingest/pipeline.go:75-88 | Over every run and schedule a round has at most 32 records inside Produce or a re-spool, the two multisets counted together |
| `IngestProtocol.LaunchExactly` | internal/ingest/pipeline.go:83-104 | A round launches its next record exactly while fewer than 32 are out, and ends exactly when none is left or out |
| `IngestProtocol.AllSlotsUsed` | internal/ingest/pipeline.go:75-88 | A round of n records or more, n up to 32, reaches n retries at once |
| `IngestProtocol.RoundMakesProgress` | internal/ingest/pipeline.go:86-103 | Every round step lowers the round's measure, also when produces fail; Ingest calls do not raise it |
| `IngestProtocol.RoundNeverStuck` | internal/ingest/pipeline.go:84-103 | A round that has not ended always has an enabled step |
| `IngestProtocol.RoundTerminates` | internal/ingest/pipeline.go:77-104 | A round takes at most one step, three for each record queued, two for each inside Produce and one for each being re-spooled, however Ingest steps interleave |
| `IngestProtocol.RoundOutcomes` | internal/ingest/pipeline.go:94-100 | When a round can end, each taken copy was delivered, re-spooled or dropped, exactly once |
| `IngestPipeline.Pipeline.Ingest` | internal/ingest/pipeline.go:35-50 | The new state of dedup, spool and topic, and an error exactly when a reading was lost |
| `IngestPipeline.Pipeline.DrainOnce` | internal/ingest/pipeline.go:77-104 | The state after retrying every drained record in turn, which every other schedule reaches up to order (next row) |
| `DrainSchedules.RoundIsSequential` | internal/ingest/pipeline.go:77-104 | Every schedule of a drain round, 32 retries at a time among any steps of Ingest calls, ends as those calls followed by one sequential drain, up to the order of the topic and of the spool |
| `IngestPipeline.IngestIsARun` | internal/ingest/pipeline.go:35-50 | An uninterrupted Ingest call is a run of the step relation |
| `IngestPipeline.DrainIsARun` | internal/ingest/pipeline.go:77-104 | A sequential drainOnce is a run of the step relation made of round steps only |
| `Spools.Spool.Write` | internal/ingest/spool.go:36-53 | Appends one length-prefixed frame, or changes nothing when the record cannot be marshalled |
| `Spools.Spool.Drain` | internal/ingest/spool.go:59-98 | Returns what the parser reads off the file and empties it |
| `Spools.DrainPrefix` | internal/ingest/spool.go:72-87 | Draining any byte prefix of a file of frames returns exactly the decodable records whose frames lie wholly in it |
| `Spools.DrainReturnsWhatWasWritten` | internal/ingest/spool.go:36-98 | Write any records, drain: the same records in order |
| `Spools.WriteAppendsOneRecord` | internal/ingest/spool.go:36-53 | One Write adds one record at the end of what a drain would return |
| `Spools.CorruptRecordDropsItselfOnly` | internal/ingest/spool.go:83-85 | A payload that does not decode drops its own record and no other |
| `Windows.AdmitsExactlyTheReference` | internal/ingest/dedup.go:48-67 | For any cap the items let through are the first occurrences, in order, if and only if no duplicate arrives after cap or more first-time ids of its group; otherwise strictly more get through |
| `Windows.AdmittedKeysDistinct` | internal/ingest/dedup.go:48-67 | No key is let through twice, under exactly that condition |
| `Windows.ReadmittedExactly` | internal/ingest/dedup.go:48-67 | Copies counted, what is let through is the reference and what was readmitted, and nothing is readmitted under exactly that condition |
| `Windows.WindowContents` | internal/ingest/dedup.go:26-29 | Each group's set and queue hold exactly its last min(cap, n) admitted ids, without repeats |
| `Windows.ReadmissionDistance` | internal/ingest/dedup.go:61-65 | Two admissions of one key have at least cap others of the group between them |
| `Windows.GroupsIndependent` | internal/ingest/dedup.go:46-67 | A group's window and admissions are what its own items alone would leave |
| `Windows.MemoryBounded` | internal/ingest/dedup.go:69-88 | Entries are at most cap times groups, and min(cap, n) in each group, over every stream |
| `Windows.ReferenceKeepsEachKeyOnce` | internal/ingest/reference.go:45-61 | The reference keeps every key of the stream, once |
| `IngestDedup.Dedup.Admit` | internal/ingest/dedup.go:48-67 | The admitted device's record changes as the window function says, no other device's does, and the verdict is that function's |
| `IngestDedup.Dedup.EntryCount` | internal/ingest/dedup.go:72-80 | The number of remembered (device, sequence) pairs |
| `IngestDedup.Dedup.DeviceCount` | internal/ingest/dedup.go:84-88 | The number of devices held |
| `Reference.ReferenceDedup` | internal/ingest/reference.go:45-61 | The loop returns the first occurrences |
| `Reference.FinalStateDigest` | internal/ingest/reference.go:18-37 | The hash of the serialized sorted readings |
| `Reference.SortedAscending` | internal/ingest/reference.go:21-26 | Of two readings the earlier one in the hashed order has the same id and no larger sequence, or an id that is a proper prefix or has the smaller first differing byte |
| `Reference.DigestDependsOnOrder` | internal/ingest/reference.go:21-26 | Every sorted arrangement hashes the same bytes if and only if readings sharing a key share a value |
| `Reference.DigestIdentifiesReadings` | internal/ingest/reference.go:28-36 | With device ids of one length, equal hash input means the same readings up to order and timestamps, and conversely |
| `Reference.DigestSafeForOneLength` | internal/ingest/reference.go:12-37 | A set of device-id lengths keeps different readings from hashing the same bytes if and only if it holds at most one length |
| `Reference.MixedIdLengthsCollide` | internal/ingest/reference.go:30-34 | For any two positive id lengths, two different lists of readings with ids of those lengths, without a repeated key, that hash the same bytes |
| `EventIngest.EventDedup.Admit` | internal/eventingest/dedup.go:39-53 | The window after one Admit, and its verdict |
| `EventIngest.Pipeline.Ingest` | internal/eventingest/pipeline.go:33-41 | The edge after one Ingest and what the caller is told, when the produce is accepted, refused, or lands behind an error |
| `EventIngest.IngestIsARun` | internal/eventingest/pipeline.go:33-41 | An uninterrupted Ingest is a run of the step relation |
| `EventIngest.RunConserves` | internal/eventingest/pipeline.go:33-41 | Over every run of concurrent calls each admitted copy is inside Produce, on the topic, or refused, once; hidden landings are on the topic |
| `EventIngest.TopicMatchesReference` | internal/eventingest/pipeline.go:33-41 | At every point of every run of concurrent calls the topic is a permutation of the reference dedup of what was offered if and only if what is in flight or refused is what was readmitted |
| `EventIngest.TopicMatchesInWindow` | internal/eventingest/pipeline.go:33-41 | While duplicates stay in the window, it is if and only if every call let in has landed; once every call let in has landed, if and only if duplicates stay in the window |
| `EventIngest.TopicIdsUnique` | internal/eventingest/dedup.go:39-53 | Whatever the landing order and whatever produces fail, landed or not, ids on the topic are unique while duplicates stay in the window; once every call let in has landed, only then |
| `EventIngest.EdgeEstablishesUniqueIds` | cmd/segmentbench/main.go:215-245 | Every profile's history of any permutation of the topic meets the engine's unique-id assumption |
| `EventIngest.DuplicateAnswerExact` | internal/eventingest/pipeline.go:29-41 | At every point of every run a send, a retry included, is answered as a duplicate if and only if its id is among the last cap let in; an event of that id is in flight or on the topic if and only if one was let in and not refused; any other send goes to the producer |
| `EventIngest.SoleSendExactly` | internal/eventingest/pipeline.go:29-41 | An event sent once is in exactly one place, in flight, on the topic or refused: a duplicate answer to its retry is true unless it was refused, also when its error hid a landing |
| `EventIngest.SwallowedWhileRemembered` | internal/eventingest/pipeline.go:29-41 | The retry of an event sent once is swallowed if and only if fewer than cap ids were let in after it |
| `EventIngest.RefusedSendRetried` | internal/eventingest/pipeline.go:29-41 | A run at rest in which a refused send's retry is answered as a duplicate with nothing on its way |
| `Corpus.SortChronologically` | internal/simstorefront/corpus.go:77-85 | In-place insertion sort: chronological, and a stable rearrangement of the input |
| `Corpus.StableIsPermutation` | internal/simstorefront/corpus.go:81-85 | A stable rearrangement is a permutation |
| `StorefrontPath.SortProfile` | internal/simstorefront/corpus.go:77-85 | One profile's events, sorted in place, are sound and in time order |
| `StorefrontPath.TopicInTurn` | cmd/segmentbench/main.go:226-245 | Sent one event of a profile at a time, among any calls of other profiles and with any failures, a profile let in in time order lands in time order |
| `StorefrontPath.ReceivedWellFormed` | cmd/segmentbench/main.go:215-247 | What the consumer receives of sorted corpora sent that way, duplicates in the window, meets every assumption of the engine's theorems |
| `StorefrontPath.ReceivedIsCorpus` | cmd/segmentbench/main.go:215-247 | At rest with nothing refused, each profile's received events are its corpus, in order |
| `StorefrontPath.EndToEnd` | cmd/segmentbench/main.go:215-316 | From sorted corpora through edge, partitions, batches and engine: each clear segment's finalized members equal the recompute over the store, and are the profiles whose corpus satisfies the sentence the family stands for |
| `StorefrontPath.EndToEndOnTestSegments` | cmd/segmentbench/main.go:215-316 | The same for each of the 50 test segments, with nothing assumed of them but that their edge is clear |
| `StorefrontPath.EveryCorpusCanBeSent` | cmd/segmentbench/main.go:158-247 | Any sorted corpora with distinct ids, interleaved in any way, have a run of the edge and one of the consumer that meet every premise of the end-to-end theorem |
| `Definitions.GenerateTestSegments` | internal/segment/definitions.go:64-135 | The loops build the 50 segments of the grid, in order, each given in numbers by its index |
| `Definitions.WindowedByExample` | internal/segment/definitions.go:67-106 | Entries of the purchase families spelled out, id and unused fields included |
| `Definitions.ElapsedByExample` | internal/segment/definitions.go:78-124 | The same for the elapsed-time families |
| `Definitions.TimelessByExample` | internal/segment/definitions.go:86-132 | The same for the clock-free families |
| `Definitions.SegmentFromId` | internal/segment/definitions.go:64-132 | Two segments built by the same patterns, whatever the parameters, with the same id are the same segment |
| `Definitions.TestSegmentsUsable` | internal/segment/definitions.go:57-135 | The 50 test segments have distinct ids, known families, thresholds of at least 1 and windows within the 90-day trim |
| `DeliveryStats.DeliveryStore.RefreshRollup` | internal/deliverystats/clickhouse.go:186-198 | The rollup is rebuilt from the log alone, and its totals equal a recount of the log |
| `DeliveryStats.RollupCountsBuckets` | internal/deliverystats/clickhouse.go:190-195 | Each bucket of the rollup counts exactly its log rows |
| `DeliveryStats.RollupBucketsDistinct` | internal/deliverystats/clickhouse.go:190-195 | No two rollup rows share a bucket |
| `DeliveryStats.RollupMatchesRecompute` | internal/deliverystats/clickhouse.go:237-247 | Summing the rollup by channel and status equals counting the log by channel and status, for any log |
| `DeliveryStats.MergedRollupMatchesRecompute` | internal/deliverystats/clickhouse.go:83-92 | Whatever inserts the log was rolled up in and however far the table has been merged in the background, its totals equal a recount of the log |
| `DeliveryStats.SettledIsRebuilt` | internal/deliverystats/clickhouse.go:83-92 | A table rolled up insert by insert and merged so far is the rebuilt rollup, up to order, if and only if no merge is left |
| `DeliveryStats.MergesSettle` | internal/deliverystats/clickhouse.go:83-92 | From any table some run of merges leaves one row a bucket |
| `DeliveryStats.DashboardsAgreeExactly` | internal/deliverystats/clickhouse.go:256-279 | For any log, raw and rollup dashboards agree at a bucket if and only if no row of a straddled bucket lies on the side the rollup gets wrong and, where the rollup serves the bucket, no webhook id repeats in it |
| `DeliveryStats.DashboardsAgree` | internal/deliverystats/clickhouse.go:249-269 | At a bucket starting at or after the window start they agree if and only if no webhook id repeats in it; when the start is on a minute every earlier bucket agrees |
| `DeliveryStats.RollupRowsPositive` | internal/deliverystats/clickhouse.go:192 | No rollup row is empty |

## Left out

- Kafka, Redis, ClickHouse and WebSocket clients, HTTP, JSON, topics and offsets: Redis commands are map, set and sorted-set operations, SQL is folds over a log, and their errors are not modelled.
- The protobuf wire format and SHA-256: a round-tripping codec and an arbitrary function.
- Floating point: prices are integer cents and readings carry 64-bit patterns; rounding of sums, infinities and NaN are not modelled, nor is ParseFloat on strings other than those the engine writes.
- The order of ZRANGEBYSCORE results: the sum of cents does not depend on it.
- Overflow of a duration beyond 292 years and of int64 counters.
- Disk errors inside Drain, and crashes between truncate and retry: the code promises nothing there. A failed Write leaves the file as it was.
- The 200 ms timeout, tickers and cancellation: a produce may succeed or fail at any step.
- Purchase windows longer than the 90-day trim: no segment of `internal/segment/definitions.go` uses one (`Definitions.TestSegmentsUsable`), and the engine forgets what they would need.
- `internal/deliverystats/dedup.go`, `pipeline.go` and `reference.go`: the shape of `internal/eventingest` again.
- Random corpus contents, load generators, latency measurements, the dashboard and deploy files.
- IngestPipeline.Pipeline.DrainOnce: runs each retry to completion as it is launched; every other schedule is brought back to this one by DrainSchedules.RoundIsSequential, up to the order of the topic and the spool.
- DrainSchedules.RoundIsSequential: a re-spool is taken to fail only for a record that cannot be marshalled; rounds with other failing writes are covered by IngestProtocol.RunConserves.
- Reference.FinalStateDigest: sorts with a stable insertion sort; that sort.Slice may order ties differently is covered by Reference.DigestDependsOnOrder, which speaks of every sorted arrangement.
- Agreement.ValueFamilyExact: negative prices are not covered; a refund would let a window sum fall as the window grows.
- EventIngest.Pipeline.Ingest: runs one call at a time; concurrent calls are the step relation, of which EventIngest.IngestIsARun shows it to be a schedule.
- A landing that comes after its error was reported is placed at the report, on both edges: until it happens the model already counts it as landed.
- StorefrontPath.TopicInTurn: such a late landing could come after the profile's next event; the order it proves is for landings no later than their reports.
- IngestDedup.Dedup.Admit: the mutex is not modelled; a call is one atomic step, as is EventIngest.EventDedup.Admit.
- The Kafka client: that a profile's events are read in the order they landed is a premise of StorefrontPath.ReceivedWellFormed, since the partition client is not part of this model.
