/** cmd/segmentbench/main.go: the consumer loop that applies each event to the
    engine and batches it for the event store, the main goroutine's own flush,
    and the final comparison. A run is any interleaving of the two goroutines. */
module SegmentBench {
  import opened Diff
  import opened EngineRuns
  import opened Events
  import opened FullRecompute
  import opened Incremental
  import opened Redis
  import opened Sequences

  const CH_BATCH_SIZE := 500

  /** Where the consumer goroutine is. After an insert it still has to apply
      the event that filled the batch, if one did. */
  datatype Consumer =
    | Idle
    | MustFlush(e: Event)
    | MustApply(e: Event)
    | Inserting(rows: seq<Event>, pending: seq<Event>)

  datatype Bench = Bench(
    received: seq<Event>,
    batch: seq<Event>,       // chBatch
    consumer: Consumer,
    mainRows: seq<Event>,    // the batch main's flush is inserting; empty when it is not
    stored: seq<Event>,      // rows in the events table
    dropped: seq<Event>,     // rows of failed inserts, which are only logged
    applied: seq<Event>)     // events the engine has seen, in order

  datatype Step =
    | Receive(e: Event)
    | Tick
    | FlushFull
    | InsertDone(ok: bool)
    | ApplyPending
    | MainFlush
    | MainInsertDone(ok: bool)

  function Take(b: Bench, pending: seq<Event>): Bench {
    if b.batch == [] then b.(consumer := if pending == [] then Idle else MustApply(pending[0]))
    else b.(batch := [], consumer := Inserting(b.batch, pending))
  }

  function Land(b: Bench, rows: seq<Event>, ok: bool): Bench {
    if ok then b.(stored := b.stored + rows) else b.(dropped := b.dropped + rows)
  }

  function Next(b: Bench, a: Step): Bench {
    match a
    case Receive(e) =>
      if b.consumer.Idle? then
        var batch := b.batch + [e];
        b.(received := b.received + [e], batch := batch,
           consumer := if |batch| >= CH_BATCH_SIZE then MustFlush(e) else MustApply(e))
      else b
    case Tick => if b.consumer.Idle? then Take(b, []) else b
    case FlushFull => if b.consumer.MustFlush? then Take(b, [b.consumer.e]) else b
    case InsertDone(ok) =>
      if b.consumer.Inserting? then
        Land(b, b.consumer.rows, ok).(consumer :=
          if b.consumer.pending == [] then Idle else MustApply(b.consumer.pending[0]))
      else b
    case ApplyPending =>
      if b.consumer.MustApply? then b.(applied := b.applied + [b.consumer.e], consumer := Idle) else b
    case MainFlush =>
      if b.mainRows == [] then b.(batch := [], mainRows := b.batch) else b
    case MainInsertDone(ok) =>
      if b.mainRows != [] then Land(b, b.mainRows, ok).(mainRows := []) else b
  }

  const START := Bench([], [], Idle, [], [], [], [])

  function Run(steps: seq<Step>): Bench {
    if steps == [] then START else Next(Run(steps[..|steps| - 1]), steps[|steps| - 1])
  }

  function ConsumerRows(c: Consumer): seq<Event> { if c.Inserting? then c.rows else [] }

  /** Received but not yet handed to the engine. */
  function Pending(c: Consumer): seq<Event> {
    match c
    case Idle => []
    case MustFlush(e) => [e]
    case MustApply(e) => [e]
    case Inserting(_, pending) => pending
  }

  /** Every received row is in exactly one place; stated for the copies of q. */
  ghost predicate Conserved(b: Bench, q: Event) {
    multiset(b.received)[q] ==
    multiset(b.stored)[q] + multiset(b.dropped)[q] + multiset(b.batch)[q] +
    multiset(ConsumerRows(b.consumer))[q] + multiset(b.mainRows)[q]
  }

  ghost predicate InOrder(b: Bench) {
    && b.received == b.applied + Pending(b.consumer)
    && |Pending(b.consumer)| <= 1
  }

  lemma CountConcat(s: seq<Event>, t: seq<Event>, q: Event)
    ensures multiset(s + t)[q] == multiset(s)[q] + multiset(t)[q]
  {
    assert multiset(s + t) == multiset(s) + multiset(t);
  }

  lemma TakeConserves(b: Bench, pending: seq<Event>, q: Event)
    requires Conserved(b, q) && !b.consumer.Inserting?
    ensures Conserved(Take(b, pending), q)
  {
  }

  /** Landing the rows of one insert moves them to the store, or to the dropped rows. */
  lemma LandMoves(b: Bench, rows: seq<Event>, ok: bool, q: Event)
    ensures var t := Land(b, rows, ok);
            multiset(t.stored)[q] + multiset(t.dropped)[q] ==
            multiset(b.stored)[q] + multiset(b.dropped)[q] + multiset(rows)[q]
  {
    CountConcat(b.stored, rows, q);
    CountConcat(b.dropped, rows, q);
  }

  lemma StepConserves(b: Bench, a: Step, q: Event)
    requires Conserved(b, q)
    ensures Conserved(Next(b, a), q)
  {
    match a {
      case Receive(e) =>
        CountConcat(b.received, [e], q);
        CountConcat(b.batch, [e], q);
      case Tick => if b.consumer.Idle? { TakeConserves(b, [], q); }
      case FlushFull => if b.consumer.MustFlush? { TakeConserves(b, [b.consumer.e], q); }
      case InsertDone(ok) => if b.consumer.Inserting? { LandMoves(b, b.consumer.rows, ok, q); }
      case ApplyPending =>
      case MainFlush =>
      case MainInsertDone(ok) => if b.mainRows != [] { LandMoves(b, b.mainRows, ok, q); }
    }
  }

  lemma StepInOrder(b: Bench, a: Step)
    requires InOrder(b)
    ensures InOrder(Next(b, a))
  {
  }

  lemma {:induction false} RunConserves(steps: seq<Step>, q: Event)
    ensures Conserved(Run(steps), q) && InOrder(Run(steps))
  {
    if steps != [] {
      RunConserves(steps[..|steps| - 1], q);
      StepConserves(Run(steps[..|steps| - 1]), steps[|steps| - 1], q);
      StepInOrder(Run(steps[..|steps| - 1]), steps[|steps| - 1]);
    }
  }

  /** A batch reaches the store when its insert succeeds and only then. */
  lemma InsertLands(b: Bench, ok: bool)
    ensures b.consumer.Inserting? ==>
              && Next(b, InsertDone(ok)).stored == (if ok then b.stored + b.consumer.rows else b.stored)
              && Next(b, InsertDone(ok)).dropped == (if ok then b.dropped else b.dropped + b.consumer.rows)
    ensures Next(b, MainInsertDone(ok)).stored == (if ok then b.stored + b.mainRows else b.stored)
    ensures Next(b, MainInsertDone(ok)).dropped == (if ok then b.dropped else b.dropped + b.mainRows)
  {
    assert b.stored + [] == b.stored && b.dropped + [] == b.dropped;
  }

  /** So over a run without failed inserts nothing is dropped, and over one with
      failed inserts only, nothing is stored. */
  lemma {:induction false} DroppedOnlyByFailure(steps: seq<Step>)
    ensures (forall i :: 0 <= i < |steps| ==> steps[i] != InsertDone(false) && steps[i] != MainInsertDone(false)) ==>
              Run(steps).dropped == []
    ensures (forall i :: 0 <= i < |steps| ==> steps[i] != InsertDone(true) && steps[i] != MainInsertDone(true)) ==>
              Run(steps).stored == []
  {
    if steps != [] {
      var init, a := steps[..|steps| - 1], steps[|steps| - 1];
      DroppedOnlyByFailure(init);
      assert forall i :: 0 <= i < |init| ==> init[i] == steps[i];
      if a.InsertDone? || a.MainInsertDone? {
        InsertLands(Run(init), a.ok);
      }
    }
  }

  /** The consumer flushes when its event makes the batch 500 rows, and only then. */
  lemma FlushAtFiveHundred(b: Bench, e: Event)
    requires b.consumer.Idle?
    ensures Next(b, Receive(e)).consumer == if |b.batch| + 1 >= 500 then MustFlush(e) else MustApply(e)
    ensures Next(b, Receive(e)).batch == b.batch + [e]
  {
  }

  /** So no insert is ever of more than 500 rows, and none is of no row. */
  lemma {:induction false} BatchBounded(steps: seq<Step>)
    ensures var b := Run(steps);
            && |b.batch| <= 500 && |b.mainRows| <= 500
            && (b.consumer.Inserting? ==> 1 <= |b.consumer.rows| <= 500)
            && (!b.consumer.MustFlush? ==> |b.batch| < 500)
  {
    if steps != [] {
      BatchBounded(steps[..|steps| - 1]);
    }
  }

  function Unstored(b: Bench): seq<Event> { b.dropped + b.batch + ConsumerRows(b.consumer) + b.mainRows }

  /** Over every interleaving, the event store is a permutation of what was
      received exactly when nothing is batched, being inserted, or dropped. */
  lemma StoreComplete(steps: seq<Step>)
    ensures SamePermutation(Run(steps).received, Run(steps).stored) <==> Unstored(Run(steps)) == []
  {
    var b := Run(steps);
    var u := Unstored(b);
    forall q
      ensures multiset(b.received)[q] == (multiset(b.stored) + multiset(u))[q]
    {
      RunConserves(steps, q);
      UnstoredCount(b, q);
    }
    assert multiset(b.received) == multiset(b.stored) + multiset(u);
    assert |multiset(b.stored) + multiset(u)| == |multiset(b.stored)| + |u|;
  }

  lemma UnstoredCount(b: Bench, q: Event)
    ensures multiset(Unstored(b))[q] ==
            multiset(b.dropped)[q] + multiset(b.batch)[q] + multiset(ConsumerRows(b.consumer))[q] + multiset(b.mainRows)[q]
  {
    CountConcat(b.dropped + b.batch + ConsumerRows(b.consumer), b.mainRows, q);
    CountConcat(b.dropped + b.batch, ConsumerRows(b.consumer), q);
    CountConcat(b.dropped, b.batch, q);
  }

  /** Once every received event has been applied and stored, the final
      comparison is exact for every clear segment, whatever order rows and
      batches took to reach the store. */
  lemma FinalDiffIsExact(segs: seq<Segment>, steps: seq<Step>, k: nat, asOf: int)
    requires Unstored(Run(steps)) == [] && Pending(Run(steps).consumer) == []
    requires DistinctIds(segs) && k < |segs| && Sane(segs[k]) && !segs[k].family.UnknownFamily?
    requires LogWellFormed(Run(steps).applied, asOf) && LogEdgeClear(Run(steps).applied, segs[k], asOf)
    ensures var b := Run(steps);
            Recompute(b.stored, segs[k], asOf) ==
            Ok(SMembers(Swept(segs, RunOps(segs, Applies(b.applied)), asOf).membersOf, segs[k].id))
  {
    var b := Run(steps);
    var any: Event :| true;
    RunConserves(steps, any);
    StoreComplete(steps);
    assert b.received == b.applied;
    FinalizedMatchesStore(segs, b.applied, b.stored, k, asOf);
  }

  /** The flush main makes once every event is consumed does not wait for a
      batch the consumer's ticker flush has already taken: the comparison can
      start with rows missing from the store. */
  lemma MainFlushDoesNotWait(e: Event) returns (steps: seq<Step>)
    ensures var b := Run(steps);
            && |b.applied| == |b.received| == 1 && b.batch == [] && b.mainRows == []
            && steps[|steps| - 1] == MainFlush && b.stored == []
  {
    steps := [Receive(e), ApplyPending, Tick, MainFlush];
    assert steps[..3] == [Receive(e), ApplyPending, Tick];
    assert steps[..3][..2] == [Receive(e), ApplyPending];
    assert steps[..3][..2][..1] == [Receive(e)];
    assert steps[..3][..2][..1][..0] == [];
    var b1 := Next(START, Receive(e));
    assert Run([Receive(e)]) == b1;
    var b2 := Next(b1, ApplyPending);
    assert Run([Receive(e), ApplyPending]) == b2;
    var b3 := Next(b2, Tick);
    assert Run([Receive(e), ApplyPending, Tick]) == b3;
    assert b3.consumer == Inserting([e], []) && b3.batch == [];
    assert Run(steps) == Next(b3, MainFlush);
  }

  /** The recompute's answer; empty for a family it does not know. */
  function Recomputed(stored: seq<Event>, seg: Segment, asOf: int): set<string> {
    var r := Recompute(stored, seg, asOf);
    if r.Ok? then r.value else {}
  }

  /** The family is known, and d counts the profiles whose own set lists the
      segment and the recompute does not select, and the other way round. */
  ghost predicate Measures(d: SegmentDiff, forward: Sets, stored: seq<Event>, seg: Segment, asOf: int) {
    var listed, recomputed := HoldersOf(forward, seg.id), Recomputed(stored, seg, asOf);
    && !seg.family.UnknownFamily?
    && d.onlyIncremental == |listed - recomputed| && d.onlyRecompute == |recomputed - listed|
  }

  lemma ExactMeansEqual(d: SegmentDiff, forward: Sets, stored: seq<Event>, seg: Segment, asOf: int)
    requires Measures(d, forward, stored, seg, asOf)
    ensures d.Exact() <==> HoldersOf(forward, seg.id) == Recomputed(stored, seg, asOf)
  {
    var listed, recomputed := HoldersOf(forward, seg.id), Recomputed(stored, seg, asOf);
    if d.Exact() {
      assert listed - recomputed == {} && recomputed - listed == {};
    }
  }

  /** One segment: what the engine lists against what the store's rows give. */
  method Compare(engine: IncrementalEngine, stored: seq<Event>, seg: Segment, asOf: int)
    returns (outcome: Result<SegmentDiff>)
    requires engine.Valid()
    ensures outcome.Err? <==> seg.family.UnknownFamily?
    ensures outcome.Ok? ==> Measures(outcome.value, engine.segmentsOf, stored, seg, asOf)
  {
    var members := engine.MembersOf(seg.id);
    assert members == HoldersOf(engine.segmentsOf, seg.id);
    match Recompute(stored, seg, asOf) {
      case Err(message) =>
        outcome := Err(message);
      case Ok(recomputed) =>
        var d := DiffSets(seg.id, members, recomputed);
        outcome := Ok(d);
    }
  }

  function ExactOf(): SegmentDiff -> bool { (d: SegmentDiff) => d.onlyIncremental == 0 && d.onlyRecompute == 0 }

  function PairsOf(): SegmentDiff -> int { (d: SegmentDiff) => d.onlyIncremental + d.onlyRecompute }

  /** One diff a segment, in order. */
  ghost predicate AllMeasured(diffs: seq<SegmentDiff>, forward: Sets, stored: seq<Event>, segs: seq<Segment>, asOf: int)
    decreases diffs
  {
    && |diffs| <= |segs|
    && (diffs != [] ==>
          && AllMeasured(diffs[..|diffs| - 1], forward, stored, segs, asOf)
          && Measures(diffs[|diffs| - 1], forward, stored, segs[|diffs| - 1], asOf))
  }

  lemma {:induction false} MeasuredAt(diffs: seq<SegmentDiff>, forward: Sets, stored: seq<Event>, segs: seq<Segment>,
                                      asOf: int, k: nat)
    requires AllMeasured(diffs, forward, stored, segs, asOf) && k < |diffs|
    ensures Measures(diffs[k], forward, stored, segs[k], asOf)
  {
    if k < |diffs| - 1 {
      MeasuredAt(diffs[..|diffs| - 1], forward, stored, segs, asOf, k);
    }
  }

  lemma OneMoreMeasured(diffs: seq<SegmentDiff>, d: SegmentDiff, forward: Sets, stored: seq<Event>, segs: seq<Segment>,
                        asOf: int)
    requires AllMeasured(diffs, forward, stored, segs, asOf) && |diffs| < |segs|
    requires Measures(d, forward, stored, segs[|diffs|], asOf)
    ensures AllMeasured(diffs + [d], forward, stored, segs, asOf)
  {
    assert (diffs + [d])[..|diffs|] == diffs;
  }

  lemma OneMoreCounted(diffs: seq<SegmentDiff>, d: SegmentDiff)
    ensures |Filter(diffs + [d], ExactOf())| == |Filter(diffs, ExactOf())| + (if d.Exact() then 1 else 0)
    ensures SumBy(diffs + [d], PairsOf()) == SumBy(diffs, PairsOf()) + d.onlyIncremental + d.onlyRecompute
  {
    FilterSnoc(diffs, d, ExactOf());
    assert (diffs + [d])[..|diffs|] == diffs;
  }

  /** The final loop; an unknown family ends it. exact counts the segments whose
      two sides are equal, mismatched (totalMismatch) adds up the pairs only one
      side lists. */
  method CompareAll(engine: IncrementalEngine, stored: seq<Event>, asOf: int)
    returns (exact: nat, mismatched: nat, ok: bool, ghost diffs: seq<SegmentDiff>)
    requires engine.Valid()
    ensures !ok ==> exists k :: 0 <= k < |engine.segments| && engine.segments[k].family.UnknownFamily?
    ensures ok ==> |diffs| == |engine.segments| && AllMeasured(diffs, engine.segmentsOf, stored, engine.segments, asOf)
    ensures ok ==> exact == |Filter(diffs, ExactOf())| && mismatched == SumBy(diffs, PairsOf())
  {
    exact, mismatched, ok, diffs := 0, 0, true, [];
    var segs := engine.segments;
    ghost var forward := engine.segmentsOf;
    for i := 0 to |segs|
      invariant ok && |diffs| == i
      invariant AllMeasured(diffs, forward, stored, segs, asOf)
      invariant exact == |Filter(diffs, ExactOf())| && mismatched == SumBy(diffs, PairsOf())
    {
      var outcome := Compare(engine, stored, segs[i], asOf);
      if outcome.Err? {
        ok := false;
        return;
      }
      OneMoreMeasured(diffs, outcome.value, forward, stored, segs, asOf);
      OneMoreCounted(diffs, outcome.value);
      diffs := diffs + [outcome.value];
      if outcome.value.Exact() {
        exact := exact + 1;
      } else {
        mismatched := mismatched + outcome.value.onlyIncremental + outcome.value.onlyRecompute;
      }
    }
  }

  /** Every segment exact, nothing mismatched, and every diff exact are the same. */
  lemma {:induction false} CountsAgree(diffs: seq<SegmentDiff>)
    ensures |Filter(diffs, ExactOf())| <= |diffs|
    ensures |Filter(diffs, ExactOf())| == |diffs| <==> forall k :: 0 <= k < |diffs| ==> diffs[k].Exact()
    ensures SumBy(diffs, PairsOf()) == 0 <==> forall k :: 0 <= k < |diffs| ==> diffs[k].Exact()
    ensures SumBy(diffs, PairsOf()) >= 0
  {
    if diffs != [] {
      var init := diffs[..|diffs| - 1];
      CountsAgree(init);
      assert forall k :: 0 <= k < |init| ==> init[k] == diffs[k];
    }
  }

  /** Feed the engine a log and Finalize it. */
  method ApplyLog(segs: seq<Segment>, applied: seq<Event>, asOf: int) returns (engine: IncrementalEngine)
    requires DistinctIds(segs)
    ensures fresh(engine) && engine.Valid() && engine.segments == segs
    ensures engine.State() == Swept(segs, RunOps(segs, Applies(applied)), asOf)
  {
    engine := new IncrementalEngine(segs);
    for i := 0 to |applied|
      invariant fresh(engine) && engine.Valid() && engine.segments == segs
      invariant engine.State() == RunOps(segs, Applies(applied[..i]))
    {
      AppliesSnoc(applied[..i], applied[i]);
      assert applied[..i + 1] == applied[..i] + [applied[i]];
      engine.ApplyEvent(applied[i]);
    }
    assert applied[..|applied|] == applied;
    var touched := engine.Finalize(asOf);
  }

  lemma FinalizedMatchesStore(segs: seq<Segment>, applied: seq<Event>, stored: seq<Event>, k: nat, asOf: int)
    requires DistinctIds(segs) && k < |segs| && Sane(segs[k]) && !segs[k].family.UnknownFamily?
    requires SamePermutation(applied, stored)
    requires LogWellFormed(applied, asOf) && LogEdgeClear(applied, segs[k], asOf)
    ensures Recompute(stored, segs[k], asOf) ==
            Ok(SMembers(Swept(segs, RunOps(segs, Applies(applied)), asOf).membersOf, segs[k].id))
  {
    AppliesLog(applied);
    FinalizeMatchesRecompute(segs, Applies(applied), k, asOf);
    RecomputePermutation(applied, stored, segs[k], asOf);
  }

  /** The whole check, on the engine itself: apply the log, Finalize as of asOf,
      compare every segment with a recompute over the store. */
  method Check(segs: seq<Segment>, applied: seq<Event>, stored: seq<Event>, asOf: int) returns (exact: nat)
    requires DistinctIds(segs) && forall k :: 0 <= k < |segs| ==> Sane(segs[k]) && !segs[k].family.UnknownFamily?
    requires SamePermutation(applied, stored) && LogWellFormed(applied, asOf)
    requires forall k :: 0 <= k < |segs| ==> LogEdgeClear(applied, segs[k], asOf)
    ensures exact == |segs|
  {
    var engine := ApplyLog(segs, applied, asOf);
    var mismatched, ok;
    ghost var diffs;
    exact, mismatched, ok, diffs := CompareAll(engine, stored, asOf);
    forall k | 0 <= k < |segs|
      ensures diffs[k].Exact()
    {
      FinalizedMatchesStore(segs, applied, stored, k, asOf);
      MeasuredAt(diffs, engine.segmentsOf, stored, segs, asOf, k);
      ExactMeansEqual(diffs[k], engine.segmentsOf, stored, segs[k], asOf);
      HoldersAreMembers(engine.State(), segs[k].id);
    }
    CountsAgree(diffs);
  }

  lemma HoldersAreMembers(st: Store, id: string)
    requires Indexed(st)
    ensures HoldersOf(st.segmentsOf, id) == SMembers(st.membersOf, id)
  {
    assert forall p :: p in HoldersOf(st.segmentsOf, id) <==> id in SMembers(st.segmentsOf, p);
    assert forall p :: id in SMembers(st.segmentsOf, p) <==> p in SMembers(st.membersOf, id);
  }

  lemma AppliesSnoc(log: seq<Event>, ev: Event)
    ensures Applies(log + [ev]) == Applies(log) + [Apply(ev)]
    ensures forall segs :: RunOps(segs, Applies(log + [ev])) == Applied(segs, RunOps(segs, Applies(log)), ev)
  {
    var ops := Applies(log + [ev]);
    assert ops == Applies(log) + [Apply(ev)];
    assert ops[..|ops| - 1] == Applies(log);
  }
}
