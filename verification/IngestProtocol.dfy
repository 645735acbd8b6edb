/** internal/ingest/pipeline.go as a step relation: any number of Ingest calls,
    one drainer, and a producer that may refuse, or land a reading and still
    report an error. A run is any sequence of steps; a step that is not
    enabled leaves the state alone. */
module IngestProtocol {
  import opened Bytes
  import opened IngestDedup
  import opened Reference
  import opened Sequences
  import opened Spools
  import opened Windows

  const DRAIN_CONCURRENCY := 32

  /** One drainOnce: what is still to launch, what is at the producer, what is
      on its way back to the spool, and what became of the rest. */
  datatype Round =
    | NoRound
    | Round(taken: seq<Reading>, queue: seq<Reading>, retrying: multiset<Reading>, respooling: multiset<Reading>,
            landed: multiset<Reading>, respooled: multiset<Reading>, dropped: multiset<Reading>)

  datatype Sys = Sys(
    seen: map<seq<byte>, Window<uint64>>,  // the dedup memory
    file: seq<byte>,                       // the spool file
    delivered: seq<Reading>,               // what the topic holds
    producing: multiset<Reading>,          // Ingest calls inside Produce
    spilling: multiset<Reading>,           // Ingest calls about to write the spool
    round: Round,
    offered: seq<Reading>,                 // every Ingest argument, in admission-lock order
    admitted: seq<Reading>,                // those Admit let through
    landedAnyway: multiset<Reading>,       // landings that were reported as errors
    lost: multiset<Reading>)               // readings whose spool write failed

  datatype Step =
    | Arrive(r: Reading)
    | ProduceOk(r: Reading)
    | ProduceErr(r: Reading, landed: bool)
    | Spill(r: Reading)
    | SpillFails(r: Reading)
    | TakeSpool
    | Launch
    | RetryOk(r: Reading)
    | RetryErr(r: Reading, landed: bool)
    | Respool(r: Reading)
    | RespoolFails(r: Reading)
    | EndRound

  datatype Config = Config(codec: Codec<Reading>, cap: nat)

  predicate Enabled(cf: Config, s: Sys, a: Step) {
    match a
    case Arrive(_) => true
    case ProduceOk(r) => r in s.producing
    case ProduceErr(r, _) => r in s.producing
    case Spill(r) => r in s.spilling && cf.codec.marshal(r).Some?
    case SpillFails(r) => r in s.spilling
    case TakeSpool => s.round.NoRound?
    case Launch => s.round.Round? && s.round.queue != [] && InFlight(s.round) < DRAIN_CONCURRENCY
    case RetryOk(r) => s.round.Round? && r in s.round.retrying
    case RetryErr(r, _) => s.round.Round? && r in s.round.retrying
    case Respool(r) => s.round.Round? && r in s.round.respooling && cf.codec.marshal(r).Some?
    case RespoolFails(r) => s.round.Round? && r in s.round.respooling
    case EndRound => s.round.Round? && s.round.queue == [] && InFlight(s.round) == 0
  }

  /** The steps of a drain round after the spool has been taken. */
  predicate RoundStep(a: Step) {
    a.Launch? || a.RetryOk? || a.RetryErr? || a.Respool? || a.RespoolFails? || a.EndRound?
  }

  /** Goroutines holding a semaphore slot: a slot is kept until the re-spool is done. */
  function InFlight(d: Round): nat {
    if d.NoRound? then 0 else |d.retrying| + |d.respooling|
  }

  function Do(cf: Config, s: Sys, a: Step): Sys
    requires Enabled(cf, s, a)
  {
    match a
    case Arrive(r) =>
      var (w, isNew) := AdmitKey(WindowOf(s.seen, r.deviceId), r.sequence, cf.cap);
      var s := s.(seen := s.seen[r.deviceId := w], offered := s.offered + [r]);
      if isNew then s.(admitted := s.admitted + [r], producing := s.producing + multiset{r}) else s
    case ProduceOk(r) =>
      s.(producing := s.producing - multiset{r}, delivered := s.delivered + [r])
    case ProduceErr(r, landed) =>
      Landing(s.(producing := s.producing - multiset{r}, spilling := s.spilling + multiset{r}), r, landed)
    case Spill(r) =>
      s.(spilling := s.spilling - multiset{r}, file := s.file + Frame(cf.codec.marshal(r).value))
    case SpillFails(r) =>
      s.(spilling := s.spilling - multiset{r}, lost := s.lost + multiset{r})
    case TakeSpool =>
      var rs := Parse(cf.codec, s.file);
      s.(file := [], round := Round(rs, rs, multiset{}, multiset{}, multiset{}, multiset{}, multiset{}))
    case Launch =>
      var d := s.round;
      s.(round := d.(queue := d.queue[1..], retrying := d.retrying + multiset{d.queue[0]}))
    case RetryOk(r) =>
      var d := s.round;
      s.(delivered := s.delivered + [r],
         round := d.(retrying := d.retrying - multiset{r}, landed := d.landed + multiset{r}))
    case RetryErr(r, landed) =>
      var d := s.round;
      Landing(s.(round := d.(retrying := d.retrying - multiset{r}, respooling := d.respooling + multiset{r})), r, landed)
    case Respool(r) =>
      var d := s.round;
      s.(file := s.file + Frame(cf.codec.marshal(r).value),
         round := d.(respooling := d.respooling - multiset{r}, respooled := d.respooled + multiset{r}))
    case RespoolFails(r) =>
      var d := s.round;
      s.(lost := s.lost + multiset{r},
         round := d.(respooling := d.respooling - multiset{r}, dropped := d.dropped + multiset{r}))
    case EndRound =>
      s.(round := NoRound)
  }

  /** An error report after which the reading is, or is not, on the topic. */
  function Landing(s: Sys, r: Reading, landed: bool): Sys {
    if landed then s.(delivered := s.delivered + [r], landedAnyway := s.landedAnyway + multiset{r}) else s
  }

  function Next(cf: Config, s: Sys, a: Step): Sys {
    if Enabled(cf, s, a) then Do(cf, s, a) else s
  }

  function RunFrom(cf: Config, s: Sys, steps: seq<Step>): Sys {
    if steps == [] then s else Next(cf, RunFrom(cf, s, steps[..|steps| - 1]), steps[|steps| - 1])
  }

  /** A fresh process on a spool file left by an earlier one. */
  function Start(existing: seq<byte>): Sys {
    Sys(map[], existing, [], multiset{}, multiset{}, NoRound, [], [], multiset{}, multiset{})
  }

  // ---- Conservation ----

  function RoundHeld(d: Round): multiset<Reading> {
    if d.NoRound? then multiset{} else multiset(d.queue) + d.retrying + d.respooling
  }

  function Spooled(cf: Config, s: Sys): multiset<Reading> { multiset(Parse(cf.codec, s.file)) }

  /** Everything admitted, or inherited with the spool file, is in exactly one
      place; a landing that was reported as an error is there once more. Stated
      for the copies of one reading q. */
  ghost predicate Conserved(cf: Config, existing: seq<byte>, s: Sys, q: Reading) {
    multiset(Parse(cf.codec, existing))[q] + multiset(s.admitted)[q] + s.landedAnyway[q] ==
    multiset(s.delivered)[q] + Spooled(cf, s)[q] + s.producing[q] + s.spilling[q] + RoundHeld(s.round)[q] + s.lost[q]
  }

  /** Each copy a round took is still held or has had exactly one outcome. */
  ghost predicate Accounted(d: Round, q: Reading) {
    d.Round? ==>
      multiset(d.taken)[q] == RoundHeld(d)[q] + d.landed[q] + d.respooled[q] + d.dropped[q]
  }

  ghost predicate Inv(cf: Config, s: Sys) {
    && WellFramed(cf.codec, s.file)
    && (s.round.Round? ==> |s.round.retrying| + |s.round.respooling| <= 32)
    && Memory(s.seen, s.admitted) == Offer(ByDevice(), cf.cap, s.offered)
  }

  lemma StepKeepsFraming(cf: Config, s: Sys, a: Step)
    requires Lawful(cf.codec) && WellFramed(cf.codec, s.file) && Enabled(cf, s, a)
    ensures WellFramed(cf.codec, Do(cf, s, a).file)
    ensures Spooled(cf, Do(cf, s, a)) ==
            if a.TakeSpool? then multiset{}
            else if a.Spill? || a.Respool? then Spooled(cf, s) + multiset{a.r}
            else Spooled(cf, s)
  {
    match a {
      case Spill(r) => WriteAppendsOneRecord(cf.codec, s.file, r);
      case Respool(r) => WriteAppendsOneRecord(cf.codec, s.file, r);
      case TakeSpool => EmptyFileIsWellFramed(cf.codec);
      case _ =>
    }
  }

  lemma LaunchHolds(d: Round)
    requires d.Round? && d.queue != []
    ensures RoundHeld(d.(queue := d.queue[1..], retrying := d.retrying + multiset{d.queue[0]})) == RoundHeld(d)
  {
    assert multiset(d.queue) == multiset{d.queue[0]} + multiset(d.queue[1..]) by {
      assert d.queue == [d.queue[0]] + d.queue[1..];
    }
  }

  lemma TakeOne(m: multiset<Reading>, r: Reading, q: Reading)
    requires r in m
    ensures (m - multiset{r})[q] == m[q] - multiset{r}[q]
  {
  }

  lemma LandingConserves(cf: Config, existing: seq<byte>, s: Sys, r: Reading, landed: bool, q: Reading)
    requires Conserved(cf, existing, s, q)
    ensures Conserved(cf, existing, Landing(s, r, landed), q)
  {
  }

  /** What Ingest calls do between Admit and the spool. */
  lemma CallStepConserves(cf: Config, existing: seq<byte>, s: Sys, a: Step, q: Reading)
    requires (a.Arrive? || a.ProduceOk? || a.ProduceErr?) && Enabled(cf, s, a)
    requires Conserved(cf, existing, s, q)
    ensures Conserved(cf, existing, Do(cf, s, a), q)
  {
    match a {
      case Arrive(r) =>
        assert multiset(s.admitted + [r])[q] == multiset(s.admitted)[q] + multiset{r}[q];
      case ProduceOk(r) =>
        TakeOne(s.producing, r, q);
        assert multiset(s.delivered + [r])[q] == multiset(s.delivered)[q] + multiset{r}[q];
      case ProduceErr(r, landed) =>
        TakeOne(s.producing, r, q);
        var t := s.(producing := s.producing - multiset{r}, spilling := s.spilling + multiset{r});
        LandingConserves(cf, existing, t, r, landed, q);
    }
  }

  lemma IngestStepConserves(cf: Config, existing: seq<byte>, s: Sys, a: Step, q: Reading)
    requires Lawful(cf.codec) && WellFramed(cf.codec, s.file) && Enabled(cf, s, a) && !RoundStep(a)
    requires Conserved(cf, existing, s, q)
    ensures Conserved(cf, existing, Do(cf, s, a), q)
  {
    match a {
      case Spill(r) =>
        StepKeepsFraming(cf, s, a);
        TakeOne(s.spilling, r, q);
      case SpillFails(r) => TakeOne(s.spilling, r, q);
      case TakeSpool => StepKeepsFraming(cf, s, a);
      case _ => CallStepConserves(cf, existing, s, a, q);
    }
  }

  /** What a round does at the producer. */
  lemma RetryStepConserves(cf: Config, existing: seq<byte>, s: Sys, a: Step, q: Reading)
    requires (a.RetryOk? || a.RetryErr?) && Enabled(cf, s, a)
    requires Conserved(cf, existing, s, q)
    ensures Conserved(cf, existing, Do(cf, s, a), q)
  {
    var d := s.round;
    TakeOne(d.retrying, a.r, q);
    match a {
      case RetryOk(r) =>
        assert multiset(s.delivered + [r])[q] == multiset(s.delivered)[q] + multiset{r}[q];
      case RetryErr(r, landed) =>
        var t := s.(round := d.(retrying := d.retrying - multiset{r}, respooling := d.respooling + multiset{r}));
        LandingConserves(cf, existing, t, r, landed, q);
    }
  }

  lemma RoundStepConserves(cf: Config, existing: seq<byte>, s: Sys, a: Step, q: Reading)
    requires Lawful(cf.codec) && WellFramed(cf.codec, s.file) && Enabled(cf, s, a) && RoundStep(a)
    requires Conserved(cf, existing, s, q)
    ensures Conserved(cf, existing, Do(cf, s, a), q)
  {
    match a {
      case Launch => LaunchHolds(s.round);
      case Respool(r) =>
        StepKeepsFraming(cf, s, a);
        TakeOne(s.round.respooling, r, q);
      case RespoolFails(r) => TakeOne(s.round.respooling, r, q);
      case EndRound =>
      case _ => RetryStepConserves(cf, existing, s, a, q);
    }
  }

  lemma RoundStepKeepsAccounts(cf: Config, s: Sys, a: Step, q: Reading)
    requires Enabled(cf, s, a) && RoundStep(a) && Accounted(s.round, q)
    ensures Accounted(Do(cf, s, a).round, q)
  {
    var d := s.round;
    match a {
      case Launch => LaunchHolds(d);
      case RetryOk(r) => TakeOne(d.retrying, r, q);
      case RetryErr(r, _) => TakeOne(d.retrying, r, q);
      case Respool(r) => TakeOne(d.respooling, r, q);
      case RespoolFails(r) => TakeOne(d.respooling, r, q);
      case EndRound =>
    }
  }

  lemma IngestStepKeepsAccounts(cf: Config, s: Sys, a: Step, q: Reading)
    requires Enabled(cf, s, a) && !RoundStep(a) && Accounted(s.round, q)
    ensures Accounted(Do(cf, s, a).round, q)
  {
    assert a.TakeSpool? || Do(cf, s, a).round == s.round;
  }

  lemma StepKeepsBound(cf: Config, s: Sys, a: Step)
    requires Enabled(cf, s, a) && InFlight(s.round) <= DRAIN_CONCURRENCY
    ensures InFlight(Do(cf, s, a).round) <= DRAIN_CONCURRENCY
  {
  }

  lemma StepKeepsMemory(cf: Config, s: Sys, a: Step)
    requires Enabled(cf, s, a)
    requires Memory(s.seen, s.admitted) == Offer(ByDevice(), cf.cap, s.offered)
    ensures var t := Do(cf, s, a); Memory(t.seen, t.admitted) == Offer(ByDevice(), cf.cap, t.offered)
  {
    if a.Arrive? {
      assert (s.offered + [a.r])[..|s.offered|] == s.offered;
    }
  }

  /** The invariant over every run, from any spool file an earlier process can have left. */
  lemma {:induction false} RunKeepsInvariant(cf: Config, existing: seq<byte>, steps: seq<Step>)
    requires Lawful(cf.codec) && WellFramed(cf.codec, existing)
    ensures Inv(cf, RunFrom(cf, Start(existing), steps))
  {
    if steps != [] {
      var s, a := RunFrom(cf, Start(existing), steps[..|steps| - 1]), steps[|steps| - 1];
      RunKeepsInvariant(cf, existing, steps[..|steps| - 1]);
      if Enabled(cf, s, a) {
        StepKeepsFraming(cf, s, a);
        StepKeepsBound(cf, s, a);
        StepKeepsMemory(cf, s, a);
      }
    }
  }

  /** Conservation over every run and schedule. */
  lemma {:induction false} RunConserves(cf: Config, existing: seq<byte>, steps: seq<Step>, q: Reading)
    requires Lawful(cf.codec) && WellFramed(cf.codec, existing)
    ensures Conserved(cf, existing, RunFrom(cf, Start(existing), steps), q)
    ensures Accounted(RunFrom(cf, Start(existing), steps).round, q)
  {
    if steps != [] {
      var s, a := RunFrom(cf, Start(existing), steps[..|steps| - 1]), steps[|steps| - 1];
      RunConserves(cf, existing, steps[..|steps| - 1], q);
      RunKeepsInvariant(cf, existing, steps[..|steps| - 1]);
      if Enabled(cf, s, a) {
        if RoundStep(a) {
          RoundStepConserves(cf, existing, s, a, q);
          RoundStepKeepsAccounts(cf, s, a, q);
        } else {
          IngestStepConserves(cf, existing, s, a, q);
          IngestStepKeepsAccounts(cf, s, a, q);
        }
      }
    }
  }

  // ---- Loss ----

  predicate SpoolNeverFails(steps: seq<Step>) {
    forall i :: 0 <= i < |steps| ==> !steps[i].SpillFails? && !steps[i].RespoolFails?
  }

  /** Every error report means the reading did not land. */
  predicate ErrorsAreHonest(steps: seq<Step>) {
    forall i :: 0 <= i < |steps| ==>
      (steps[i].ProduceErr? ==> !steps[i].landed) && (steps[i].RetryErr? ==> !steps[i].landed)
  }

  lemma {:induction false} OnlySpoolFailuresLose(cf: Config, s: Sys, steps: seq<Step>)
    requires SpoolNeverFails(steps)
    ensures RunFrom(cf, s, steps).lost == s.lost
  {
    if steps != [] {
      OnlySpoolFailuresLose(cf, s, steps[..|steps| - 1]);
    }
  }

  lemma {:induction false} HonestErrorsDoNotDuplicate(cf: Config, s: Sys, steps: seq<Step>)
    requires ErrorsAreHonest(steps)
    ensures RunFrom(cf, s, steps).landedAnyway == s.landedAnyway
  {
    if steps != [] {
      HonestErrorsDoNotDuplicate(cf, s, steps[..|steps| - 1]);
    }
  }

  /** What Ingest calls and the drain round hold between them. */
  function InHand(s: Sys): multiset<Reading> { s.producing + s.spilling + RoundHeld(s.round) }

  /** Inherited and admitted readings against everywhere they can be while the spool is empty. */
  lemma EmptySpoolBalance(cf: Config, existing: seq<byte>, steps: seq<Step>)
    requires Lawful(cf.codec) && WellFramed(cf.codec, existing)
    requires Parse(cf.codec, RunFrom(cf, Start(existing), steps).file) == []
    ensures var s := RunFrom(cf, Start(existing), steps);
            multiset(Parse(cf.codec, existing)) + multiset(s.admitted) + s.landedAnyway ==
            multiset(s.delivered) + InHand(s) + s.lost
  {
    var s := RunFrom(cf, Start(existing), steps);
    var held, owed := multiset(s.delivered) + InHand(s) + s.lost,
                      multiset(Parse(cf.codec, existing)) + multiset(s.admitted) + s.landedAnyway;
    forall q
      ensures held[q] == owed[q]
    {
      RunConserves(cf, existing, steps, q);
    }
    assert held == owed;
  }

  /** When an empty spool means the backlog is delivered. Over every run, while
      the spool is empty, the topic is a permutation of what was inherited and
      admitted exactly when the copies in hand or lost are matched by hidden
      landings; with working writes and honest errors, exactly when no Ingest
      call and no drain round holds anything. */
  lemma EmptySpoolMeansDelivered(cf: Config, existing: seq<byte>, steps: seq<Step>)
    requires Lawful(cf.codec) && WellFramed(cf.codec, existing)
    requires Parse(cf.codec, RunFrom(cf, Start(existing), steps).file) == []
    ensures var s := RunFrom(cf, Start(existing), steps);
            && (SamePermutation(s.delivered, Parse(cf.codec, existing) + s.admitted) <==>
                  InHand(s) + s.lost == s.landedAnyway)
            && (SpoolNeverFails(steps) && ErrorsAreHonest(steps) ==>
                  (SamePermutation(s.delivered, Parse(cf.codec, existing) + s.admitted) <==>
                     s.producing == multiset{} && s.spilling == multiset{} && RoundHeld(s.round) == multiset{}))
  {
    var s := RunFrom(cf, Start(existing), steps);
    EmptySpoolBalance(cf, existing, steps);
    CancelLeft(multiset(s.delivered), InHand(s) + s.lost,
               multiset(Parse(cf.codec, existing) + s.admitted), s.landedAnyway);
    if SpoolNeverFails(steps) && ErrorsAreHonest(steps) {
      OnlySpoolFailuresLose(cf, Start(existing), steps);
      HonestErrorsDoNotDuplicate(cf, Start(existing), steps);
      EmptySum(s.producing, s.spilling, RoundHeld(s.round));
    }
  }

  lemma EmptySum(a: multiset<Reading>, b: multiset<Reading>, c: multiset<Reading>)
    ensures a + b + c == multiset{} <==> a == multiset{} && b == multiset{} && c == multiset{}
  {
    assert |a + b + c| == |a| + |b| + |c|;
  }

  /** Nothing in flight and an empty spool. */
  predicate Quiescent(cf: Config, s: Sys) {
    s.producing == multiset{} && s.spilling == multiset{} && s.round.NoRound? && Parse(cf.codec, s.file) == []
  }

  /** At rest, with an empty spool, the same balance with nothing in hand. */
  lemma QuiescentBalance(cf: Config, existing: seq<byte>, steps: seq<Step>)
    requires Lawful(cf.codec) && WellFramed(cf.codec, existing)
    requires Quiescent(cf, RunFrom(cf, Start(existing), steps))
    ensures var s := RunFrom(cf, Start(existing), steps);
            && multiset(s.delivered) + s.lost == multiset(Parse(cf.codec, existing) + s.admitted) + s.landedAnyway
            && s.admitted == Offer(ByDevice(), cf.cap, s.offered).admitted
  {
    RunKeepsInvariant(cf, existing, steps);
    EmptySpoolBalance(cf, existing, steps);
    assert InHand(RunFrom(cf, Start(existing), steps)) == multiset{};
  }

  /** At least once: at quiescence every inherited and admitted copy is on the
      topic exactly when hidden landings make up for the failed spool writes;
      so whenever no write failed. */
  lemma AtLeastOnce(cf: Config, existing: seq<byte>, steps: seq<Step>)
    requires Lawful(cf.codec) && WellFramed(cf.codec, existing)
    requires Quiescent(cf, RunFrom(cf, Start(existing), steps))
    ensures var s := RunFrom(cf, Start(existing), steps);
            && (multiset(Parse(cf.codec, existing) + s.admitted) <= multiset(s.delivered) <==> s.lost <= s.landedAnyway)
            && (SpoolNeverFails(steps) ==> multiset(Parse(cf.codec, existing) + s.admitted) <= multiset(s.delivered))
  {
    var s := RunFrom(cf, Start(existing), steps);
    QuiescentBalance(cf, existing, steps);
    CancelLeft(multiset(Parse(cf.codec, existing) + s.admitted), s.landedAnyway, multiset(s.delivered), s.lost);
    if SpoolNeverFails(steps) {
      OnlySpoolFailuresLose(cf, Start(existing), steps);
    }
  }

  /** Exactly once, precisely when the hidden landings are the copies lost; with
      working writes, precisely when no error report hid a landing. */
  lemma ExactlyOnce(cf: Config, existing: seq<byte>, steps: seq<Step>)
    requires Lawful(cf.codec) && WellFramed(cf.codec, existing)
    requires Quiescent(cf, RunFrom(cf, Start(existing), steps))
    ensures var s := RunFrom(cf, Start(existing), steps);
            var exact := SamePermutation(s.delivered, Parse(cf.codec, existing) + s.admitted);
            && (exact <==> s.landedAnyway == s.lost)
            && (SpoolNeverFails(steps) ==> (exact <==> s.landedAnyway == multiset{}))
  {
    var s := RunFrom(cf, Start(existing), steps);
    QuiescentBalance(cf, existing, steps);
    CancelLeft(multiset(s.delivered), s.lost, multiset(Parse(cf.codec, existing) + s.admitted), s.landedAnyway);
    if SpoolNeverFails(steps) {
      OnlySpoolFailuresLose(cf, Start(existing), steps);
    }
  }

  /** The replay claim. At quiescence, over every schedule, the topic is what the
      spool file held and the reference dedup of what was offered exactly when
      readmissions and hidden landings are the copies lost; with working writes,
      exactly when no landing was hidden and duplicates stay in the window. */
  lemma ReplayMatchesReference(cf: Config, existing: seq<byte>, steps: seq<Step>)
    requires Lawful(cf.codec) && WellFramed(cf.codec, existing)
    requires Quiescent(cf, RunFrom(cf, Start(existing), steps))
    ensures var s := RunFrom(cf, Start(existing), steps);
            var matches :=
              SamePermutation(s.delivered, Parse(cf.codec, existing) + FirstOccurrences(ByDevice(), s.offered));
            && (matches <==> Readmitted(ByDevice(), cf.cap, s.offered) + s.landedAnyway == s.lost)
            && (SpoolNeverFails(steps) ==>
                  (matches <==> s.landedAnyway == multiset{} && DuplicatesInWindow(ByDevice(), s.offered, cf.cap)))
  {
    var s := RunFrom(cf, Start(existing), steps);
    var inherited, reference := Parse(cf.codec, existing), FirstOccurrences(ByDevice(), s.offered);
    var again := Readmitted(ByDevice(), cf.cap, s.offered);
    QuiescentBalance(cf, existing, steps);
    ReadmittedExactly(ByDevice(), cf.cap, s.offered);
    assert multiset(inherited + s.admitted) == multiset(inherited + reference) + again;
    CancelLeft(multiset(s.delivered), s.lost, multiset(inherited + reference), again + s.landedAnyway);
    if SpoolNeverFails(steps) {
      OnlySpoolFailuresLose(cf, Start(existing), steps);
      assert |again + s.landedAnyway| == |again| + |s.landedAnyway|;
    }
  }

  /** A permutation of readings without repeated keys gives the hash the same bytes ... */
  lemma SameTopicSameBytes(delivered: seq<Reading>, reference: seq<Reading>)
    requires SamePermutation(delivered, reference) && DistinctKeys(ByDevice(), reference)
    ensures Serialize(SortReadings(delivered)) == Serialize(SortReadings(reference))
  {
    DistinctIsCoherent(reference);
    SortReadingsSorts(delivered);
    SortReadingsSorts(reference);
    DigestOrderIndependent(reference, SortReadings(delivered), SortReadings(reference));
  }

  /** ... and more readings give it more bytes. */
  lemma HeavierTopicMoreBytes(delivered: seq<Reading>, reference: seq<Reading>)
    requires SumBy(delivered, RecordSize()) > SumBy(reference, RecordSize())
    ensures Serialize(SortReadings(delivered)) != Serialize(SortReadings(reference))
  {
    SortReadingsSorts(delivered);
    SortReadingsSorts(reference);
    SerializedSize(SortReadings(delivered), delivered);
    SerializedSize(SortReadings(reference), reference);
  }

  lemma WeightWithHidden(delivered: seq<Reading>, admitted: seq<Reading>, hidden: multiset<Reading>)
    requires multiset(delivered) == multiset(admitted) + hidden
    ensures SumBy(delivered, RecordSize()) >= SumBy(admitted, RecordSize())
    ensures hidden != multiset{} ==> SumBy(delivered, RecordSize()) > SumBy(admitted, RecordSize())
  {
    var h := Listing(hidden);
    assert multiset(admitted + h) == multiset(delivered);
    SumByPermutation(delivered, admitted + h, RecordSize());
    SumByConcat(admitted, h, RecordSize());
    SumByPositive(h, RecordSize());
    if h != [] {
      assert RecordSize()(h[0]) > 0;
    }
  }

  /** ... and, from an empty spool with working writes, that is exactly when the
      two digests are taken of the same bytes: otherwise the topic has strictly
      more to hash. */
  lemma ReplayDigestsAgree(cf: Config, steps: seq<Step>, sha: seq<byte> -> seq<byte>)
    requires Lawful(cf.codec) && SpoolNeverFails(steps)
    requires Quiescent(cf, RunFrom(cf, Start([]), steps))
    ensures var s := RunFrom(cf, Start([]), steps);
            var topic := Serialize(SortReadings(s.delivered));
            var reference := Serialize(SortReadings(FirstOccurrences(ByDevice(), s.offered)));
            var replayed := s.landedAnyway == multiset{} && DuplicatesInWindow(ByDevice(), s.offered, cf.cap);
            && (topic == reference <==> replayed)
            && (replayed ==> sha(topic) == sha(reference))
  {
    var s := RunFrom(cf, Start([]), steps);
    var reference := FirstOccurrences(ByDevice(), s.offered);
    EmptyFileIsWellFramed(cf.codec);
    if s.landedAnyway == multiset{} && DuplicatesInWindow(ByDevice(), s.offered, cf.cap) {
      ReplayMatchesReference(cf, [], steps);
      ReferenceKeepsEachKeyOnce(ByDevice(), s.offered);
      assert [] + reference == reference;
      SameTopicSameBytes(s.delivered, reference);
    } else {
      QuiescentBalance(cf, [], steps);
      OnlySpoolFailuresLose(cf, Start([]), steps);
      assert [] + s.admitted == s.admitted;
      assert multiset(s.delivered) + multiset{} == multiset(s.delivered);
      WeightWithHidden(s.delivered, s.admitted, s.landedAnyway);
      AdmittedOutweighsReference(ByDevice(), cf.cap, s.offered, RecordSize());
      HeavierTopicMoreBytes(s.delivered, reference);
    }
  }

  // ---- What does not hold ----

  ghost predicate LeadsTo(cf: Config, from: Sys, steps: seq<Step>, s: Sys) {
    RunFrom(cf, from, steps) == s
  }

  lemma Extend(cf: Config, from: Sys, steps: seq<Step>, s: Sys, a: Step, t: Sys)
    requires LeadsTo(cf, from, steps, s) && Next(cf, s, a) == t
    ensures LeadsTo(cf, from, steps + [a], t)
  {
    assert (steps + [a])[..|steps|] == steps;
  }

  lemma {:induction false} RunConcat(cf: Config, s: Sys, before: seq<Step>, after: seq<Step>)
    ensures RunFrom(cf, s, before + after) == RunFrom(cf, RunFrom(cf, s, before), after)
  {
    if after == [] {
      assert before + after == before;
    } else {
      assert (before + after)[..|before + after| - 1] == before + after[..|after| - 1];
      RunConcat(cf, s, before, after[..|after| - 1]);
    }
  }

  lemma Join(cf: Config, from: Sys, before: seq<Step>, s: Sys, after: seq<Step>, t: Sys)
    requires LeadsTo(cf, from, before, s) && LeadsTo(cf, s, after, t)
    ensures LeadsTo(cf, from, before + after, t)
  {
    RunConcat(cf, from, before, after);
  }

  /** A state with nothing outside the topic and the spool file. */
  ghost predicate Resting(s: Sys, offered: seq<Reading>, delivered: seq<Reading>) {
    && s.producing == s.spilling == multiset{} && s.round.NoRound?
    && s.offered == s.admitted == offered && s.delivered == delivered
  }

  lemma ArrivalAdmitted(cf: Config, r: Reading)
    ensures var s := Next(cf, Start([]), Arrive(r));
            s == Start([]).(seen := s.seen, offered := [r], admitted := [r], producing := multiset{r})
  {
    assert [] + [r] == [r];
    assert multiset{} + multiset{r} == multiset{r};
  }

  lemma RefusedThenSpilled(cf: Config, s: Sys, r: Reading, landed: bool)
    requires cf.codec.marshal(r).Some? && s.producing == multiset{r} && s.spilling == multiset{}
    ensures Next(cf, Next(cf, s, ProduceErr(r, landed)), Spill(r)) ==
            Landing(s, r, landed).(producing := multiset{}, file := s.file + Frame(cf.codec.marshal(r).value))
  {
    var t := Next(cf, s, ProduceErr(r, landed));
    assert t.producing == multiset{} && t.spilling == multiset{r};
    assert t.spilling - multiset{r} == multiset{};
  }

  lemma RefusedOnArrival(cf: Config, r: Reading, landed: bool) returns (steps: seq<Step>, s: Sys)
    requires cf.codec.marshal(r).Some?
    ensures LeadsTo(cf, Start([]), steps, s)
    ensures SpoolNeverFails(steps) && (!landed ==> ErrorsAreHonest(steps))
    ensures Resting(s, [r], if landed then [r] else []) && s.file == [] + Frame(cf.codec.marshal(r).value)
  {
    var s0 := Start([]);
    var s1 := Next(cf, s0, Arrive(r));
    var s2 := Next(cf, s1, ProduceErr(r, landed));
    s := Next(cf, s2, Spill(r));
    ArrivalAdmitted(cf, r);
    RefusedThenSpilled(cf, s1, r, landed);
    var none: seq<Step> := [];
    Extend(cf, Start([]), none, s0, Arrive(r), s1);
    Extend(cf, Start([]), none + [Arrive(r)], s1, ProduceErr(r, landed), s2);
    Extend(cf, Start([]), none + [Arrive(r)] + [ProduceErr(r, landed)], s2, Spill(r), s);
    steps := none + [Arrive(r)] + [ProduceErr(r, landed)] + [Spill(r)];
  }

  lemma TakeOneSpilled(cf: Config, s: Sys, r: Reading)
    requires Lawful(cf.codec) && cf.codec.marshal(r).Some?
    requires s.round.NoRound? && s.file == [] + Frame(cf.codec.marshal(r).value)
    ensures Next(cf, s, TakeSpool) ==
            s.(file := [], round := Round([r], [r], multiset{}, multiset{}, multiset{}, multiset{}, multiset{}))
  {
    EmptyFileIsWellFramed(cf.codec);
    WriteAppendsOneRecord(cf.codec, [], r);
    assert Parse(cf.codec, s.file) == [] + [r] == [r];
  }

  /** Refuse one arrival, spill it, let a drain round take it. */
  lemma SpilledRun(cf: Config, r: Reading, landed: bool) returns (steps: seq<Step>, s: Sys)
    requires Lawful(cf.codec) && cf.codec.marshal(r).Some?
    ensures SpoolNeverFails(steps) && (!landed ==> ErrorsAreHonest(steps))
    ensures LeadsTo(cf, Start([]), steps, s)
    ensures s.round == Round([r], [r], multiset{}, multiset{}, multiset{}, multiset{}, multiset{})
    ensures s.file == [] && Resting(s.(round := NoRound), [r], if landed then [r] else [])
  {
    var before, s0 := RefusedOnArrival(cf, r, landed);
    TakeOneSpilled(cf, s0, r);
    s := Next(cf, s0, TakeSpool);
    steps := before + [TakeSpool];
    Extend(cf, Start([]), before, s0, TakeSpool, s);
  }

  /** An empty spool file (SizeBytes == 0) does not mean the backlog is
      delivered: a drain round may be holding all of it. */
  lemma EmptySpoolIsNotDelivered(cf: Config, r: Reading) returns (steps: seq<Step>)
    requires Lawful(cf.codec) && cf.codec.marshal(r).Some?
    ensures SpoolNeverFails(steps) && ErrorsAreHonest(steps)
    ensures var s := RunFrom(cf, Start([]), steps); s.file == [] && s.admitted == [r] && s.delivered == []
  {
    var s;
    steps, s := SpilledRun(cf, r, false);
  }

  /** A Produce that times out after the broker took the reading delivers it twice. */
  lemma TimeoutAfterLandingDeliversTwice(cf: Config, r: Reading) returns (steps: seq<Step>)
    requires Lawful(cf.codec) && cf.codec.marshal(r).Some?
    ensures SpoolNeverFails(steps)
    ensures var s := RunFrom(cf, Start([]), steps);
            Quiescent(cf, s) && s.offered == [r] && s.delivered == [r, r]
  {
    var before, s0 := SpilledRun(cf, r, true);
    var s1 := Next(cf, s0, Launch);
    var s2 := Next(cf, s1, RetryOk(r));
    var s3 := Next(cf, s2, EndRound);
    Extend(cf, Start([]), before, s0, Launch, s1);
    Extend(cf, Start([]), before + [Launch], s1, RetryOk(r), s2);
    Extend(cf, Start([]), before + [Launch] + [RetryOk(r)], s2, EndRound, s3);
    steps := before + [Launch] + [RetryOk(r)] + [EndRound];
    EmptyFileIsWellFramed(cf.codec);
    RetriedAndDone(cf, s0, r);
  }

  lemma RetriedAndDone(cf: Config, s: Sys, r: Reading)
    requires s.round == Round([r], [r], multiset{}, multiset{}, multiset{}, multiset{}, multiset{})
    ensures Next(cf, Next(cf, Next(cf, s, Launch), RetryOk(r)), EndRound) ==
            s.(round := NoRound, delivered := s.delivered + [r])
  {
    var none: multiset<Reading> := multiset{};
    var t := Next(cf, s, Launch);
    assert s.round.queue[1..] == [] && none + multiset{r} == multiset{r};
    assert t == s.(round := Round([r], [], multiset{r}, none, none, none, none));
    var u := Next(cf, t, RetryOk(r));
    assert multiset{r} - multiset{r} == none;
    assert u == s.(delivered := s.delivered + [r], round := Round([r], [], none, none, multiset{r}, none, none));
    assert InFlight(u.round) == 0;
  }

  /** A failed re-spool, which is only logged, drops an admitted reading. */
  lemma FailedRespoolDrops(cf: Config, r: Reading) returns (steps: seq<Step>)
    requires Lawful(cf.codec) && cf.codec.marshal(r).Some?
    ensures var s := RunFrom(cf, Start([]), steps);
            Quiescent(cf, s) && s.landedAnyway == multiset{} && s.admitted == [r] && s.delivered == []
  {
    var before, s := SpilledRun(cf, r, false);
    var after, t := DroppedAndDone(cf, s, r);
    Join(cf, Start([]), before, s, after, t);
    steps := before + after;
    HonestErrorsDoNotDuplicate(cf, Start([]), before);
    EmptyFileIsWellFramed(cf.codec);
  }

  lemma OneLaunched(cf: Config, s: Sys, r: Reading)
    requires s.round == Round([r], [r], multiset{}, multiset{}, multiset{}, multiset{}, multiset{})
    ensures Next(cf, s, Launch) ==
            s.(round := Round([r], [], multiset{r}, multiset{}, multiset{}, multiset{}, multiset{}))
  {
    assert s.round.queue[1..] == [];
    assert multiset{} + multiset{r} == multiset{r};
  }

  lemma OneRefused(cf: Config, s: Sys, r: Reading)
    requires s.round == Round([r], [], multiset{r}, multiset{}, multiset{}, multiset{}, multiset{})
    ensures Next(cf, s, RetryErr(r, false)) ==
            s.(round := Round([r], [], multiset{}, multiset{r}, multiset{}, multiset{}, multiset{}))
  {
    assert multiset{} + multiset{r} == multiset{r};
    assert multiset{r} - multiset{r} == multiset{};
  }

  lemma OneDropped(cf: Config, s: Sys, r: Reading)
    requires s.round == Round([r], [], multiset{}, multiset{r}, multiset{}, multiset{}, multiset{})
    ensures Next(cf, s, RespoolFails(r)) ==
            s.(lost := s.lost + multiset{r},
               round := Round([r], [], multiset{}, multiset{}, multiset{}, multiset{}, multiset{r}))
  {
    assert multiset{} + multiset{r} == multiset{r};
    assert multiset{r} - multiset{r} == multiset{};
  }

  lemma DroppedAndDone(cf: Config, s: Sys, r: Reading) returns (steps: seq<Step>, t: Sys)
    requires s.round == Round([r], [r], multiset{}, multiset{}, multiset{}, multiset{}, multiset{})
    ensures t == s.(round := NoRound, lost := s.lost + multiset{r}) && LeadsTo(cf, s, steps, t)
  {
    var none: seq<Step> := [];
    var s1 := Next(cf, s, Launch);
    var s2 := Next(cf, s1, RetryErr(r, false));
    var s3 := Next(cf, s2, RespoolFails(r));
    OneLaunched(cf, s, r);
    OneRefused(cf, s1, r);
    OneDropped(cf, s2, r);
    t := Next(cf, s3, EndRound);
    Extend(cf, s, none, s, Launch, s1);
    Extend(cf, s, none + [Launch], s1, RetryErr(r, false), s2);
    Extend(cf, s, none + [Launch] + [RetryErr(r, false)], s2, RespoolFails(r), s3);
    Extend(cf, s, none + [Launch] + [RetryErr(r, false)] + [RespoolFails(r)], s3, EndRound, t);
    steps := none + [Launch] + [RetryErr(r, false)] + [RespoolFails(r)] + [EndRound];
    assert InFlight(s3.round) == 0;
  }

  // ---- The drain round ----

  function Remaining(d: Round): nat {
    if d.NoRound? then 0 else 1 + 3 * |d.queue| + 2 * |d.retrying| + |d.respooling|
  }

  /** Never more than 32 goroutines of a round at the producer or re-spooling, under any schedule. */
  lemma DrainIsBounded(cf: Config, existing: seq<byte>, steps: seq<Step>)
    requires Lawful(cf.codec) && WellFramed(cf.codec, existing)
    ensures var d := RunFrom(cf, Start(existing), steps).round;
            d.Round? ==> |d.retrying| + |d.respooling| <= 32
  {
    RunKeepsInvariant(cf, existing, steps);
  }

  /** ... and the slots are there to be used: a round may launch its next record
      exactly while fewer than 32 are taken, and end exactly when all is done. */
  lemma LaunchExactly(cf: Config, s: Sys)
    ensures Enabled(cf, s, Launch) <==>
            s.round.Round? && |s.round.queue| > 0 && |s.round.retrying| + |s.round.respooling| < 32
    ensures Enabled(cf, s, EndRound) <==>
            s.round.Round? && s.round.queue == [] && s.round.retrying == s.round.respooling == multiset{}
  {
  }

  /** So a round of 32 records or more reaches 32 retries at once. */
  lemma {:induction false} AllSlotsUsed(cf: Config, s: Sys, n: nat) returns (steps: seq<Step>)
    requires s.round.Round? && s.round.respooling == s.round.retrying == multiset{}
    requires n <= 32 && n <= |s.round.queue|
    ensures var t := RunFrom(cf, s, steps);
            t.round.Round? && |t.round.retrying| == n && t.round.respooling == multiset{} &&
            t.round.queue == s.round.queue[n..] && multiset(s.round.queue[..n]) == t.round.retrying
  {
    if n == 0 {
      steps := [];
      assert s.round.queue[..0] == [];
    } else {
      steps := AllSlotsUsed(cf, s, n - 1);
      var t := RunFrom(cf, s, steps);
      LaunchExactly(cf, t);
      assert s.round.queue[..n] == s.round.queue[..n - 1] + [s.round.queue[n - 1]];
      assert (steps + [Launch])[..|steps|] == steps;
      steps := steps + [Launch];
    }
  }

  /** Each step of a round brings its end closer, whatever the producer answers;
      Ingest calls running beside it do not set it back. */
  lemma RoundMakesProgress(cf: Config, s: Sys, a: Step)
    requires Enabled(cf, s, a) && s.round.Round?
    ensures RoundStep(a) ==> Remaining(Do(cf, s, a).round) < Remaining(s.round)
    ensures !RoundStep(a) ==> Do(cf, s, a).round == s.round
  {
  }

  /** A round that has not ended can always move. */
  lemma RoundNeverStuck(cf: Config, s: Sys) returns (a: Step)
    requires s.round.Round?
    ensures RoundStep(a) && Enabled(cf, s, a)
  {
    var d := s.round;
    if d.retrying != multiset{} {
      var r :| r in d.retrying;
      a := RetryErr(r, false);
    } else if d.respooling != multiset{} {
      var r :| r in d.respooling;
      a := if cf.codec.marshal(r).Some? then Respool(r) else RespoolFails(r);
    } else if d.queue != [] {
      a := Launch;
    } else {
      a := EndRound;
    }
  }

  predicate AllEnabled(cf: Config, s: Sys, steps: seq<Step>) {
    forall i :: 0 <= i < |steps| ==> Enabled(cf, RunFrom(cf, s, steps[..i]), steps[i])
  }

  /** So a round takes at most Remaining steps of its own, however its steps
      interleave with the Ingest calls' steps. */
  lemma {:induction false} RoundTerminates(cf: Config, s: Sys, steps: seq<Step>)
    requires s.round.Round? && AllEnabled(cf, s, steps)
    requires forall i :: 0 <= i < |steps| ==> RunFrom(cf, s, steps[..i]).round.Round?
    ensures |Filter(steps, (a: Step) => RoundStep(a))| + Remaining(RunFrom(cf, s, steps).round) <=
            1 + 3 * |s.round.queue| + 2 * |s.round.retrying| + |s.round.respooling|
  {
    if steps != [] {
      var init, a := steps[..|steps| - 1], steps[|steps| - 1];
      assert forall i :: 0 <= i < |init| ==> init[..i] == steps[..i];
      RoundTerminates(cf, s, init);
      RoundMakesProgress(cf, RunFrom(cf, s, init), a);
    }
  }

  /** When a round ends, each taken record has had exactly one outcome. */
  lemma RoundOutcomes(cf: Config, existing: seq<byte>, steps: seq<Step>)
    requires Lawful(cf.codec) && WellFramed(cf.codec, existing)
    requires Enabled(cf, RunFrom(cf, Start(existing), steps), EndRound)
    ensures var d := RunFrom(cf, Start(existing), steps).round;
            forall q: Reading :: multiset(d.taken)[q] == d.landed[q] + d.respooled[q] + d.dropped[q]
  {
    var d := RunFrom(cf, Start(existing), steps).round;
    forall q: Reading
      ensures multiset(d.taken)[q] == d.landed[q] + d.respooled[q] + d.dropped[q]
    {
      RunConserves(cf, existing, steps, q);
    }
  }

  // ---- Recovery ----

  /** Every record still to be written to the spool can be marshalled. */
  ghost predicate Spillable(cf: Config, s: Sys) {
    && (forall r :: r in s.spilling ==> cf.codec.marshal(r).Some?)
    && (s.round.Round? ==> forall r :: r in s.round.respooling ==> cf.codec.marshal(r).Some?)
  }

  /** A step in which the producer accepts and the spool write succeeds. */
  predicate Succeeds(a: Step) {
    a.ProduceOk? || a.Spill? || a.TakeSpool? || a.Launch? || a.RetryOk? || a.Respool? || a.EndRound?
  }

  /** How many successful steps may still be needed. */
  function Outstanding(cf: Config, s: Sys): nat {
    |s.producing| + 5 * |s.spilling| + 4 * |Parse(cf.codec, s.file)| +
    if s.round.NoRound? then 0 else 1 + 2 * |s.round.queue| + |s.round.retrying| + 5 * |s.round.respooling|
  }

  lemma SuccessfulIngestStep(cf: Config, s: Sys) returns (a: Step)
    requires Lawful(cf.codec) && WellFramed(cf.codec, s.file) && Spillable(cf, s)
    requires s.producing != multiset{} || s.spilling != multiset{}
    ensures Succeeds(a) && Enabled(cf, s, a)
    ensures Outstanding(cf, Do(cf, s, a)) < Outstanding(cf, s) && Spillable(cf, Do(cf, s, a))
  {
    if s.producing != multiset{} {
      var r :| r in s.producing;
      a := ProduceOk(r);
    } else {
      var r :| r in s.spilling;
      a := Spill(r);
      WriteAppendsOneRecord(cf.codec, s.file, r);
    }
  }

  lemma SuccessfulRoundStep(cf: Config, s: Sys) returns (a: Step)
    requires Lawful(cf.codec) && WellFramed(cf.codec, s.file) && Spillable(cf, s) && s.round.Round?
    ensures Succeeds(a) && Enabled(cf, s, a)
    ensures Outstanding(cf, Do(cf, s, a)) < Outstanding(cf, s) && Spillable(cf, Do(cf, s, a))
  {
    var d := s.round;
    if d.retrying != multiset{} {
      var r :| r in d.retrying;
      a := RetryOk(r);
    } else if d.respooling != multiset{} {
      var r :| r in d.respooling;
      a := Respool(r);
      WriteAppendsOneRecord(cf.codec, s.file, r);
    } else if d.queue != [] {
      a := Launch;
    } else {
      a := EndRound;
    }
  }

  /** Short of quiescence some successful step is enabled and brings it closer. */
  lemma SuccessfulStep(cf: Config, s: Sys) returns (a: Step)
    requires Lawful(cf.codec) && WellFramed(cf.codec, s.file) && Spillable(cf, s) && !Quiescent(cf, s)
    ensures Succeeds(a) && Enabled(cf, s, a)
    ensures Outstanding(cf, Do(cf, s, a)) < Outstanding(cf, s) && Spillable(cf, Do(cf, s, a))
  {
    if s.producing != multiset{} || s.spilling != multiset{} {
      a := SuccessfulIngestStep(cf, s);
    } else if s.round.Round? {
      a := SuccessfulRoundStep(cf, s);
    } else {
      a := TakeSpool;
      EmptyFileIsWellFramed(cf.codec);
    }
  }

  /** Admissions, losses and hidden landings are as they were. */
  predicate SameAccounts(s: Sys, t: Sys) {
    t.offered == s.offered && t.admitted == s.admitted && t.lost == s.lost && t.landedAnyway == s.landedAnyway
  }

  lemma SuccessKeepsAccounts(cf: Config, s: Sys, a: Step)
    requires Succeeds(a) && Enabled(cf, s, a)
    ensures SameAccounts(s, Do(cf, s, a))
  {
  }

  ghost predicate Recovering(cf: Config, s: Sys) {
    Lawful(cf.codec) && WellFramed(cf.codec, s.file) && Spillable(cf, s)
  }

  /** A successful step out of s, with everything it keeps. */
  ghost predicate Nearer(cf: Config, s: Sys, a: Step, t: Sys) {
    && Succeeds(a) && Next(cf, s, a) == t && Recovering(cf, t) && SameAccounts(s, t)
    && Outstanding(cf, t) < Outstanding(cf, s)
  }

  lemma StepNearer(cf: Config, s: Sys) returns (a: Step, t: Sys)
    requires Recovering(cf, s) && !Quiescent(cf, s)
    ensures Nearer(cf, s, a, t)
  {
    a := SuccessfulStep(cf, s);
    t := Do(cf, s, a);
    StepKeepsFraming(cf, s, a);
    SuccessKeepsAccounts(cf, s, a);
  }

  lemma RunOne(cf: Config, s: Sys, a: Step, rest: seq<Step>)
    ensures RunFrom(cf, s, [a] + rest) == RunFrom(cf, Next(cf, s, a), rest)
  {
    RunConcat(cf, s, [a], rest);
    assert [a][..0] == [];
  }

  lemma {:induction false} SuccessReachesQuiescence(cf: Config, s: Sys) returns (steps: seq<Step>, end: Sys)
    requires Recovering(cf, s)
    ensures |steps| <= Outstanding(cf, s) && forall i :: 0 <= i < |steps| ==> Succeeds(steps[i])
    ensures end == RunFrom(cf, s, steps) && Quiescent(cf, end) && SameAccounts(s, end)
    decreases Outstanding(cf, s)
  {
    if Quiescent(cf, s) {
      steps, end := [], s;
    } else {
      var a, t := StepNearer(cf, s);
      var rest;
      rest, end := SuccessReachesQuiescence(cf, t);
      steps := [a] + rest;
      RunOne(cf, s, a, rest);
    }
  }

  /** Recovery: from any state a run can reach, a bounded number of successful
      steps reaches quiescence, with every inherited or admitted copy that was
      not lost on the topic, and hidden landings once more. */
  lemma RecoveryDelivers(cf: Config, existing: seq<byte>, steps: seq<Step>) returns (more: seq<Step>)
    requires Lawful(cf.codec) && WellFramed(cf.codec, existing)
    requires Spillable(cf, RunFrom(cf, Start(existing), steps))
    ensures var s := RunFrom(cf, Start(existing), steps);
            |more| <= |s.producing| + 5 * |s.spilling| + 4 * |Parse(cf.codec, s.file)| +
              if s.round.NoRound? then 0
              else 1 + 2 * |s.round.queue| + |s.round.retrying| + 5 * |s.round.respooling|
    ensures forall i :: 0 <= i < |more| ==> Succeeds(more[i])
    ensures var s, t := RunFrom(cf, Start(existing), steps), RunFrom(cf, Start(existing), steps + more);
            && Quiescent(cf, t) && SameAccounts(s, t)
            && multiset(t.delivered) + s.lost ==
               multiset(Parse(cf.codec, existing)) + multiset(s.admitted) + s.landedAnyway
  {
    RunKeepsInvariant(cf, existing, steps);
    var t;
    more, t := SuccessReachesQuiescence(cf, RunFrom(cf, Start(existing), steps));
    RunConcat(cf, Start(existing), steps, more);
    EmptySpoolBalance(cf, existing, steps + more);
    assert InHand(t) == multiset{};
  }
}
