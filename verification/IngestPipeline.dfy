/** internal/ingest/pipeline.go as objects: Ingest and drainOnce run to
    completion one at a time, which is one of the schedules of IngestProtocol. */
module IngestPipeline {
  import opened Bytes
  import opened IngestDedup
  import opened IngestProtocol
  import opened Producers
  import opened Spools
  import opened Windows

  class Pipeline {
    const dedup: Dedup
    const spool: Spool<Reading>
    var topic: seq<Reading>
    ghost var offered: seq<Reading>
    ghost var admitted: seq<Reading>
    ghost var landedAnyway: multiset<Reading>
    ghost var lost: multiset<Reading>

    ghost function Cf(): Config { Config(spool.codec, dedup.cap) }

    /** The protocol state between calls. */
    ghost function View(): Sys
      reads this, dedup, dedup.seen.Values, spool
    {
      Sys(dedup.View(), spool.file, topic, multiset{}, multiset{}, NoRound, offered, admitted, landedAnyway, lost)
    }

    constructor (dedup: Dedup, spool: Spool<Reading>)
      requires dedup.Valid() && dedup.View() == map[]
      ensures this.dedup == dedup && this.spool == spool
      ensures View() == Start(spool.file)
    {
      this.dedup := dedup;
      this.spool := spool;
      topic, offered, admitted := [], [], [];
      landedAnyway, lost := multiset{}, multiset{};
    }

    /** The producer's side of Produce; true when it reports success. */
    method Produce(r: Reading, answer: Answer) returns (ok: bool)
      modifies this`topic, this`landedAnyway
      ensures ok == answer.Accepted?
      ensures View() == Answered(old(View()), r, answer)
    {
      ghost var seen := dedup.View();
      ok := answer.Accepted?;
      if !answer.Refused? {
        topic := topic + [r];
      }
      if answer.TimedOutAfterLanding? {
        landedAnyway := landedAnyway + multiset{r};
      }
      assert dedup.View() == seen;
    }

    /** The error path: into the spool, or lost when the write fails. */
    method Spill(r: Reading) returns (written: bool)
      modifies this`lost, spool
      ensures View() == SpillOrLose(Cf(), old(View()), r)
      ensures written <==> lost == old(lost)
    {
      ghost var seen := dedup.View();
      written := spool.Write(r);
      if !written {
        lost := lost + multiset{r};
        assert lost[r] == old(lost)[r] + 1;
      }
      assert dedup.View() == seen;
    }

    /** Ingest after Admit: hand the reading to the producer, or to the spool. */
    method Forward(r: Reading, answer: Answer) returns (err: bool)
      modifies this`topic, this`landedAnyway, this`lost, spool
      ensures View() == Forwarded(Cf(), old(View()), r, answer)
      ensures err <==> lost != old(lost)
    {
      var ok := Produce(r, answer);
      if ok {
        return false;
      }
      var written := Spill(r);
      err := !written;
    }

    /** One drain round, each retry run to completion as it is launched. */
    method DrainOnce(answers: nat -> Answer)
      modifies this`topic, this`landedAnyway, this`lost, spool
      ensures View() == AfterDrain(Cf(), old(View()), answers)
    {
      ghost var s0 := View().(file := []);
      var records := spool.Drain();
      for i := 0 to |records|
        invariant View() == RetryAll(Cf(), s0, records[..i], answers)
      {
        assert records[..i + 1][..i] == records[..i];
        var err := Forward(records[i], answers(i));
      }
      assert records[..|records|] == records;
    }

    method Ingest(r: Reading, answer: Answer) returns (err: bool)
      requires dedup.Valid()
      modifies this, dedup, dedup.seen.Values, spool
      ensures dedup.Valid()
      ensures View() == AfterIngest(Cf(), old(View()), r, answer)
      ensures err <==> lost != old(lost)
    {
      ghost var s0 := View();
      var isNew := dedup.Admit(r.deviceId, r.sequence);
      ghost var seen := dedup.View();
      offered := offered + [r];
      if isNew {
        admitted := admitted + [r];
      }
      assert dedup.View() == seen;
      assert View() == Offered(Cf(), s0, r);
      if !isNew {
        return false;
      }
      err := Forward(r, answer);
    }
  }

  /** What one uninterrupted Ingest call does to a state at rest. */
  function AfterIngest(cf: Config, s: Sys, r: Reading, answer: Answer): Sys {
    if Verdict(cf, s, r) then Forwarded(cf, Offered(cf, s, r), r, answer) else Offered(cf, s, r)
  }

  predicate Verdict(cf: Config, s: Sys, r: Reading) {
    AdmitKey(WindowOf(s.seen, r.deviceId), r.sequence, cf.cap).1
  }

  function Offered(cf: Config, s: Sys, r: Reading): Sys {
    var (w, isNew) := AdmitKey(WindowOf(s.seen, r.deviceId), r.sequence, cf.cap);
    s.(seen := s.seen[r.deviceId := w], offered := s.offered + [r],
       admitted := if isNew then s.admitted + [r] else s.admitted)
  }

  /** What the producer's answer leaves on the topic, whatever the caller does about it. */
  function Answered(s: Sys, r: Reading, answer: Answer): Sys {
    match answer
    case Accepted => s.(delivered := s.delivered + [r])
    case Refused => s
    case TimedOutAfterLanding => Landing(s, r, true)
  }

  function Forwarded(cf: Config, s: Sys, r: Reading, answer: Answer): Sys {
    if answer.Accepted? then Answered(s, r, answer) else SpillOrLose(cf, Answered(s, r, answer), r)
  }

  function SpillOrLose(cf: Config, s: Sys, r: Reading): Sys {
    match cf.codec.marshal(r)
    case Some(b) => s.(file := s.file + Frame(b))
    case None => s.(lost := s.lost + multiset{r})
  }

  /** One Ingest call is a run of the protocol: the dedup verdict and the
      producer's answer pick which. */
  lemma IngestIsARun(cf: Config, s: Sys, r: Reading, answer: Answer)
    requires s.producing == s.spilling == multiset{}
    ensures var arrived := Next(cf, s, Arrive(r));
            AfterIngest(cf, s, r, answer) ==
              if arrived.admitted == s.admitted then arrived
              else if answer.Accepted? then Next(cf, arrived, ProduceOk(r))
              else
                var refused := Next(cf, arrived, ProduceErr(r, answer.TimedOutAfterLanding?));
                Next(cf, refused, if cf.codec.marshal(r).Some? then Spill(r) else SpillFails(r))
  {
    var arrived := Next(cf, s, Arrive(r));
    Arrived(cf, s, r);
    assert |s.admitted + [r]| != |s.admitted|;
    if arrived.admitted != s.admitted {
      if answer.Accepted? {
        Produced(cf, arrived, r);
      } else {
        Spilled(cf, arrived, r, answer.TimedOutAfterLanding?);
      }
    }
  }

  function RetryAll(cf: Config, s: Sys, rs: seq<Reading>, answers: nat -> Answer): Sys {
    if rs == [] then s
    else Forwarded(cf, RetryAll(cf, s, rs[..|rs| - 1], answers), rs[|rs| - 1], answers(|rs| - 1))
  }

  function AfterDrain(cf: Config, s: Sys, answers: nat -> Answer): Sys {
    RetryAll(cf, s.(file := []), Parse(cf.codec, s.file), answers)
  }

  /** No retry under way: the next record may be launched, or the round may end. */
  ghost predicate Between(d: Round, taken: seq<Reading>, next: nat) {
    && next <= |taken| && d.Round? && d.taken == taken && d.queue == taken[next..]
    && d.retrying == d.respooling == multiset{}
  }

  /** Retrying one record moves the protocol through two or three round steps. */
  lemma RetryOne(cf: Config, from: Sys, steps: seq<Step>, s: Sys, d: Round, taken: seq<Reading>, n: nat, answer: Answer)
    returns (steps': seq<Step>, d': Round)
    requires s.round.NoRound? && n < |taken| && Between(d, taken, n)
    requires LeadsTo(cf, from, steps, s.(round := d))
    ensures steps <= steps' && forall i :: |steps| <= i < |steps'| ==> RoundStep(steps'[i])
    ensures Between(d', taken, n + 1)
    ensures LeadsTo(cf, from, steps', Forwarded(cf, s, taken[n], answer).(round := d'))
  {
    var r := taken[n];
    var s0 := s.(round := d);
    var s1 := Next(cf, s0, Launch);
    Launched(cf, s0, r);
    Extend(cf, from, steps, s0, Launch, s1);
    if answer.Accepted? {
      var s2 := Next(cf, s1, RetryOk(r));
      Retried(cf, s1, r);
      Extend(cf, from, steps + [Launch], s1, RetryOk(r), s2);
      steps', d' := steps + [Launch] + [RetryOk(r)], s2.round;
    } else {
      var landed := answer.TimedOutAfterLanding?;
      var last := if cf.codec.marshal(r).Some? then Respool(r) else RespoolFails(r);
      var s2 := Next(cf, s1, RetryErr(r, landed));
      var s3 := Next(cf, s2, last);
      Respooled(cf, s1, r, landed);
      Extend(cf, from, steps + [Launch], s1, RetryErr(r, landed), s2);
      Extend(cf, from, steps + [Launch] + [RetryErr(r, landed)], s2, last, s3);
      steps', d' := steps + [Launch] + [RetryErr(r, landed)] + [last], s3.round;
    }
  }

  lemma Launched(cf: Config, s: Sys, r: Reading)
    requires s.round.Round? && s.round.queue != [] && s.round.queue[0] == r
    requires s.round.retrying == s.round.respooling == multiset{}
    ensures Next(cf, s, Launch) == s.(round := s.round.(queue := s.round.queue[1..], retrying := multiset{r}))
  {
    assert multiset{} + multiset{r} == multiset{r};
  }

  lemma Retried(cf: Config, s: Sys, r: Reading)
    requires s.round.Round? && s.round.retrying == multiset{r}
    ensures Next(cf, s, RetryOk(r)) ==
            s.(delivered := s.delivered + [r],
               round := s.round.(retrying := multiset{}, landed := s.round.landed + multiset{r}))
  {
    assert multiset{r} - multiset{r} == multiset{};
  }

  lemma Respooled(cf: Config, s: Sys, r: Reading, landed: bool)
    requires s.round.Round? && s.round.retrying == multiset{r} && s.round.respooling == multiset{}
    ensures var t := Landing(s, r, landed).(round := s.round.(retrying := multiset{}));
            var refused := Next(cf, s, RetryErr(r, landed));
            && (cf.codec.marshal(r).Some? ==>
                  Next(cf, refused, Respool(r)) ==
                  t.(file := s.file + Frame(cf.codec.marshal(r).value),
                     round := t.round.(respooled := t.round.respooled + multiset{r})))
            && Next(cf, refused, RespoolFails(r)) ==
               t.(lost := s.lost + multiset{r}, round := t.round.(dropped := t.round.dropped + multiset{r}))
  {
    var refused := Next(cf, s, RetryErr(r, landed));
    assert multiset{} + multiset{r} == multiset{r};
    assert multiset{r} - multiset{r} == multiset{};
    assert refused == Landing(s, r, landed).(round := s.round.(retrying := multiset{}, respooling := multiset{r}));
  }

  lemma {:induction false} RetriesAreARun(cf: Config, s: Sys, taken: seq<Reading>, n: nat, answers: nat -> Answer)
    returns (steps: seq<Step>, d: Round)
    requires s.round.NoRound? && taken == Parse(cf.codec, s.file) && n <= |taken|
    ensures |steps| > 0 && steps[0] == TakeSpool && forall i :: 0 < i < |steps| ==> RoundStep(steps[i])
    ensures Between(d, taken, n)
    ensures RetryAll(cf, s.(file := []), taken[..n], answers).round.NoRound?
    ensures LeadsTo(cf, s, steps, RetryAll(cf, s.(file := []), taken[..n], answers).(round := d))
  {
    if n == 0 {
      var none: seq<Step> := [];
      Extend(cf, s, none, s, TakeSpool, Next(cf, s, TakeSpool));
      steps := none + [TakeSpool];
      d := Next(cf, s, TakeSpool).round;
    } else {
      var before, d0 := RetriesAreARun(cf, s, taken, n - 1, answers);
      assert taken[..n][..n - 1] == taken[..n - 1];
      var mid := RetryAll(cf, s.(file := []), taken[..n - 1], answers);
      steps, d := RetryOne(cf, s, before, mid, d0, taken, n - 1, answers(n - 1));
    }
  }

  /** A drainOnce call is a run of the protocol: take the spool, round steps only, end the round. */
  lemma DrainIsARun(cf: Config, s: Sys, answers: nat -> Answer) returns (steps: seq<Step>)
    requires s.round.NoRound?
    ensures |steps| > 1 && steps[0] == TakeSpool && steps[|steps| - 1] == EndRound
    ensures forall i :: 0 < i < |steps| ==> RoundStep(steps[i])
    ensures RunFrom(cf, s, steps) == AfterDrain(cf, s, answers)
  {
    var taken := Parse(cf.codec, s.file);
    var before, d := RetriesAreARun(cf, s, taken, |taken|, answers);
    assert taken[..|taken|] == taken;
    var t := AfterDrain(cf, s, answers);
    assert InFlight(d) == 0;
    Extend(cf, s, before, t.(round := d), EndRound, t);
    steps := before + [EndRound];
  }

  lemma Arrived(cf: Config, s: Sys, r: Reading)
    requires s.producing == multiset{}
    ensures Next(cf, s, Arrive(r)) ==
            Offered(cf, s, r).(producing := if Verdict(cf, s, r) then multiset{r} else multiset{})
  {
    assert multiset{} + multiset{r} == multiset{r};
  }

  lemma Produced(cf: Config, s: Sys, r: Reading)
    requires s.producing == multiset{r}
    ensures Next(cf, s, ProduceOk(r)) == s.(producing := multiset{}, delivered := s.delivered + [r])
  {
    assert multiset{r} - multiset{r} == multiset{};
  }

  lemma Spilled(cf: Config, s: Sys, r: Reading, landed: bool)
    requires s.producing == multiset{r} && s.spilling == multiset{}
    ensures var t := Landing(s, r, landed).(producing := multiset{});
            var refused := Next(cf, s, ProduceErr(r, landed));
            && (cf.codec.marshal(r).Some? ==>
                  Next(cf, refused, Spill(r)) == t.(file := s.file + Frame(cf.codec.marshal(r).value)))
            && Next(cf, refused, SpillFails(r)) == t.(lost := s.lost + multiset{r})
  {
    var refused := Next(cf, s, ProduceErr(r, landed));
    assert refused.producing == multiset{} && refused.spilling == multiset{r};
    assert refused.spilling - multiset{r} == multiset{};
  }
}
