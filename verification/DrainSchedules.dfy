/** Every schedule of a drain round against the sequential one. Between taking
    the spool and the end of the round, retries run 32 at a time among any
    Ingest calls; the result is the one of finishing those calls first and then
    retrying the taken records one by one, up to the order of what is
    delivered and what is spooled. */
module DrainSchedules {
  import opened Bytes
  import opened IngestDedup
  import opened IngestPipeline
  import opened IngestProtocol
  import opened Producers
  import opened Sequences
  import opened Spools

  /** The steps of Ingest calls. */
  predicate CallStep(a: Step) {
    a.Arrive? || a.ProduceOk? || a.ProduceErr? || a.Spill? || a.SpillFails?
  }

  /** What may happen between TakeSpool and EndRound; a re-spool fails only when
      the record cannot be marshalled. */
  predicate DuringRound(cf: Config, a: Step) {
    CallStep(a) || (RoundStep(a) && !a.EndRound? && (a.RespoolFails? ==> cf.codec.marshal(a.r).None?))
  }

  function Calls(steps: seq<Step>): seq<Step> { Filter(steps, (a: Step) => CallStep(a)) }

  // ---- One record at a time ----

  /** An answer a record that spends the budgets of accepted and timed-out
      retries, the last record first. */
  function Answers(rs: seq<Reading>, accepted: multiset<Reading>, timedOut: multiset<Reading>): (out: seq<Answer>)
    ensures |out| == |rs|
  {
    if rs == [] then []
    else
      var init, r := rs[..|rs| - 1], rs[|rs| - 1];
      if r in accepted then Answers(init, accepted - multiset{r}, timedOut) + [Accepted]
      else if r in timedOut then Answers(init, accepted, timedOut - multiset{r}) + [TimedOutAfterLanding]
      else Answers(init, accepted, timedOut) + [Refused]
  }

  function AnswerAt(answers: seq<Answer>): nat -> Answer {
    (i: nat) => if i < |answers| then answers[i] else Refused
  }

  lemma {:induction false} RetryAllAgrees(cf: Config, s: Sys, rs: seq<Reading>, a: nat -> Answer, b: nat -> Answer)
    requires forall i :: 0 <= i < |rs| ==> a(i) == b(i)
    ensures RetryAll(cf, s, rs, a) == RetryAll(cf, s, rs, b)
  {
    if rs != [] {
      RetryAllAgrees(cf, s, rs[..|rs| - 1], a, b);
    }
  }

  /** Where the copies of one reading q are that matter to a drain. */
  datatype Tally = Tally(delivered: int, spooled: int, lost: int, hidden: int)

  function TallyOf(cf: Config, s: Sys, q: Reading): Tally {
    Tally(multiset(s.delivered)[q], Spooled(cf, s)[q], s.lost[q], s.landedAnyway[q])
  }

  /** n retries of q, of which some were accepted and some timed out after landing. */
  predicate Grew(cf: Config, q: Reading, a: Tally, b: Tally, n: int, accepted: int, timedOut: int) {
    && b.delivered == a.delivered + accepted + timedOut
    && b.hidden == a.hidden + timedOut
    && (if cf.codec.marshal(q).Some?
        then b.spooled == a.spooled + n - accepted && b.lost == a.lost
        else b.spooled == a.spooled && b.lost == a.lost + n - accepted)
  }

  function Once(r: Reading, q: Reading): int { if r == q then 1 else 0 }

  lemma CountSnoc(rs: seq<Reading>, r: Reading, q: Reading)
    ensures multiset(rs + [r])[q] == multiset(rs)[q] + Once(r, q)
  {
  }

  lemma SpillTally(cf: Config, s: Sys, r: Reading, q: Reading)
    requires Lawful(cf.codec) && WellFramed(cf.codec, s.file)
    ensures WellFramed(cf.codec, SpillOrLose(cf, s, r).file)
    ensures Grew(cf, q, TallyOf(cf, s, q), TallyOf(cf, SpillOrLose(cf, s, r), q), Once(r, q), 0, 0)
  {
    if cf.codec.marshal(r).Some? {
      WriteAppendsOneRecord(cf.codec, s.file, r);
      CountSnoc(Parse(cf.codec, s.file), r, q);
    }
  }

  lemma AnsweredTally(cf: Config, s: Sys, r: Reading, answer: Answer, q: Reading)
    ensures Answered(s, r, answer).file == s.file
    ensures var t := TallyOf(cf, s, q);
            TallyOf(cf, Answered(s, r, answer), q) ==
            match answer
            case Accepted => t.(delivered := t.delivered + Once(r, q))
            case Refused => t
            case TimedOutAfterLanding => t.(delivered := t.delivered + Once(r, q), hidden := t.hidden + Once(r, q))
  {
    CountSnoc(s.delivered, r, q);
  }

  lemma ForwardedTally(cf: Config, s: Sys, r: Reading, answer: Answer, q: Reading)
    requires Lawful(cf.codec) && WellFramed(cf.codec, s.file)
    ensures WellFramed(cf.codec, Forwarded(cf, s, r, answer).file)
    ensures Grew(cf, q, TallyOf(cf, s, q), TallyOf(cf, Forwarded(cf, s, r, answer), q), Once(r, q),
                 if answer.Accepted? then Once(r, q) else 0, if answer.TimedOutAfterLanding? then Once(r, q) else 0)
  {
    AnsweredTally(cf, s, r, answer, q);
    if !answer.Accepted? {
      SpillTally(cf, Answered(s, r, answer), r, q);
    }
  }

  /** Sequential retries whose answers spend the two budgets exactly. */
  lemma {:induction false} RetriedTally(cf: Config, s: Sys, rs: seq<Reading>, accepted: multiset<Reading>,
                                        timedOut: multiset<Reading>, q: Reading)
    requires Lawful(cf.codec) && WellFramed(cf.codec, s.file)
    requires accepted + timedOut <= multiset(rs)
    ensures var u := RetryAll(cf, s, rs, AnswerAt(Answers(rs, accepted, timedOut)));
            && WellFramed(cf.codec, u.file)
            && Grew(cf, q, TallyOf(cf, s, q), TallyOf(cf, u, q), multiset(rs)[q], accepted[q], timedOut[q])
  {
    if rs == [] {
      assert |accepted + timedOut| == 0;
      assert accepted[q] == timedOut[q] == 0;
    } else {
      var init, r := rs[..|rs| - 1], rs[|rs| - 1];
      assert rs == init + [r];
      var acc, tim := Spent(r, accepted, timedOut).0, Spent(r, accepted, timedOut).1;
      BudgetLeft(init, r, accepted, timedOut);
      RetriedTally(cf, s, init, acc, tim, q);
      OneMoreRetry(cf, s, init, r, accepted, timedOut, q);
    }
  }

  /** The budgets before a last record r draws on them. */
  function Spent(r: Reading, accepted: multiset<Reading>, timedOut: multiset<Reading>):
    (multiset<Reading>, multiset<Reading>) {
    if r in accepted then (accepted - multiset{r}, timedOut)
    else if r in timedOut then (accepted, timedOut - multiset{r})
    else (accepted, timedOut)
  }

  lemma AnswersSnoc(init: seq<Reading>, r: Reading, accepted: multiset<Reading>, timedOut: multiset<Reading>)
    ensures var (acc, tim) := Spent(r, accepted, timedOut);
            Answers(init + [r], accepted, timedOut) ==
            Answers(init, acc, tim) +
              [if r in accepted then Accepted else if r in timedOut then TimedOutAfterLanding else Refused]
  {
    assert (init + [r])[..|init|] == init;
  }

  lemma SpentCounts(r: Reading, accepted: multiset<Reading>, timedOut: multiset<Reading>, q: Reading)
    ensures var (acc, tim) := Spent(r, accepted, timedOut);
            && accepted[q] == acc[q] + (if r in accepted then Once(r, q) else 0)
            && timedOut[q] == tim[q] + (if r !in accepted && r in timedOut then Once(r, q) else 0)
  {
  }

  lemma GrewTwice(cf: Config, q: Reading, a: Tally, b: Tally, c: Tally, n: int, acc: int, tim: int,
                  m: int, acc': int, tim': int)
    requires Grew(cf, q, a, b, n, acc, tim) && Grew(cf, q, b, c, m, acc', tim')
    ensures Grew(cf, q, a, c, n + m, acc + acc', tim + tim')
  {
  }

  lemma RetryAllSnoc(cf: Config, s: Sys, init: seq<Reading>, r: Reading, answers: nat -> Answer)
    ensures RetryAll(cf, s, init + [r], answers) == Forwarded(cf, RetryAll(cf, s, init, answers), r, answers(|init|))
  {
    assert (init + [r])[..|init|] == init;
  }

  lemma OneMoreRetry(cf: Config, s: Sys, init: seq<Reading>, r: Reading, accepted: multiset<Reading>,
                     timedOut: multiset<Reading>, q: Reading)
    requires Lawful(cf.codec)
    requires var (acc, tim) := Spent(r, accepted, timedOut);
             var mid := RetryAll(cf, s, init, AnswerAt(Answers(init, acc, tim)));
             WellFramed(cf.codec, mid.file) &&
             Grew(cf, q, TallyOf(cf, s, q), TallyOf(cf, mid, q), multiset(init)[q], acc[q], tim[q])
    ensures var u := RetryAll(cf, s, init + [r], AnswerAt(Answers(init + [r], accepted, timedOut)));
            && WellFramed(cf.codec, u.file)
            && Grew(cf, q, TallyOf(cf, s, q), TallyOf(cf, u, q), multiset(init + [r])[q], accepted[q], timedOut[q])
  {
    var (acc, tim) := Spent(r, accepted, timedOut);
    var before, after := AnswerAt(Answers(init, acc, tim)), AnswerAt(Answers(init + [r], accepted, timedOut));
    var mid := RetryAll(cf, s, init, before);
    AnswersSnoc(init, r, accepted, timedOut);
    RetryAllAgrees(cf, s, init, after, before);
    RetryAllSnoc(cf, s, init, r, after);
    ForwardedTally(cf, mid, r, after(|init|), q);
    CountSnoc(init, r, q);
    SpentCounts(r, accepted, timedOut, q);
    GrewTwice(cf, q, TallyOf(cf, s, q), TallyOf(cf, mid, q), TallyOf(cf, Forwarded(cf, mid, r, after(|init|)), q),
              multiset(init)[q], acc[q], tim[q],
              Once(r, q), accepted[q] - acc[q], timedOut[q] - tim[q]);
  }

  lemma BudgetLeft(init: seq<Reading>, r: Reading, accepted: multiset<Reading>, timedOut: multiset<Reading>)
    requires accepted + timedOut <= multiset(init + [r])
    ensures Spent(r, accepted, timedOut).0 + Spent(r, accepted, timedOut).1 <= multiset(init)
  {
    var (acc, tim) := Spent(r, accepted, timedOut);
    forall q
      ensures (acc + tim)[q] <= multiset(init)[q]
    {
      CountSnoc(init, r, q);
      assert (accepted + timedOut)[q] <= multiset(init + [r])[q];
    }
  }

  // ---- A round among Ingest calls ----

  /** What a step other than TakeSpool adds, wherever it runs. */
  function StepAdds(a: Step, q: Reading): Tally {
    match a
    case ProduceOk(r) => Tally(Once(r, q), 0, 0, 0)
    case RetryOk(r) => Tally(Once(r, q), 0, 0, 0)
    case ProduceErr(r, landed) => if landed then Tally(Once(r, q), 0, 0, Once(r, q)) else Tally(0, 0, 0, 0)
    case RetryErr(r, landed) => if landed then Tally(Once(r, q), 0, 0, Once(r, q)) else Tally(0, 0, 0, 0)
    case Spill(r) => Tally(0, Once(r, q), 0, 0)
    case Respool(r) => Tally(0, Once(r, q), 0, 0)
    case SpillFails(r) => Tally(0, 0, Once(r, q), 0)
    case RespoolFails(r) => Tally(0, 0, Once(r, q), 0)
    case _ => Tally(0, 0, 0, 0)
  }

  function Plus(a: Tally, b: Tally): Tally {
    Tally(a.delivered + b.delivered, a.spooled + b.spooled, a.lost + b.lost, a.hidden + b.hidden)
  }

  lemma DeliveredAdds(cf: Config, s: Sys, a: Step, q: Reading)
    requires Enabled(cf, s, a)
    ensures multiset(Do(cf, s, a).delivered)[q] == multiset(s.delivered)[q] + StepAdds(a, q).delivered
    ensures Do(cf, s, a).landedAnyway[q] == s.landedAnyway[q] + StepAdds(a, q).hidden
  {
    if a.ProduceOk? || a.ProduceErr? || a.RetryOk? || a.RetryErr? {
      CountSnoc(s.delivered, a.r, q);
    }
  }

  lemma LostAdds(cf: Config, s: Sys, a: Step, q: Reading)
    requires Enabled(cf, s, a)
    ensures Do(cf, s, a).lost[q] == s.lost[q] + StepAdds(a, q).lost
  {
  }

  lemma SpooledAdds(cf: Config, s: Sys, a: Step, q: Reading)
    requires Lawful(cf.codec) && WellFramed(cf.codec, s.file) && Enabled(cf, s, a) && !a.TakeSpool?
    ensures WellFramed(cf.codec, Do(cf, s, a).file)
    ensures Spooled(cf, Do(cf, s, a))[q] == Spooled(cf, s)[q] + StepAdds(a, q).spooled
  {
    StepKeepsFraming(cf, s, a);
  }

  lemma TallyParts(cf: Config, s: Sys, t: Sys, adds: Tally, q: Reading)
    requires multiset(t.delivered)[q] == multiset(s.delivered)[q] + adds.delivered
    requires Spooled(cf, t)[q] == Spooled(cf, s)[q] + adds.spooled
    requires t.lost[q] == s.lost[q] + adds.lost && t.landedAnyway[q] == s.landedAnyway[q] + adds.hidden
    ensures TallyOf(cf, t, q) == Plus(TallyOf(cf, s, q), adds)
  {
  }

  lemma StepTally(cf: Config, s: Sys, a: Step, q: Reading)
    requires Lawful(cf.codec) && WellFramed(cf.codec, s.file) && Enabled(cf, s, a) && !a.TakeSpool?
    ensures WellFramed(cf.codec, Do(cf, s, a).file)
    ensures TallyOf(cf, Do(cf, s, a), q) == Plus(TallyOf(cf, s, q), StepAdds(a, q))
  {
    DeliveredAdds(cf, s, a, q);
    LostAdds(cf, s, a, q);
    SpooledAdds(cf, s, a, q);
    TallyParts(cf, s, Do(cf, s, a), StepAdds(a, q), q);
  }

  /** The same Ingest calls, with the same effect so far. */
  predicate SameCalls(t: Sys, i: Sys) {
    && t.seen == i.seen && t.offered == i.offered && t.admitted == i.admitted
    && t.producing == i.producing && t.spilling == i.spilling
  }

  /** The round in t runs beside the Ingest calls of i, which has no round of its own. */
  ghost predicate Beside(cf: Config, t: Sys, i: Sys, taken: seq<Reading>) {
    && SameCalls(t, i) && t.round.Round? && t.round.taken == taken && i.round.NoRound?
    && WellFramed(cf.codec, t.file) && WellFramed(cf.codec, i.file)
  }

  /** What the round has made of its copies of q so far. */
  ghost predicate Outcomes(cf: Config, d: Round, t: Tally, i: Tally, q: Reading) {
    && d.Round? && Accounted(d, q)
    && t.delivered == i.delivered + d.landed[q] + (t.hidden - i.hidden)
    && t.spooled == i.spooled + d.respooled[q]
    && t.lost == i.lost + d.dropped[q]
    && 0 <= t.hidden - i.hidden <= d.respooling[q] + d.respooled[q] + d.dropped[q]
    && (if cf.codec.marshal(q).Some? then d.dropped[q] == 0 else d.respooled[q] == 0)
  }

  lemma CallsStayTheSame(cf: Config, t: Sys, i: Sys, a: Step)
    requires CallStep(a) && SameCalls(t, i)
    ensures Enabled(cf, t, a) <==> Enabled(cf, i, a)
    ensures Enabled(cf, t, a) ==> SameCalls(Do(cf, t, a), Do(cf, i, a))
    ensures Enabled(cf, t, a) ==> Do(cf, t, a).round == t.round && Do(cf, i, a).round == i.round
  {
  }

  lemma CallBeside(cf: Config, t: Sys, i: Sys, taken: seq<Reading>, a: Step, q: Reading)
    requires Lawful(cf.codec) && CallStep(a) && Beside(cf, t, i, taken)
    requires Outcomes(cf, t.round, TallyOf(cf, t, q), TallyOf(cf, i, q), q)
    ensures var t', i' := Next(cf, t, a), Next(cf, i, a);
            Beside(cf, t', i', taken) && Outcomes(cf, t'.round, TallyOf(cf, t', q), TallyOf(cf, i', q), q)
  {
    CallsStayTheSame(cf, t, i, a);
    if Enabled(cf, t, a) {
      StepTally(cf, t, a, q);
      StepTally(cf, i, a, q);
    }
  }

  lemma RoundKeepsCalls(cf: Config, t: Sys, a: Step)
    requires RoundStep(a) && !a.EndRound? && Enabled(cf, t, a)
    ensures SameCalls(Do(cf, t, a), t) && Do(cf, t, a).round.Round? && Do(cf, t, a).round.taken == t.round.taken
  {
  }

  /** How a round step moves the copies of q. */
  ghost predicate Moved(d: Round, d': Round, a: Step, q: Reading)
    requires d.Round? && d'.Round? && RoundStep(a) && !a.EndRound?
  {
    var n := if a.Launch? then 0 else Once(a.r, q);
    && d'.respooling[q] == d.respooling[q] + (if a.RetryErr? then n else if a.RetryOk? then 0 else -n)
    && d'.landed[q] == d.landed[q] + (if a.RetryOk? then n else 0)
    && d'.respooled[q] == d.respooled[q] + (if a.Respool? then n else 0)
    && d'.dropped[q] == d.dropped[q] + (if a.RespoolFails? then n else 0)
  }

  lemma StepMoves(cf: Config, t: Sys, a: Step, q: Reading)
    requires RoundStep(a) && !a.EndRound? && Enabled(cf, t, a)
    ensures Moved(t.round, Do(cf, t, a).round, a, q)
  {
  }

  lemma OutcomesMoved(cf: Config, d: Round, d': Round, t: Tally, i: Tally, a: Step, q: Reading)
    requires d'.Round? && DuringRound(cf, a) && RoundStep(a) && (a.Respool? ==> cf.codec.marshal(a.r).Some?)
    requires Outcomes(cf, d, t, i, q) && Accounted(d', q) && Moved(d, d', a, q)
    ensures Outcomes(cf, d', Plus(t, StepAdds(a, q)), i, q)
  {
  }

  lemma RoundOutcomesKept(cf: Config, t: Sys, i: Tally, a: Step, q: Reading)
    requires Lawful(cf.codec) && WellFramed(cf.codec, t.file) && Enabled(cf, t, a)
    requires DuringRound(cf, a) && RoundStep(a) && Outcomes(cf, t.round, TallyOf(cf, t, q), i, q)
    ensures Outcomes(cf, Do(cf, t, a).round, TallyOf(cf, Do(cf, t, a), q), i, q)
  {
    RoundKeepsCalls(cf, t, a);
    StepTally(cf, t, a, q);
    RoundStepKeepsAccounts(cf, t, a, q);
    StepMoves(cf, t, a, q);
    OutcomesMoved(cf, t.round, Do(cf, t, a).round, TallyOf(cf, t, q), i, a, q);
  }

  lemma RoundBeside(cf: Config, t: Sys, i: Sys, taken: seq<Reading>, a: Step, q: Reading)
    requires Lawful(cf.codec) && DuringRound(cf, a) && RoundStep(a) && Beside(cf, t, i, taken)
    requires Outcomes(cf, t.round, TallyOf(cf, t, q), TallyOf(cf, i, q), q)
    ensures var t' := Next(cf, t, a);
            Beside(cf, t', i, taken) && Outcomes(cf, t'.round, TallyOf(cf, t', q), TallyOf(cf, i, q), q)
  {
    if Enabled(cf, t, a) {
      RoundKeepsCalls(cf, t, a);
      SpooledAdds(cf, t, a, q);
      RoundOutcomesKept(cf, t, TallyOf(cf, i, q), a, q);
    }
  }

  lemma CallsSnoc(init: seq<Step>, a: Step)
    ensures Calls(init + [a]) == if CallStep(a) then Calls(init) + [a] else Calls(init)
  {
    FilterSnoc(init, a, (a: Step) => CallStep(a));
  }

  lemma RunSnoc(cf: Config, s: Sys, init: seq<Step>, a: Step)
    ensures RunFrom(cf, s, init + [a]) == Next(cf, RunFrom(cf, s, init), a)
  {
    assert (init + [a])[..|init|] == init;
  }

  /** The round and its Ingest calls, against the calls alone. */
  ghost predicate Split(cf: Config, s: Sys, mid: seq<Step>, q: Reading) {
    var t, i := RunFrom(cf, Next(cf, s, TakeSpool), mid), RunFrom(cf, s.(file := []), Calls(mid));
    Beside(cf, t, i, Parse(cf.codec, s.file)) && Outcomes(cf, t.round, TallyOf(cf, t, q), TallyOf(cf, i, q), q)
  }

  lemma SplitSnoc(cf: Config, s: Sys, init: seq<Step>, a: Step, q: Reading)
    requires Lawful(cf.codec) && DuringRound(cf, a) && Split(cf, s, init, q)
    ensures Split(cf, s, init + [a], q)
  {
    var t, i := RunFrom(cf, Next(cf, s, TakeSpool), init), RunFrom(cf, s.(file := []), Calls(init));
    CallsSnoc(init, a);
    RunSnoc(cf, Next(cf, s, TakeSpool), init, a);
    if CallStep(a) {
      RunSnoc(cf, s.(file := []), Calls(init), a);
      CallBeside(cf, t, i, Parse(cf.codec, s.file), a, q);
    } else {
      RoundBeside(cf, t, i, Parse(cf.codec, s.file), a, q);
    }
  }

  lemma SplitStart(cf: Config, s: Sys, q: Reading)
    requires WellFramed(cf.codec, s.file) && s.round.NoRound?
    ensures Split(cf, s, [], q)
  {
    EmptyFileIsWellFramed(cf.codec);
    var t, i := Next(cf, s, TakeSpool), s.(file := []);
    assert Calls([]) == [];
    assert RunFrom(cf, t, []) == t && RunFrom(cf, i, []) == i;
    assert TallyOf(cf, t, q) == TallyOf(cf, i, q);
  }

  lemma {:induction false} RoundSplits(cf: Config, s: Sys, mid: seq<Step>, q: Reading)
    requires Lawful(cf.codec) && WellFramed(cf.codec, s.file) && s.round.NoRound?
    requires forall k :: 0 <= k < |mid| ==> DuringRound(cf, mid[k])
    ensures Split(cf, s, mid, q)
  {
    if mid == [] {
      SplitStart(cf, s, q);
    } else {
      var init, a := mid[..|mid| - 1], mid[|mid| - 1];
      assert init + [a] == mid;
      RoundSplits(cf, s, init, q);
      assert Split(cf, s, init + [a], q) by {
        SplitSnoc(cf, s, init, a, q);
      }
    }
  }

  // ---- Linearization ----

  /** Equal up to the order of the topic and of the spool. */
  ghost predicate SameUpToOrder(cf: Config, t: Sys, u: Sys) {
    && SameCalls(t, u) && t.round == u.round && t.lost == u.lost && t.landedAnyway == u.landedAnyway
    && SamePermutation(t.delivered, u.delivered)
    && SamePermutation(Parse(cf.codec, t.file), Parse(cf.codec, u.file))
  }

  lemma {:induction false} RetriesKeepCalls(cf: Config, s: Sys, rs: seq<Reading>, answers: nat -> Answer)
    ensures SameCalls(RetryAll(cf, s, rs, answers), s) && RetryAll(cf, s, rs, answers).round == s.round
  {
    if rs != [] {
      RetriesKeepCalls(cf, s, rs[..|rs| - 1], answers);
    }
  }

  lemma SameTallies(cf: Config, t: Sys, u: Sys)
    requires SameCalls(t, u) && t.round == u.round
    requires forall q :: TallyOf(cf, t, q) == TallyOf(cf, u, q)
    ensures SameUpToOrder(cf, t, u)
  {
    forall q
      ensures t.lost[q] == u.lost[q] && t.landedAnyway[q] == u.landedAnyway[q]
      ensures multiset(t.delivered)[q] == multiset(u.delivered)[q]
      ensures multiset(Parse(cf.codec, t.file))[q] == multiset(Parse(cf.codec, u.file))[q]
    {
      assert TallyOf(cf, t, q) == TallyOf(cf, u, q);
    }
  }

  lemma NothingHeld(d: Round, q: Reading)
    requires d.Round? && d.queue == [] && InFlight(d) == 0
    ensures RoundHeld(d)[q] == 0 && d.respooling[q] == 0
  {
  }

  /** At the end of a round its outcomes fix where each copy of q went. */
  lemma OutcomesAtEnd(cf: Config, d: Round, t: Tally, i: Tally, q: Reading)
    requires Outcomes(cf, d, t, i, q) && d.queue == [] && InFlight(d) == 0
    ensures Grew(cf, q, i, t, multiset(d.taken)[q], d.landed[q], t.hidden - i.hidden)
    ensures 0 <= t.hidden - i.hidden && d.landed[q] + (t.hidden - i.hidden) <= multiset(d.taken)[q]
  {
    NothingHeld(d, q);
  }

  lemma GrewUnique(cf: Config, q: Reading, a: Tally, b: Tally, c: Tally, n: int, acc: int, tim: int)
    requires Grew(cf, q, a, b, n, acc, tim) && Grew(cf, q, a, c, n, acc, tim)
    ensures b == c
  {
  }

  lemma RoundAgainstRetries(cf: Config, t: Sys, i: Sys, taken: seq<Reading>)
    returns (answers: nat -> Answer)
    requires Lawful(cf.codec) && Beside(cf, t, i, taken) && t.round.queue == [] && InFlight(t.round) == 0
    requires forall q :: Outcomes(cf, t.round, TallyOf(cf, t, q), TallyOf(cf, i, q), q)
    ensures forall q :: TallyOf(cf, t, q) == TallyOf(cf, RetryAll(cf, i, taken, answers), q)
  {
    var accepted, timedOut := t.round.landed, t.landedAnyway - i.landedAnyway;
    forall q
      ensures (accepted + timedOut)[q] <= multiset(taken)[q]
    {
      OutcomesAtEnd(cf, t.round, TallyOf(cf, t, q), TallyOf(cf, i, q), q);
    }
    answers := AnswerAt(Answers(taken, accepted, timedOut));
    var u := RetryAll(cf, i, taken, answers);
    forall q
      ensures TallyOf(cf, t, q) == TallyOf(cf, u, q)
    {
      OutcomesAtEnd(cf, t.round, TallyOf(cf, t, q), TallyOf(cf, i, q), q);
      RetriedTally(cf, i, taken, accepted, timedOut, q);
      GrewUnique(cf, q, TallyOf(cf, i, q), TallyOf(cf, t, q), TallyOf(cf, u, q),
                 multiset(taken)[q], accepted[q], timedOut[q]);
    }
  }

  /** Every schedule of a drain round among Ingest calls ends as it would have
      ended had the calls run first and the taken records been retried one by
      one, for some answers of the producer. */
  lemma RoundIsSequential(cf: Config, s: Sys, mid: seq<Step>) returns (answers: nat -> Answer)
    requires Lawful(cf.codec) && WellFramed(cf.codec, s.file) && s.round.NoRound?
    requires forall k :: 0 <= k < |mid| ==>
               && !mid[k].TakeSpool? && !mid[k].EndRound?
               && (mid[k].RespoolFails? ==> cf.codec.marshal(mid[k].r).None?)
    requires Enabled(cf, RunFrom(cf, Next(cf, s, TakeSpool), mid), EndRound)
    ensures var t := Next(cf, RunFrom(cf, Next(cf, s, TakeSpool), mid), EndRound);
            var u := RetryAll(cf, RunFrom(cf, s.(file := []), Calls(mid)), Parse(cf.codec, s.file), answers);
            && t.seen == u.seen && t.offered == u.offered && t.admitted == u.admitted
            && t.producing == u.producing && t.spilling == u.spilling && t.round == u.round
            && t.lost == u.lost && t.landedAnyway == u.landedAnyway
            && SamePermutation(t.delivered, u.delivered)
            && SamePermutation(Parse(cf.codec, t.file), Parse(cf.codec, u.file))
  {
    var taken := Parse(cf.codec, s.file);
    var t, i := RunFrom(cf, Next(cf, s, TakeSpool), mid), RunFrom(cf, s.(file := []), Calls(mid));
    var any: Reading :| true;
    RoundSplits(cf, s, mid, any);
    forall q
      ensures Outcomes(cf, t.round, TallyOf(cf, t, q), TallyOf(cf, i, q), q)
    {
      RoundSplits(cf, s, mid, q);
    }
    answers := RoundAgainstRetries(cf, t, i, taken);
    EndAgainstRetries(cf, t, i, taken, answers);
  }

  lemma EndAgainstRetries(cf: Config, t: Sys, i: Sys, taken: seq<Reading>, answers: nat -> Answer)
    requires Beside(cf, t, i, taken) && Enabled(cf, t, EndRound)
    requires forall q :: TallyOf(cf, t, q) == TallyOf(cf, RetryAll(cf, i, taken, answers), q)
    ensures SameUpToOrder(cf, Next(cf, t, EndRound), RetryAll(cf, i, taken, answers))
  {
    var u, end := RetryAll(cf, i, taken, answers), Next(cf, t, EndRound);
    RetriesKeepCalls(cf, i, taken, answers);
    forall q
      ensures TallyOf(cf, end, q) == TallyOf(cf, u, q)
    {
      assert TallyOf(cf, end, q) == TallyOf(cf, t, q);
    }
    SameTallies(cf, end, u);
  }
}
