/** The whole storefront path of cmd/segmentbench: corpora sorted profile by
    profile, sent through the edge by workers that each take whole profiles, read
    back partition by partition, and compared. What each stage assumes is what
    the one before it establishes. */
module StorefrontPath {
  import opened Agreement
  import opened Corpus
  import opened Definitions
  import opened EngineRuns
  import opened Events
  import opened FullRecompute
  import opened Incremental
  import opened Redis
  import opened Sequences
  import opened Windows

  import B = SegmentBench
  import E = EventIngest

  // ---- The corpus ----

  /** What Build writes into every event of profile p: all but the order. */
  ghost predicate SoundEvents(h: seq<Event>, p: string, asOf: int) {
    forall e :: e in h ==>
      && e.profileId == p && 0 < e.timestampMs <= asOf
      && (e.kind.Purchase? ==> '|' !in e.eventId) && (e.kind.PageView? ==> e.category != "")
  }

  lemma SortKeepsEvents(before: seq<Event>, after: seq<Event>, p: string, asOf: int)
    requires StableRearrangement(before, after) && SoundEvents(before, p, asOf)
    ensures SoundEvents(after, p, asOf)
  {
    forall e | e in after
      ensures e in before
    {
      StableIsPermutation(before, after, e);
      assert e in multiset(after);
      assert e in multiset(before);
    }
  }

  /** One profile of Build: its events, sorted in place. */
  method SortProfile(events: array<Event>, ghost p: string, ghost asOf: int)
    requires SoundEvents(events[..], p, asOf)
    modifies events
    ensures SoundEvents(events[..], p, asOf) && Chronological(events[..])
    ensures StableRearrangement(old(events[..]), events[..])
  {
    ghost var before := events[..];
    SortChronologically(events);
    SortKeepsEvents(before, events[..], p, asOf);
  }

  function CorpusOf(corpus: map<string, seq<Event>>, p: string): seq<Event> { if p in corpus then corpus[p] else [] }

  ghost predicate SortedCorpus(corpus: map<string, seq<Event>>, asOf: int) {
    forall p :: p in corpus ==> SoundEvents(corpus[p], p, asOf) && Chronological(corpus[p])
  }

  // ---- Sending ----

  ghost predicate NoneOf(inFlight: multiset<Event>, p: string) {
    forall d: Event :: d in inFlight ==> d.profileId != p
  }

  /** A worker sends a profile's next event once the last Ingest has returned. */
  ghost predicate OneSender(cap: nat, steps: seq<E.Step>) {
    forall i :: 0 <= i < |steps| && steps[i].Arrive? ==> NoneOf(E.Run(cap, steps[..i]).inFlight, steps[i].e.profileId)
  }

  lemma OneSenderInit(cap: nat, steps: seq<E.Step>)
    requires steps != [] && OneSender(cap, steps)
    ensures OneSender(cap, steps[..|steps| - 1])
  {
    var init := steps[..|steps| - 1];
    forall i | 0 <= i < |init| && init[i].Arrive?
      ensures NoneOf(E.Run(cap, init[..i]).inFlight, init[i].e.profileId)
    {
      assert init[..i] == steps[..i] && init[i] == steps[i];
    }
  }

  ghost predicate AtMostOneOf(inFlight: multiset<Event>, p: string) {
    forall d: Event, e: Event :: d in inFlight && e in inFlight && d.profileId == p && e.profileId == p ==>
      d == e && inFlight[e] == 1
  }

  ghost predicate NoneLater(topic: seq<Event>, inFlight: multiset<Event>, p: string) {
    forall d: Event, e: Event :: d in topic && e in inFlight && d.profileId == p && e.profileId == p ==>
      d.timestampMs <= e.timestampMs
  }

  /** At most one event of p is in flight, and none on the topic is later than it. */
  ghost predicate InTurn(s: E.Edge, p: string) {
    && AtMostOneOf(s.inFlight, p) && NoneLater(s.topic, s.inFlight, p)
    && (forall d: Event :: d in s.topic ==> d in s.admitted)
    && Chronological(History(s.topic, p))
  }

  lemma LastOneOut(inFlight: multiset<Event>, e: Event, p: string)
    requires AtMostOneOf(inFlight, p) && e in inFlight
    ensures AtMostOneOf(inFlight - multiset{e}, p)
    ensures e.profileId == p ==> NoneOf(inFlight - multiset{e}, p)
  {
    var rest := inFlight - multiset{e};
    assert forall d: Event :: d in rest ==> d in inFlight;
    assert rest[e] == inFlight[e] - 1;
    assert forall d: Event :: d != e ==> rest[d] == inFlight[d];
  }

  lemma ChronologicalSnoc(h: seq<Event>, e: Event)
    ensures Chronological(h + [e]) <==> Chronological(h) && forall d :: d in h ==> d.timestampMs <= e.timestampMs
  {
    var t := h + [e];
    assert t[|h|] == e && forall i :: 0 <= i < |h| ==> t[i] == h[i];
    if Chronological(t) {
      forall d | d in h
        ensures d.timestampMs <= e.timestampMs
      {
        var i :| 0 <= i < |h| && h[i] == d;
        assert t[i].timestampMs <= t[|h|].timestampMs;
      }
    }
  }

  lemma ArriveInTurn(cap: nat, s: E.Edge, e: Event, p: string)
    requires InTurn(s, p) && (e.profileId == p ==> NoneOf(s.inFlight, p))
    requires Chronological(History(E.Next(cap, s, E.Arrive(e)).admitted, p))
    ensures InTurn(E.Next(cap, s, E.Arrive(e)), p)
  {
    var t := E.Next(cap, s, E.Arrive(e));
    if e.profileId == p && t.admitted == s.admitted + [e] {
      FilterSnoc(s.admitted, e, OfProfile(p));
      ChronologicalSnoc(History(s.admitted, p), e);
      forall d | d in s.topic && d.profileId == p
        ensures d.timestampMs <= e.timestampMs
      {
        FilterMember(s.admitted, OfProfile(p), d);
      }
    }
  }

  lemma LandInOrder(topic: seq<Event>, inFlight: multiset<Event>, e: Event, p: string)
    requires NoneLater(topic, inFlight, p) && Chronological(History(topic, p)) && e in inFlight
    ensures Chronological(History(topic + [e], p))
  {
    FilterSnoc(topic, e, OfProfile(p));
    if e.profileId == p {
      ChronologicalSnoc(History(topic, p), e);
      forall d | d in History(topic, p)
        ensures d.timestampMs <= e.timestampMs
      {
        FilterMember(topic, OfProfile(p), d);
      }
    }
  }

  /** e returns from Produce, landed or not. */
  lemma ReturnInTurn(s: E.Edge, t: E.Edge, e: Event, p: string)
    requires InTurn(s, p) && e in s.inFlight && e in s.admitted
    requires t.admitted == s.admitted && t.inFlight == s.inFlight - multiset{e}
    requires t.topic == s.topic || t.topic == s.topic + [e]
    ensures InTurn(t, p)
  {
    LastOneOut(s.inFlight, e, p);
    LandInOrder(s.topic, s.inFlight, e, p);
    assert forall d: Event :: d in t.inFlight ==> d in s.inFlight;
  }

  lemma InFlightAdmitted(cap: nat, steps: seq<E.Step>, e: Event)
    ensures e in E.Run(cap, steps).inFlight ==> e in E.Run(cap, steps).admitted
  {
    E.RunConserves(cap, steps, e);
    assert e in E.Run(cap, steps).admitted <==> e in multiset(E.Run(cap, steps).admitted);
  }

  lemma AdmittedPrefix(cap: nat, s: E.Edge, a: E.Step, p: string)
    requires Chronological(History(E.Next(cap, s, a).admitted, p))
    ensures Chronological(History(s.admitted, p))
  {
    if E.Next(cap, s, a).admitted != s.admitted {
      FilterSnoc(s.admitted, a.e, OfProfile(p));
      ChronologicalSnoc(History(s.admitted, p), a.e);
    }
  }

  /** Whatever other profiles' calls run beside, and whichever sends fail, a
      profile let in in time order lands in time order. */
  lemma {:induction false} TopicInTurn(cap: nat, steps: seq<E.Step>, p: string)
    requires OneSender(cap, steps) && Chronological(History(E.Run(cap, steps).admitted, p))
    ensures InTurn(E.Run(cap, steps), p)
  {
    if steps != [] {
      var init, a := steps[..|steps| - 1], steps[|steps| - 1];
      var s := E.Run(cap, init);
      OneSenderInit(cap, steps);
      AdmittedPrefix(cap, s, a, p);
      TopicInTurn(cap, init, p);
      if a.Arrive? {
        ArriveInTurn(cap, s, a.e, p);
      } else if a.e in s.inFlight {
        InFlightAdmitted(cap, init, a.e);
        ReturnInTurn(s, E.Next(cap, s, a), a.e, p);
      }
    }
  }

  /** While nothing has been refused: every admitted event of p is on the topic,
      in the order it was let in, but for the one in flight. */
  ghost predicate AllButOne(s: E.Edge, p: string) {
    if NoneOf(s.inFlight, p) then History(s.topic, p) == History(s.admitted, p)
    else exists e: Event :: e in s.inFlight && e.profileId == p && History(s.admitted, p) == History(s.topic, p) + [e]
  }

  lemma SameOthers(inFlight: multiset<Event>, e: Event, p: string)
    requires e.profileId != p
    ensures forall d: Event :: d.profileId == p ==> (d in inFlight - multiset{e} <==> d in inFlight)
    ensures forall d: Event :: d.profileId == p ==> (d in inFlight + multiset{e} <==> d in inFlight)
  {
  }

  lemma ArriveAllButOne(cap: nat, s: E.Edge, e: Event, p: string)
    requires AllButOne(s, p) && (e.profileId == p ==> NoneOf(s.inFlight, p))
    ensures AllButOne(E.Next(cap, s, E.Arrive(e)), p)
  {
    var t := E.Next(cap, s, E.Arrive(e));
    FilterSnoc(s.admitted, e, OfProfile(p));
    if t.admitted == s.admitted + [e] {
      if e.profileId == p {
        assert e in t.inFlight;
      } else {
        SameOthers(s.inFlight, e, p);
      }
    }
  }

  lemma LandAllButOne(s: E.Edge, t: E.Edge, e: Event, p: string)
    requires AllButOne(s, p) && AtMostOneOf(s.inFlight, p) && e in s.inFlight
    requires t.admitted == s.admitted && t.inFlight == s.inFlight - multiset{e} && t.topic == s.topic + [e]
    ensures AllButOne(t, p)
  {
    FilterSnoc(s.topic, e, OfProfile(p));
    LastOneOut(s.inFlight, e, p);
    if e.profileId != p {
      SameOthers(s.inFlight, e, p);
    }
  }

  lemma {:induction false} TopicAllButOne(cap: nat, steps: seq<E.Step>, p: string)
    requires OneSender(cap, steps) && E.Run(cap, steps).refused == multiset{}
    ensures AllButOne(E.Run(cap, steps), p) && AtMostOneOf(E.Run(cap, steps).inFlight, p)
  {
    if steps != [] {
      var init, a := steps[..|steps| - 1], steps[|steps| - 1];
      var s := E.Run(cap, init);
      OneSenderInit(cap, steps);
      RefusedGrows(cap, s, a);
      TopicAllButOne(cap, init, p);
      if a.Arrive? {
        ArriveAllButOne(cap, s, a.e, p);
        ArriveAtMostOne(cap, s, a.e, p);
      } else if a.e in s.inFlight {
        LastOneOut(s.inFlight, a.e, p);
        LandAllButOne(s, E.Next(cap, s, a), a.e, p);
      }
    }
  }

  /** A refusal is never taken back, so with none every return is a landing. */
  lemma RefusedGrows(cap: nat, s: E.Edge, a: E.Step)
    requires E.Next(cap, s, a).refused == multiset{}
    ensures s.refused == multiset{}
    ensures !a.Arrive? && a.e in s.inFlight ==> E.Next(cap, s, a).topic == s.topic + [a.e]
  {
    assert forall e: Event :: e in s.refused ==> e in E.Next(cap, s, a).refused;
    assert a.Fail? && !a.landed && a.e in s.inFlight ==> a.e in E.Next(cap, s, a).refused;
  }

  lemma ArriveAtMostOne(cap: nat, s: E.Edge, e: Event, p: string)
    requires AtMostOneOf(s.inFlight, p) && (e.profileId == p ==> NoneOf(s.inFlight, p))
    ensures AtMostOneOf(E.Next(cap, s, E.Arrive(e)).inFlight, p)
  {
    assert forall d: Event :: d in s.inFlight + multiset{e} <==> d == e || d in s.inFlight;
  }

  // ---- What the consumer receives ----

  /** The first send of each event goes out in corpus order, profile by profile. */
  ghost predicate Sent(cap: nat, steps: seq<E.Step>, corpus: map<string, seq<Event>>) {
    forall p :: History(FirstOccurrences(E.ByEventId(), E.Run(cap, steps).offered), p) == CorpusOf(corpus, p)
  }

  /** Kafka keys by profile: each profile's events are read in the order they landed. */
  ghost predicate PartitionOrder(topic: seq<Event>, received: seq<Event>) {
    forall p :: History(received, p) == History(topic, p)
  }

  /** What a run of the edge over a corpus must satisfy for the engine's theorems to apply. */
  ghost predicate SentInOrder(cap: nat, steps: seq<E.Step>, corpus: map<string, seq<Event>>, asOf: int) {
    && SortedCorpus(corpus, asOf) && OneSender(cap, steps) && Sent(cap, steps, corpus)
    && DuplicatesInWindow(E.ByEventId(), E.Run(cap, steps).offered, cap)
  }

  lemma AdmittedIsCorpus(cap: nat, steps: seq<E.Step>, corpus: map<string, seq<Event>>, p: string)
    requires Sent(cap, steps, corpus) && DuplicatesInWindow(E.ByEventId(), E.Run(cap, steps).offered, cap)
    ensures History(E.Run(cap, steps).admitted, p) == CorpusOf(corpus, p)
  {
    E.EdgeIsMemory(cap, steps);
    AdmitsExactlyTheReference(E.ByEventId(), cap, E.Run(cap, steps).offered);
  }

  lemma ReceivedFromCorpus(cap: nat, steps: seq<E.Step>, corpus: map<string, seq<Event>>, received: seq<Event>,
                           p: string, asOf: int)
    requires SentInOrder(cap, steps, corpus, asOf) && PartitionOrder(E.Run(cap, steps).topic, received)
    ensures forall e :: e in History(received, p) ==> e in CorpusOf(corpus, p)
    ensures Chronological(History(received, p))
  {
    var s := E.Run(cap, steps);
    AdmittedIsCorpus(cap, steps, corpus, p);
    TopicInTurn(cap, steps, p);
    forall e | e in History(received, p)
      ensures e in CorpusOf(corpus, p)
    {
      FilterMember(s.topic, OfProfile(p), e);
      FilterMember(s.admitted, OfProfile(p), e);
    }
  }

  lemma IdsStayDistinct(cap: nat, steps: seq<E.Step>, p: string)
    requires DuplicatesInWindow(E.ByEventId(), E.Run(cap, steps).offered, cap)
    ensures PurchaseIdsDistinct(History(E.Run(cap, steps).topic, p))
  {
    E.EdgeEstablishesUniqueIds(cap, steps, E.Run(cap, steps).topic, p);
  }

  /** Corpora sorted in place, sent one event of a profile at a time among any
      other profiles' calls, some of them failing, and read back partition by
      partition: what the consumer receives is well formed. */
  lemma ReceivedWellFormed(cap: nat, steps: seq<E.Step>, corpus: map<string, seq<Event>>, received: seq<Event>, asOf: int)
    requires SentInOrder(cap, steps, corpus, asOf) && PartitionOrder(E.Run(cap, steps).topic, received)
    ensures LogWellFormed(received, asOf)
  {
    forall p
      ensures WellFormed(History(received, p)) && NoneAfter(History(received, p), asOf)
    {
      var h := History(received, p);
      ReceivedFromCorpus(cap, steps, corpus, received, p, asOf);
      IdsStayDistinct(cap, steps, p);
      assert forall i :: 0 <= i < |h| ==> h[i] in CorpusOf(corpus, p);
    }
    forall i | 0 <= i < |received|
      ensures received[i].timestampMs <= asOf
    {
      var h := History(received, received[i].profileId);
      FilterMember(received, OfProfile(received[i].profileId), received[i]);
      var j :| 0 <= j < |h| && h[j] == received[i];
    }
  }

  /** Once every call has returned and none was refused, the consumer receives exactly the corpora. */
  lemma ReceivedIsCorpus(cap: nat, steps: seq<E.Step>, corpus: map<string, seq<Event>>, received: seq<Event>, p: string)
    requires OneSender(cap, steps) && Sent(cap, steps, corpus)
    requires DuplicatesInWindow(E.ByEventId(), E.Run(cap, steps).offered, cap)
    requires PartitionOrder(E.Run(cap, steps).topic, received)
    requires E.Run(cap, steps).inFlight == E.Run(cap, steps).refused == multiset{}
    ensures History(received, p) == CorpusOf(corpus, p)
  {
    AdmittedIsCorpus(cap, steps, corpus, p);
    TopicAllButOne(cap, steps, p);
  }

  // ---- End to end ----

  /** From the corpora to the comparison: once the edge is at rest with nothing
      refused and the bench has stored and applied everything, segment k's
      members after Finalize are the recompute over the store, and both are the
      profiles whose corpus the query selects. */
  lemma EndToEnd(cap: nat, steps: seq<E.Step>, corpus: map<string, seq<Event>>, bench: seq<B.Step>,
                 segs: seq<Segment>, k: nat, asOf: int)
    requires SentInOrder(cap, steps, corpus, asOf)
    requires E.Run(cap, steps).inFlight == E.Run(cap, steps).refused == multiset{}
    requires PartitionOrder(E.Run(cap, steps).topic, B.Run(bench).applied)
    requires B.Unstored(B.Run(bench)) == [] && B.Pending(B.Run(bench).consumer) == []
    requires DistinctIds(segs) && k < |segs| && Sane(segs[k]) && !segs[k].family.UnknownFamily?
    requires forall p :: EdgeClear(CorpusOf(corpus, p), segs[k], asOf)
    ensures var b := B.Run(bench);
            var members := SMembers(Swept(segs, RunOps(segs, Applies(b.applied)), asOf).membersOf, segs[k].id);
            && Recompute(b.stored, segs[k], asOf) == Ok(members)
            && forall p :: p in members <==> QuerySelects(CorpusOf(corpus, p), segs[k], asOf)
  {
    var b := B.Run(bench);
    ReceivedWellFormed(cap, steps, corpus, b.applied, asOf);
    forall p
      ensures History(b.applied, p) == CorpusOf(corpus, p)
    {
      ReceivedIsCorpus(cap, steps, corpus, b.applied, p);
    }
    B.FinalDiffIsExact(segs, bench, k, asOf);
    forall p
      ensures p in Recompute(b.stored, segs[k], asOf).value <==> QuerySelects(CorpusOf(corpus, p), segs[k], asOf)
    {
      SelectedMeans(CorpusOf(corpus, p), segs[k], asOf);
      StoredAsApplied(bench, segs[k], asOf);
      RecomputeByProfile(b.applied, segs[k], asOf, p);
    }
  }

  /** In particular for every one of the test segments, with nothing assumed of them. */
  lemma EndToEndOnTestSegments(cap: nat, steps: seq<E.Step>, corpus: map<string, seq<Event>>, bench: seq<B.Step>,
                               segs: seq<Segment>, k: nat, asOf: int)
    requires SentInOrder(cap, steps, corpus, asOf)
    requires E.Run(cap, steps).inFlight == E.Run(cap, steps).refused == multiset{}
    requires PartitionOrder(E.Run(cap, steps).topic, B.Run(bench).applied)
    requires B.Unstored(B.Run(bench)) == [] && B.Pending(B.Run(bench).consumer) == []
    requires Built(segs, 50) && k < 50
    requires forall p :: EdgeClear(CorpusOf(corpus, p), segs[k], asOf)
    ensures var b := B.Run(bench);
            var members := SMembers(Swept(segs, RunOps(segs, Applies(b.applied)), asOf).membersOf, segs[k].id);
            && Recompute(b.stored, segs[k], asOf) == Ok(members)
            && forall p :: p in members <==> QuerySelects(CorpusOf(corpus, p), segs[k], asOf)
  {
    TestSegmentsUsable(segs);
    EndToEnd(cap, steps, corpus, bench, segs, k, asOf);
  }

  lemma StoredAsApplied(bench: seq<B.Step>, seg: Segment, asOf: int)
    requires B.Unstored(B.Run(bench)) == [] && B.Pending(B.Run(bench).consumer) == []
    ensures Recompute(B.Run(bench).stored, seg, asOf) == Recompute(B.Run(bench).applied, seg, asOf)
  {
    var b := B.Run(bench);
    var any: Event :| true;
    B.RunConserves(bench, any);
    B.StoreComplete(bench);
    assert b.received == b.applied;
    RecomputePermutation(b.applied, b.stored, seg, asOf);
  }

  // ---- The premises are met ----

  /** One call at a time, each produce accepted. */
  function OneByOne(order: seq<Event>): seq<E.Step> {
    if order == [] then []
    else OneByOne(order[..|order| - 1]) + [E.Arrive(order[|order| - 1]), E.Land(order[|order| - 1])]
  }

  lemma OneEdgeStep(cap: nat, before: seq<E.Step>, a: E.Step)
    ensures E.Run(cap, before + [a]) == E.Next(cap, E.Run(cap, before), a)
  {
    assert (before + [a])[..|before|] == before;
  }

  lemma EdgeSteps(cap: nat, before: seq<E.Step>, x: E.Step, y: E.Step)
    ensures E.Run(cap, before + [x, y]) == E.Next(cap, E.Next(cap, E.Run(cap, before), x), y)
  {
    assert before + [x, y] == before + [x] + [y];
    OneEdgeStep(cap, before, x);
    OneEdgeStep(cap, before + [x], y);
  }

  predicate IdUsed(order: seq<Event>, id: string) { exists i :: 0 <= i < |order| && order[i].eventId == id }

  /** Every event of order is on the topic, in that order, and nothing else has happened. */
  ghost predicate AllLanded(s: E.Edge, order: seq<Event>) {
    && s.offered == s.topic == order && s.inFlight == s.refused == multiset{}
    && forall id :: id in s.window.members ==> IdUsed(order, id)
  }

  lemma OneCall(cap: nat, s: E.Edge, order: seq<Event>, e: Event)
    requires AllLanded(s, order) && !IdUsed(order, e.eventId)
    ensures AllLanded(E.Next(cap, E.Next(cap, s, E.Arrive(e)), E.Land(e)), order + [e])
  {
    var t, all := E.Next(cap, E.Next(cap, s, E.Arrive(e)), E.Land(e)), order + [e];
    assert t.window.members <= s.window.members + {e.eventId};
    assert all[|order|].eventId == e.eventId;
    forall id | IdUsed(order, id)
      ensures IdUsed(all, id)
    {
      var i :| 0 <= i < |order| && order[i].eventId == id;
      assert all[i].eventId == id;
    }
  }

  lemma LastIsNew(order: seq<Event>)
    requires order != [] && E.IdsDistinct(order)
    ensures var init := order[..|order| - 1];
            E.IdsDistinct(init) && !IdUsed(init, order[|order| - 1].eventId) && order == init + [order[|order| - 1]]
  {
    assert forall i :: 0 <= i < |order| - 1 ==> E.IdOf()(order[i]) != E.IdOf()(order[|order| - 1]);
  }

  lemma {:induction false} OneByOneLands(cap: nat, order: seq<Event>)
    requires E.IdsDistinct(order)
    ensures AllLanded(E.Run(cap, OneByOne(order)), order)
  {
    if order != [] {
      var init, e := order[..|order| - 1], order[|order| - 1];
      LastIsNew(order);
      OneByOneLands(cap, init);
      var s := E.Run(cap, OneByOne(init));
      OneCall(cap, s, init, e);
      EdgeSteps(cap, OneByOne(init), E.Arrive(e), E.Land(e));
      assert E.Run(cap, OneByOne(order)) == E.Next(cap, E.Next(cap, s, E.Arrive(e)), E.Land(e));
    }
  }

  lemma {:induction false} OneByOneInTurn(cap: nat, order: seq<Event>)
    requires E.IdsDistinct(order)
    ensures OneSender(cap, OneByOne(order))
  {
    if order != [] {
      var init := order[..|order| - 1];
      var before, steps := OneByOne(init), OneByOne(order);
      OneByOneInTurn(cap, init);
      OneByOneLands(cap, init);
      forall i | 0 <= i < |steps| && steps[i].Arrive?
        ensures NoneOf(E.Run(cap, steps[..i]).inFlight, steps[i].e.profileId)
      {
        if i < |before| {
          assert steps[..i] == before[..i] && steps[i] == before[i];
        } else {
          assert steps[..i] == before;
        }
      }
    }
  }

  lemma {:induction false} NothingRepeats(order: seq<Event>)
    requires E.IdsDistinct(order)
    ensures FirstOccurrences(E.ByEventId(), order) == order
  {
    if order != [] {
      var init, e := order[..|order| - 1], order[|order| - 1];
      NothingRepeats(init);
      assert forall i :: 0 <= i < |init| ==> E.IdOf()(order[i]) != E.IdOf()(e);
    }
  }

  /** Each event received, applied, flushed by the ticker and inserted. */
  function EachInserted(log: seq<Event>): seq<B.Step> {
    if log == [] then []
    else EachInserted(log[..|log| - 1]) + [B.Receive(log[|log| - 1]), B.ApplyPending, B.Tick, B.InsertDone(true)]
  }

  lemma {:induction false} EachInsertedStores(log: seq<Event>)
    ensures var b := B.Run(EachInserted(log));
            && b.received == b.applied == b.stored == log && b.consumer.Idle?
            && b.batch == b.mainRows == b.dropped == []
  {
    if log != [] {
      var init, e := log[..|log| - 1], log[|log| - 1];
      var before := EachInserted(init);
      EachInsertedStores(init);
      var b1 := B.Next(B.Run(before), B.Receive(e));
      BenchSteps(before, B.Receive(e), B.ApplyPending, B.Tick, B.InsertDone(true));
      assert b1.batch == [e] && b1.consumer == B.MustApply(e);
      assert log == init + [e];
    }
  }

  lemma BenchSteps(before: seq<B.Step>, w: B.Step, x: B.Step, y: B.Step, z: B.Step)
    ensures B.Run(before + [w, x, y, z]) == B.Next(B.Next(B.Next(B.Next(B.Run(before), w), x), y), z)
  {
    assert before + [w, x, y, z] == before + [w] + [x] + [y] + [z];
    OneBenchStep(before, w);
    OneBenchStep(before + [w], x);
    OneBenchStep(before + [w] + [x], y);
    OneBenchStep(before + [w] + [x] + [y], z);
  }

  lemma OneBenchStep(before: seq<B.Step>, a: B.Step)
    ensures B.Run(before + [a]) == B.Next(B.Run(before), a)
  {
    assert (before + [a])[..|before|] == before;
  }

  /** Any sorted corpora with distinct ids, their profiles interleaved in any way,
      can be sent, received and stored so that EndToEnd applies. */
  lemma EveryCorpusCanBeSent(cap: nat, corpus: map<string, seq<Event>>, order: seq<Event>, asOf: int)
    requires SortedCorpus(corpus, asOf) && E.IdsDistinct(order)
    requires forall p :: History(order, p) == CorpusOf(corpus, p)
    ensures SentInOrder(cap, OneByOne(order), corpus, asOf)
    ensures var s, b := E.Run(cap, OneByOne(order)), B.Run(EachInserted(order));
            && s.inFlight == s.refused == multiset{} && PartitionOrder(s.topic, b.applied)
            && B.Unstored(b) == [] && B.Pending(b.consumer) == []
  {
    OneByOneLands(cap, order);
    OneByOneInTurn(cap, order);
    NothingRepeats(order);
    EachInsertedStores(order);
    forall i | 0 <= i < |order|
      ensures !Occurs(E.ByEventId(), order[..i], order[i])
    {
      assert forall j :: 0 <= j < i ==> E.IdOf()(order[j]) != E.IdOf()(order[i]);
    }
  }

  /** Such a corpus, spelled out. */
  lemma CorpusByExample()
    ensures SortedCorpus(map["p" := [Event("1", "p", AddToCart, 1, "", 500), Event("2", "p", Purchase, 9, "", 500)]], 9)
  {
  }
}
