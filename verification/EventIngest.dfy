/** internal/eventingest: one global dedup window on event ids, then produce,
    with no spool. The lock covers Admit alone, so any number of calls may be
    inside Produce at once: a run is any sequence of steps, and a step that is
    not enabled leaves the state alone. */
module EventIngest {
  import opened Events
  import opened Producers
  import opened Sequences
  import opened Windows

  const MAX_EVENT_IDS := 4_000_000

  /** All events share one group: the window is global. */
  function ByEventId(): Keying<Event, (), string> {
    Keying((e: Event) => (), (e: Event) => e.eventId)
  }

  class EventDedup {
    const cap: nat
    var seen: set<string>
    var order: seq<string>

    ghost function View(): Window<string>
      reads this
    {
      Window(seen, order)
    }

    constructor (cap: nat)
      ensures View() == EmptyWindow() && this.cap == cap
    {
      this.cap := cap;
      seen, order := {}, [];
    }

    /** NewEventDedup, with the source's bound; the theorems hold of any. */
    constructor Standard()
      ensures View() == EmptyWindow() && cap == 4_000_000
    {
      cap := MAX_EVENT_IDS;
      seen, order := {}, [];
    }

    method Admit(eventId: string) returns (isNew: bool)
      modifies this
      ensures (View(), isNew) == AdmitKey(old(View()), eventId, cap)
    {
      if eventId in seen {
        return false;
      }
      seen := seen + {eventId};
      order := order + [eventId];
      if |order| > cap {
        var oldest := order[0];
        order := order[1..];
        seen := seen - {oldest};
      }
      isNew := true;
    }

    method EntryCount() returns (n: nat)
      ensures n == |View().members|
    {
      n := |seen|;
    }
  }

  datatype Edge = Edge(
    window: Window<string>,      // the dedup memory
    offered: seq<Event>,         // every Ingest argument, in admission-lock order
    admitted: seq<Event>,        // those Admit let through
    inFlight: multiset<Event>,   // calls inside Produce
    topic: seq<Event>,           // what the topic holds, in landing order
    refused: multiset<Event>,    // errors reported, nothing landed
    hidden: multiset<Event>)     // errors reported, landed all the same

  datatype Step = Arrive(e: Event) | Land(e: Event) | Fail(e: Event, landed: bool)

  const START_EDGE := Edge(Window({}, []), [], [], multiset{}, [], multiset{}, multiset{})

  /** Ingest answers accepted=false: the id is remembered. */
  predicate Duplicate(cap: nat, s: Edge, id: string) { !AdmitKey(s.window, id, cap).1 }

  predicate Enabled(s: Edge, a: Step) { a.Arrive? || a.e in s.inFlight }

  function Do(cap: nat, s: Edge, a: Step): Edge
    requires Enabled(s, a)
  {
    match a
    case Arrive(e) =>
      var (w, isNew) := AdmitKey(s.window, e.eventId, cap);
      var s := s.(window := w, offered := s.offered + [e]);
      if isNew then s.(admitted := s.admitted + [e], inFlight := s.inFlight + multiset{e}) else s
    case Land(e) =>
      s.(inFlight := s.inFlight - multiset{e}, topic := s.topic + [e])
    case Fail(e, landed) =>
      var s := s.(inFlight := s.inFlight - multiset{e});
      if landed then s.(topic := s.topic + [e], hidden := s.hidden + multiset{e})
      else s.(refused := s.refused + multiset{e})
  }

  function Next(cap: nat, s: Edge, a: Step): Edge {
    if Enabled(s, a) then Do(cap, s, a) else s
  }

  function Run(cap: nat, steps: seq<Step>): Edge {
    if steps == [] then START_EDGE else Next(cap, Run(cap, steps[..|steps| - 1]), steps[|steps| - 1])
  }

  // ---- One call at a time ----

  datatype Reply = Reply(accepted: bool, failed: bool)

  /** What one uninterrupted Ingest call does, and what it answers. */
  function AfterIngest(cap: nat, s: Edge, e: Event, answer: Answer): (Edge, Reply) {
    var (w, isNew) := AdmitKey(s.window, e.eventId, cap);
    var s := s.(window := w, offered := s.offered + [e]);
    if !isNew then (s, Reply(false, false))
    else
      var s := s.(admitted := s.admitted + [e]);
      match answer
      case Accepted => (s.(topic := s.topic + [e]), Reply(true, false))
      case Refused => (s.(refused := s.refused + multiset{e}), Reply(true, true))
      case TimedOutAfterLanding =>
        (s.(topic := s.topic + [e], hidden := s.hidden + multiset{e}), Reply(true, true))
  }

  class Pipeline {
    const dedup: EventDedup
    var topic: seq<Event>
    ghost var offered: seq<Event>
    ghost var admitted: seq<Event>
    ghost var refused: multiset<Event>
    ghost var hidden: multiset<Event>

    /** The edge between calls. */
    ghost function View(): Edge
      reads this, dedup
    {
      Edge(dedup.View(), offered, admitted, multiset{}, topic, refused, hidden)
    }

    constructor (dedup: EventDedup)
      requires dedup.View() == EmptyWindow()
      ensures this.dedup == dedup && View() == START_EDGE
    {
      this.dedup := dedup;
      topic, offered, admitted := [], [], [];
      refused, hidden := multiset{}, multiset{};
    }

    /** The producer's side of Produce; true when it reports success. */
    method Produce(e: Event, answer: Answer) returns (ok: bool)
      modifies this`topic, this`refused, this`hidden
      ensures ok == answer.Accepted?
      ensures topic == if answer.Refused? then old(topic) else old(topic) + [e]
      ensures refused == if answer.Refused? then old(refused) + multiset{e} else old(refused)
      ensures hidden == if answer.TimedOutAfterLanding? then old(hidden) + multiset{e} else old(hidden)
    {
      ok := answer.Accepted?;
      if answer.Refused? {
        refused := refused + multiset{e};
      } else {
        topic := topic + [e];
      }
      if answer.TimedOutAfterLanding? {
        hidden := hidden + multiset{e};
      }
    }

    method Ingest(e: Event, answer: Answer) returns (reply: Reply)
      modifies this, dedup
      ensures (View(), reply) == AfterIngest(dedup.cap, old(View()), e, answer)
    {
      offered := offered + [e];
      var isNew := dedup.Admit(e.eventId);
      if !isNew {
        return Reply(false, false);
      }
      admitted := admitted + [e];
      var ok := Produce(e, answer);
      reply := Reply(true, !ok);
    }
  }

  /** One Ingest call is a run of the step relation: the dedup verdict and the
      producer's answer pick which. */
  lemma IngestIsARun(cap: nat, s: Edge, e: Event, answer: Answer)
    requires s.inFlight == multiset{}
    ensures var arrived := Next(cap, s, Arrive(e));
            var (t, reply) := AfterIngest(cap, s, e, answer);
            && (Duplicate(cap, s, e.eventId) ==> t == arrived && reply == Reply(false, false))
            && (!Duplicate(cap, s, e.eventId) ==>
                  && reply == Reply(true, !answer.Accepted?)
                  && t == Next(cap, arrived,
                            if answer.Accepted? then Land(e) else Fail(e, answer.TimedOutAfterLanding?)))
  {
    var arrived := Next(cap, s, Arrive(e));
    if !Duplicate(cap, s, e.eventId) {
      assert arrived.inFlight == multiset{e};
      assert multiset{e} - multiset{e} == multiset{};
    }
  }

  // ---- Over every run ----

  /** The edge is the generic bounded memory with a single group. */
  lemma {:induction false} EdgeIsMemory(cap: nat, steps: seq<Step>)
    ensures var s := Run(cap, steps);
            var m := Offer(ByEventId(), cap, s.offered);
            s.admitted == m.admitted && s.window == WindowOf(m.seen, ())
  {
    if steps != [] {
      var s, a := Run(cap, steps[..|steps| - 1]), steps[|steps| - 1];
      EdgeIsMemory(cap, steps[..|steps| - 1]);
      if a.Arrive? {
        assert (s.offered + [a.e])[..|s.offered|] == s.offered;
      }
    }
  }

  /** Every admitted copy is inside Produce, on the topic, or refused, once; and
      what landed behind an error is on the topic. Stated for the copies of q. */
  ghost predicate Conserved(s: Edge, q: Event) {
    && multiset(s.admitted)[q] == multiset(s.topic)[q] + s.inFlight[q] + s.refused[q]
    && s.hidden[q] <= multiset(s.topic)[q]
  }

  lemma CountSnoc(es: seq<Event>, e: Event, q: Event)
    ensures multiset(es + [e])[q] == multiset(es)[q] + multiset{e}[q]
  {
  }

  lemma StepConserves(cap: nat, s: Edge, a: Step, q: Event)
    requires Conserved(s, q)
    ensures Conserved(Next(cap, s, a), q)
  {
    CountSnoc(s.admitted, a.e, q);
    CountSnoc(s.topic, a.e, q);
  }

  lemma {:induction false} RunConserves(cap: nat, steps: seq<Step>, q: Event)
    ensures Conserved(Run(cap, steps), q)
  {
    if steps != [] {
      RunConserves(cap, steps[..|steps| - 1], q);
      StepConserves(cap, Run(cap, steps[..|steps| - 1]), steps[|steps| - 1], q);
    }
  }

  // ---- The topic against the reference ----

  /** Over every run: the topic is a permutation of the reference dedup of what
      was offered exactly when what did not reach it, still in flight or
      refused, is what was readmitted. */
  lemma TopicMatchesReference(cap: nat, steps: seq<Step>)
    ensures var s := Run(cap, steps);
            SamePermutation(s.topic, FirstOccurrences(ByEventId(), s.offered)) <==>
            s.inFlight + s.refused == Readmitted(ByEventId(), cap, s.offered)
  {
    var s := Run(cap, steps);
    EdgeIsMemory(cap, steps);
    ReadmittedExactly(ByEventId(), cap, s.offered);
    AdmittedPlaces(cap, steps);
    CancelLeft(multiset(s.topic), s.inFlight + s.refused,
               multiset(FirstOccurrences(ByEventId(), s.offered)), Readmitted(ByEventId(), cap, s.offered));
  }

  lemma AdmittedPlaces(cap: nat, steps: seq<Step>)
    ensures var s := Run(cap, steps); multiset(s.admitted) == multiset(s.topic) + (s.inFlight + s.refused)
  {
    var s := Run(cap, steps);
    forall q
      ensures multiset(s.admitted)[q] == (multiset(s.topic) + (s.inFlight + s.refused))[q]
    {
      RunConserves(cap, steps, q);
    }
  }

  /** In the window, exactly when every call let in has landed; when every call
      let in has landed, exactly in the window. */
  lemma TopicMatchesInWindow(cap: nat, steps: seq<Step>)
    ensures var s := Run(cap, steps);
            var matches := SamePermutation(s.topic, FirstOccurrences(ByEventId(), s.offered));
            var inWindow := DuplicatesInWindow(ByEventId(), s.offered, cap);
            && (inWindow ==> (matches <==> s.inFlight + s.refused == multiset{}))
            && (s.inFlight + s.refused == multiset{} ==> (matches <==> inWindow))
  {
    TopicMatchesReference(cap, steps);
    ReadmittedExactly(ByEventId(), cap, Run(cap, steps).offered);
  }

  // ---- Unique ids downstream ----

  function IdOf(): Event -> string { (e: Event) => e.eventId }

  ghost predicate IdsDistinct(es: seq<Event>) { DistinctBy(es, IdOf()) }

  lemma AdmittedIdsDistinct(cap: nat, steps: seq<Step>)
    ensures var s := Run(cap, steps);
            IdsDistinct(s.admitted) <==> DuplicatesInWindow(ByEventId(), s.offered, cap)
  {
    var s := Run(cap, steps);
    EdgeIsMemory(cap, steps);
    AdmittedKeysDistinct(ByEventId(), cap, s.offered);
    assert forall i, j :: 0 <= i < j < |s.admitted| ==>
        (SameKey(ByEventId(), s.admitted[i], s.admitted[j]) <==> IdOf()(s.admitted[i]) == IdOf()(s.admitted[j]));
  }

  /** Whatever order calls land in and whatever produces fail, landed or not,
      ids on the topic are unique as long as duplicates stay in the window; once
      every call let in has landed, only then. */
  lemma TopicIdsUnique(cap: nat, steps: seq<Step>)
    ensures var s := Run(cap, steps);
            var inWindow := DuplicatesInWindow(ByEventId(), s.offered, cap);
            && (inWindow ==> IdsDistinct(s.topic))
            && (s.inFlight + s.refused == multiset{} ==> (IdsDistinct(s.topic) <==> inWindow))
  {
    var s := Run(cap, steps);
    AdmittedIdsDistinct(cap, steps);
    AdmittedPlaces(cap, steps);
    if IdsDistinct(s.admitted) {
      DistinctWithin(s.admitted, s.topic, IdOf());
    }
    if s.inFlight + s.refused == multiset{} && IdsDistinct(s.topic) {
      assert multiset(s.topic) == multiset(s.admitted);
      DistinctByPermutation(s.topic, s.admitted, IdOf());
    }
  }

  /** However partitions are merged, what the consumer receives satisfies the
      engine's unique-id assumption for every profile. */
  lemma EdgeEstablishesUniqueIds(cap: nat, steps: seq<Step>, received: seq<Event>, p: string)
    requires DuplicatesInWindow(ByEventId(), Run(cap, steps).offered, cap)
    requires SamePermutation(Run(cap, steps).topic, received)
    ensures PurchaseIdsDistinct(History(received, p))
  {
    TopicIdsUnique(cap, steps);
    DistinctByPermutation(Run(cap, steps).topic, received, IdOf());
    FilterDistinctBy(received, IdOf(), OfProfile(p));
    assert forall e: Event :: IdOf()(e) == e.eventId;
  }

  // ---- What a duplicate is told ----

  /** An event of this id is inside Produce or on the topic: what the caller of
      a duplicate is led to believe. */
  ghost predicate OnItsWay(s: Edge, id: string) {
    exists d: Event :: d.eventId == id && (d in s.topic || d in s.inFlight)
  }

  /** Some event of this id was let in and not refused. */
  ghost predicate NotAllRefused(s: Edge, id: string) {
    exists d: Event :: d.eventId == id && multiset(s.admitted)[d] > s.refused[d]
  }

  /** Admit lets an id in exactly when it is not among the last cap let in. */
  lemma DuplicateByWindow(cap: nat, steps: seq<Step>, id: string)
    ensures var s := Run(cap, steps);
            Duplicate(cap, s, id) <==> id in LastN(Ids(ByEventId(), s.admitted, ()), cap)
  {
    var s := Run(cap, steps);
    EdgeIsMemory(cap, steps);
    WindowContents(ByEventId(), cap, s.offered, ());
    AdmitKeyHolds(s.window, Ids(ByEventId(), s.admitted, ()), id, cap);
  }

  lemma OnItsWayExactly(cap: nat, steps: seq<Step>, id: string)
    ensures OnItsWay(Run(cap, steps), id) <==> NotAllRefused(Run(cap, steps), id)
  {
    var s := Run(cap, steps);
    forall d: Event
      ensures d in s.topic || d in s.inFlight <==> multiset(s.admitted)[d] > s.refused[d]
    {
      RunConserves(cap, steps, d);
      assert d in s.topic <==> d in multiset(s.topic);
    }
  }

  /** At every point of every run, whatever was sent before: a send, a retry of
      a failed one included, is answered as a duplicate exactly when its id is
      among the last cap let in, and that answer is true exactly when some event
      of the id was let in and not refused; any other send goes to the producer. */
  lemma DuplicateAnswerExact(cap: nat, steps: seq<Step>, e: Event)
    ensures var s := Run(cap, steps);
            var t := Next(cap, s, Arrive(e));
            && (Duplicate(cap, s, e.eventId) <==> e.eventId in LastN(Ids(ByEventId(), s.admitted, ()), cap))
            && (OnItsWay(s, e.eventId) <==> NotAllRefused(s, e.eventId))
            && t.topic == s.topic
            && t.inFlight == (if Duplicate(cap, s, e.eventId) then s.inFlight else s.inFlight + multiset{e})
  {
    DuplicateByWindow(cap, steps, e.eventId);
    OnItsWayExactly(cap, steps, e.eventId);
  }

  // ---- One send of an id ----

  function WithId(id: string): Event -> bool { (e: Event) => e.eventId == id }

  /** e is the only event of its id offered, and it was offered once. */
  predicate SoleSend(s: Edge, e: Event) { Filter(s.offered, WithId(e.eventId)) == [e] }

  /** Of the events of one id, the first offered is let in, and no more than were offered. */
  ghost predicate FirstLetIn(s: Edge, id: string) {
    var sent, let := Filter(s.offered, WithId(id)), Filter(s.admitted, WithId(id));
    |let| <= |sent| && (sent != [] ==> let != [] && let[0] == sent[0])
  }

  lemma {:induction false} AdmittedOfId(cap: nat, steps: seq<Step>, id: string)
    ensures FirstLetIn(Run(cap, steps), id)
  {
    if steps != [] {
      var init, a := steps[..|steps| - 1], steps[|steps| - 1];
      AdmittedOfId(cap, init, id);
      if a.Arrive? {
        if a.e.eventId == id && Filter(Run(cap, init).admitted, WithId(id)) == [] {
          NeverLetIn(cap, init, a.e);
        }
        ArrivalOfId(cap, Run(cap, init), a.e, id);
      }
    }
  }

  lemma ArrivalOfId(cap: nat, s: Edge, e: Event, id: string)
    requires FirstLetIn(s, id)
    requires e.eventId == id && Filter(s.admitted, WithId(id)) == [] ==> !Duplicate(cap, s, id)
    ensures FirstLetIn(Next(cap, s, Arrive(e)), id)
  {
    FilterSnoc(s.offered, e, WithId(id));
    FilterSnoc(s.admitted, e, WithId(id));
  }

  lemma NeverLetIn(cap: nat, steps: seq<Step>, e: Event)
    requires Filter(Run(cap, steps).admitted, WithId(e.eventId)) == []
    ensures !Duplicate(cap, Run(cap, steps), e.eventId)
  {
    var admitted := Run(cap, steps).admitted;
    DuplicateByWindow(cap, steps, e.eventId);
    IdsMember(ByEventId(), admitted, (), e.eventId);
    LastNWithin(Ids(ByEventId(), admitted, ()), cap, e.eventId);
    if i :| 0 <= i < |admitted| && admitted[i].eventId == e.eventId {
      FilterMember(admitted, WithId(e.eventId), admitted[i]);
    }
  }

  /** A sole send is let in once, and from then on sits in exactly one place: a
      retry is told the truth unless that place is refused, whether or not the
      caller was told of an error. */
  lemma SoleSendExactly(cap: nat, steps: seq<Step>, e: Event)
    requires SoleSend(Run(cap, steps), e)
    ensures var s := Run(cap, steps);
            && multiset(s.topic)[e] + s.inFlight[e] + s.refused[e] == 1
            && (OnItsWay(s, e.eventId) <==> e !in s.refused)
            && (e in s.hidden ==> e in s.topic && OnItsWay(s, e.eventId))
  {
    var s := Run(cap, steps);
    AdmittedOfId(cap, steps, e.eventId);
    RunConserves(cap, steps, e);
    OnItsWayExactly(cap, steps, e.eventId);
    assert Filter(s.admitted, WithId(e.eventId)) == [e];
    forall d: Event | d.eventId == e.eventId
      ensures multiset(s.admitted)[d] == if d == e then 1 else 0
    {
      FilterCount(s.admitted, WithId(e.eventId), d);
      assert multiset([e])[d] == if d == e then 1 else 0;
    }
    assert e in s.topic <==> e in multiset(s.topic);
  }

  /** A refused send, retried: answered as delivered although nothing is on its way. */
  lemma RefusedSendRetried(cap: nat, e: Event) returns (steps: seq<Step>)
    requires cap >= 1
    ensures var s := Run(cap, steps);
            Duplicate(cap, s, e.eventId) && !OnItsWay(s, e.eventId) && s.inFlight == multiset{}
  {
    steps := [Arrive(e), Fail(e, false)];
    var s1 := Next(cap, START_EDGE, Arrive(e));
    assert steps[..1] == [Arrive(e)] && steps[..1][..0] == [];
    assert Run(cap, [Arrive(e)]) == s1;
    assert s1.inFlight == multiset{e};
    var s2 := Next(cap, s1, Fail(e, false));
    assert Run(cap, steps) == s2;
    assert multiset{e} - multiset{e} == multiset{};
  }

  /** A sole send is remembered, and its retry swallowed, exactly while fewer
      than cap ids have been let in since. */
  lemma SwallowedWhileRemembered(cap: nat, steps: seq<Step>, e: Event) returns (before: seq<Event>, since: seq<Event>)
    requires SoleSend(Run(cap, steps), e)
    ensures Run(cap, steps).admitted == before + [e] + since
    ensures Duplicate(cap, Run(cap, steps), e.eventId) <==> |since| < cap
  {
    var s := Run(cap, steps);
    AdmittedOfId(cap, steps, e.eventId);
    assert Filter(s.admitted, WithId(e.eventId)) == [e];
    before, since := AroundOnly(s.admitted, WithId(e.eventId), e);
    DuplicateByWindow(cap, steps, e.eventId);
    InLastOnlyAt(before, e, since, cap);
  }

  lemma {:induction false} AroundOnly<T>(s: seq<T>, f: T -> bool, x: T) returns (a: seq<T>, b: seq<T>)
    requires Filter(s, f) == [x]
    ensures s == a + [x] + b && forall y :: y in a || y in b ==> !f(y)
  {
    var init, last := s[..|s| - 1], s[|s| - 1];
    assert s == init + [last];
    if f(last) {
      a, b := init, [];
      forall y | y in a
        ensures !f(y)
      {
        FilterMember(init, f, y);
      }
    } else {
      a, b := AroundOnly(init, f, x);
      b := b + [last];
    }
  }

  lemma {:induction false} IdsOfAll(es: seq<Event>)
    ensures var ids := Ids(ByEventId(), es, ());
            |ids| == |es| && forall i :: 0 <= i < |es| ==> ids[i] == es[i].eventId
  {
    if es != [] {
      IdsOfAll(es[..|es| - 1]);
    }
  }

  /** An id at one position only is among the last cap exactly while fewer than cap follow it. */
  lemma InLastOnlyAt(a: seq<Event>, e: Event, b: seq<Event>, cap: nat)
    requires forall d :: d in a || d in b ==> d.eventId != e.eventId
    ensures e.eventId in LastN(Ids(ByEventId(), a + [e] + b, ()), cap) <==> |b| < cap
  {
    var es := a + [e] + b;
    var ids := Ids(ByEventId(), es, ());
    IdsOfAll(es);
    assert ids[|a|] == e.eventId;
    forall i | 0 <= i < |ids| && i != |a|
      ensures ids[i] != e.eventId
    {
      assert es[i] in a || es[i] in b;
    }
    InTail(ids, |a|, cap);
  }

  lemma InTail(ids: seq<string>, k: nat, cap: nat)
    requires k < |ids| && forall i :: 0 <= i < |ids| && i != k ==> ids[i] != ids[k]
    ensures ids[k] in LastN(ids, cap) <==> |ids| - k - 1 < cap
  {
    var skip := |ids| - |LastN(ids, cap)|;
    if k >= skip {
      assert LastN(ids, cap)[k - skip] == ids[k];
    } else {
      assert forall i :: 0 <= i < |LastN(ids, cap)| ==> LastN(ids, cap)[i] == ids[skip + i];
    }
  }
}
