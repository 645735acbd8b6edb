/** Whole runs of the engine: events and Finalize sweeps in any order, against
    one recompute over everything received. */
module EngineRuns {
  import opened Agreement
  import opened Events
  import opened Incremental
  import opened ProfileFold
  import opened FullRecompute
  import opened Redis
  import opened Sequences

  datatype Op = Apply(ev: Event) | Sweep(asOf: int)

  ghost function RunOps(segs: seq<Segment>, ops: seq<Op>): Store {
    if ops == [] then EMPTY_STORE
    else
      var st := RunOps(segs, ops[..|ops| - 1]);
      match ops[|ops| - 1]
      case Apply(ev) => Applied(segs, st, ev)
      case Sweep(asOf) => Swept(segs, st, asOf)
  }

  /** The event log of a run. */
  function EventsOf(ops: seq<Op>): seq<Event> {
    if ops == [] then []
    else
      var log := EventsOf(ops[..|ops| - 1]);
      match ops[|ops| - 1]
      case Apply(ev) => log + [ev]
      case Sweep(_) => log
  }

  /** The instant p was last evaluated as of: its own latest event, or a later sweep. */
  function EvaluatedAsOf(ops: seq<Op>, p: string): int {
    if ops == [] then 0
    else
      var init := ops[..|ops| - 1];
      match ops[|ops| - 1]
      case Apply(ev) => if ev.profileId == p then ev.timestampMs else EvaluatedAsOf(init, p)
      case Sweep(asOf) => if History(EventsOf(init), p) != [] then asOf else EvaluatedAsOf(init, p)
  }

  // ---- What a run leaves behind ----

  lemma {:induction false} RunIndexed(segs: seq<Segment>, ops: seq<Op>)
    ensures Indexed(RunOps(segs, ops))
    ensures RunOps(segs, ops).touched == RunOps(segs, ops).profiles.Keys
  {
    if ops != [] {
      var st := RunOps(segs, ops[..|ops| - 1]);
      RunIndexed(segs, ops[..|ops| - 1]);
      match ops[|ops| - 1] {
        case Apply(ev) =>
          var p := ev.profileId;
          var noted := Noted(st, ev);
          ReindexedIndexes(noted, p, Evaluated(segs, noted.profiles, p, ev.timestampMs));
        case Sweep(asOf) => SweptIndexes(segs, st, asOf);
      }
    }
  }

  function Noted(st: Store, ev: Event): Store {
    st.(profiles := st.profiles[ev.profileId := Update(StateOf(st.profiles, ev.profileId), ev)],
        touched := st.touched + {ev.profileId})
  }

  /** A profile's state depends on its own history alone. */
  lemma {:induction false} RunProfile(segs: seq<Segment>, ops: seq<Op>, p: string)
    ensures p in RunOps(segs, ops).profiles <==> History(EventsOf(ops), p) != []
    ensures StateOf(RunOps(segs, ops).profiles, p) == Fold(History(EventsOf(ops), p))
  {
    if ops != [] {
      var init := ops[..|ops| - 1];
      RunProfile(segs, init, p);
      if ops[|ops| - 1].Apply? {
        FilterSnoc(EventsOf(init), ops[|ops| - 1].ev, OfProfile(p));
        FoldSnoc(History(EventsOf(init), p), ops[|ops| - 1].ev);
      }
    }
  }

  lemma FoldSnoc(h: seq<Event>, ev: Event)
    ensures Fold(h + [ev]) == Update(Fold(h), ev)
  {
    assert (h + [ev])[..|h|] == h;
  }

  lemma EvaluatedLocal(segs: seq<Segment>, a: map<string, ProfileState>, b: map<string, ProfileState>, p: string, now: int)
    requires p in a <==> p in b
    requires p in a ==> a[p] == b[p]
    ensures Evaluated(segs, a, p, now) == Evaluated(segs, b, p, now)
  {
  }

  /** A profile's segments are the evaluation of its current state as of its last evaluation. */
  lemma {:induction false} RunMembership(segs: seq<Segment>, ops: seq<Op>, p: string)
    ensures var st := RunOps(segs, ops);
            SMembers(st.segmentsOf, p) == Evaluated(segs, st.profiles, p, EvaluatedAsOf(ops, p))
  {
    if ops != [] {
      var init := ops[..|ops| - 1];
      var st := RunOps(segs, init);
      RunMembership(segs, init, p);
      RunIndexed(segs, init);
      match ops[|ops| - 1] {
        case Apply(ev) =>
          var noted := Noted(st, ev);
          ReindexedIndexes(noted, ev.profileId, Evaluated(segs, noted.profiles, ev.profileId, ev.timestampMs));
          if ev.profileId != p {
            EvaluatedLocal(segs, st.profiles, noted.profiles, p, EvaluatedAsOf(init, p));
          }
        case Sweep(asOf) =>
          SweptIndexes(segs, st, asOf);
          RunProfile(segs, init, p);
      }
    }
  }

  /** Over every run the two indexes are converses, and touched is every profile seen. */
  lemma IndexesAreConverse(segs: seq<Segment>, ops: seq<Op>, p: string, id: string)
    ensures var st := RunOps(segs, ops);
            && (id in SMembers(st.segmentsOf, p) <==> p in SMembers(st.membersOf, id))
            && (p in st.touched <==> History(EventsOf(ops), p) != [])
  {
    RunIndexed(segs, ops);
    RunProfile(segs, ops, p);
  }

  // ---- Finalize ----

  /** A later Finalize erases any earlier one; at equal instants, Finalize is idempotent. */
  lemma LaterSweepErases(segs: seq<Segment>, st: Store, first: int, second: int)
    ensures Swept(segs, Swept(segs, st, first), second) == Swept(segs, st, second)
  {
    var once := Swept(segs, st, first);
    var twice, direct := Swept(segs, once, second), Swept(segs, st, second);
    SweptIndexes(segs, st, first);
    SweptIndexes(segs, st, second);
    SweptIndexes(segs, once, second);
    forall p
      ensures SMembers(twice.segmentsOf, p) == SMembers(direct.segmentsOf, p)
    {
      assert SMembers(once.segmentsOf, p) == SweptSet(segs, st, first, p);
    }
    SameMembersSameKeys(twice.segmentsOf, direct.segmentsOf);
  }

  // ---- Agreement with the recompute ----

  ghost predicate LogWellFormed(log: seq<Event>, asOf: int) {
    NoneAfter(log, asOf) && forall p :: WellFormed(History(log, p))
  }

  ghost predicate LogEdgeClear(log: seq<Event>, seg: Segment, asOf: int) {
    forall p :: EdgeClear(History(log, p), seg, asOf)
  }

  lemma HistoryNoneAfter(log: seq<Event>, p: string, asOf: int)
    requires NoneAfter(log, asOf)
    ensures NoneAfter(History(log, p), asOf)
  {
    forall i | 0 <= i < |History(log, p)|
      ensures History(log, p)[i].timestampMs <= asOf
    {
      FilterMember(log, OfProfile(p), History(log, p)[i]);
    }
  }

  /** One segment's members, read through the inverted index, as verdicts on profile states. */
  lemma MembersAreVerdicts(segs: seq<Segment>, st: Store, k: nat, p: string, now: int)
    requires DistinctIds(segs) && k < |segs| && Indexed(st)
    requires SMembers(st.segmentsOf, p) == Evaluated(segs, st.profiles, p, now)
    ensures p in SMembers(st.membersOf, segs[k].id) <==> p in st.profiles && Matches(st.profiles[p], segs[k], now)
  {
    assert p in SMembers(st.membersOf, segs[k].id) <==> segs[k].id in SMembers(st.segmentsOf, p);
  }

  /** The verdict at one profile, whatever run produced its state. */
  lemma ProfileAgrees(segs: seq<Segment>, ops: seq<Op>, k: nat, p: string, asOf: int)
    requires k < |segs| && Sane(segs[k]) && !segs[k].family.UnknownFamily?
    requires LogWellFormed(EventsOf(ops), asOf) && LogEdgeClear(EventsOf(ops), segs[k], asOf)
    ensures var st := RunOps(segs, ops);
            p in st.profiles && Matches(st.profiles[p], segs[k], asOf) <==>
            p in Recompute(EventsOf(ops), segs[k], asOf).value
  {
    var h := History(EventsOf(ops), p);
    RunProfile(segs, ops, p);
    RecomputeByProfile(EventsOf(ops), segs[k], asOf, p);
    if h != [] {
      HistoryNoneAfter(EventsOf(ops), p, asOf);
      FoldRepresents(h);
      VerdictsAgree(Fold(h), h, segs[k], asOf);
    }
  }

  /** The central claim: after any run of events and sweeps, a Finalize leaves
      every segment's members equal to a recompute over the whole log. */
  lemma FinalizeMatchesRecompute(segs: seq<Segment>, ops: seq<Op>, k: nat, asOf: int)
    requires DistinctIds(segs) && k < |segs| && Sane(segs[k]) && !segs[k].family.UnknownFamily?
    requires LogWellFormed(EventsOf(ops), asOf) && LogEdgeClear(EventsOf(ops), segs[k], asOf)
    ensures Recompute(EventsOf(ops), segs[k], asOf) ==
            Ok(SMembers(Swept(segs, RunOps(segs, ops), asOf).membersOf, segs[k].id))
  {
    var st := RunOps(segs, ops);
    var swept := Swept(segs, st, asOf);
    SweptIndexes(segs, st, asOf);
    RunIndexed(segs, ops);
    forall p
      ensures p in SMembers(swept.membersOf, segs[k].id) <==> p in Recompute(EventsOf(ops), segs[k], asOf).value
    {
      RunMembership(segs, ops, p);
      MembersAreVerdicts(segs, swept, k, p, asOf);
      ProfileAgrees(segs, ops, k, p, asOf);
    }
    assert SMembers(swept.membersOf, segs[k].id) == Recompute(EventsOf(ops), segs[k], asOf).value;
  }

  /** A finalized segment lists a profile exactly when the fold of its history matches. */
  lemma SweptMember(segs: seq<Segment>, ops: seq<Op>, k: nat, asOf: int, p: string)
    requires DistinctIds(segs) && k < |segs|
    ensures p in SMembers(Swept(segs, RunOps(segs, ops), asOf).membersOf, segs[k].id) <==>
            History(EventsOf(ops), p) != [] && Matches(Fold(History(EventsOf(ops), p)), segs[k], asOf)
  {
    var st := RunOps(segs, ops);
    SweptIndexes(segs, st, asOf);
    RunIndexed(segs, ops);
    RunMembership(segs, ops, p);
    RunProfile(segs, ops, p);
    MembersAreVerdicts(segs, Swept(segs, st, asOf), k, p, asOf);
  }

  /** After a Finalize as of asOf, segment k's members are the recompute over the whole log. */
  ghost predicate MembersMatch(segs: seq<Segment>, ops: seq<Op>, k: nat, asOf: int)
    requires k < |segs|
  {
    Recompute(EventsOf(ops), segs[k], asOf) ==
    Ok(SMembers(Swept(segs, RunOps(segs, ops), asOf).membersOf, segs[k].id))
  }

  /** The verdicts of the two sides on one profile are the same. */
  ghost predicate ProfileMatches(log: seq<Event>, seg: Segment, asOf: int, p: string) {
    var h := History(log, p);
    h != [] ==> (Matches(Fold(h), seg, asOf) <==> Selected(h, seg, asOf))
  }

  lemma MatchAt(segs: seq<Segment>, ops: seq<Op>, k: nat, asOf: int, p: string)
    requires DistinctIds(segs) && k < |segs| && !segs[k].family.UnknownFamily?
    ensures (p in SMembers(Swept(segs, RunOps(segs, ops), asOf).membersOf, segs[k].id) <==>
             p in Recompute(EventsOf(ops), segs[k], asOf).value) <==>
            ProfileMatches(EventsOf(ops), segs[k], asOf, p)
  {
    SweptMember(segs, ops, k, asOf, p);
    RecomputeByProfile(EventsOf(ops), segs[k], asOf, p);
  }

  ghost predicate LogMatches(log: seq<Event>, seg: Segment, asOf: int) {
    forall p :: ProfileMatches(log, seg, asOf, p)
  }

  lemma SetsEqualWhere(a: set<string>, b: set<string>, log: seq<Event>, seg: Segment, asOf: int)
    requires forall p :: (p in a <==> p in b) <==> ProfileMatches(log, seg, asOf, p)
    ensures a == b <==> LogMatches(log, seg, asOf)
  {
    if LogMatches(log, seg, asOf) {
      forall p
        ensures p in a <==> p in b
      {
        assert ProfileMatches(log, seg, asOf, p);
      }
    }
  }

  /** One profile on which the two verdicts differ is enough for the sets to differ, and needed. */
  lemma MatchByProfile(segs: seq<Segment>, ops: seq<Op>, k: nat, asOf: int)
    requires DistinctIds(segs) && k < |segs| && !segs[k].family.UnknownFamily?
    ensures MembersMatch(segs, ops, k, asOf) <==> LogMatches(EventsOf(ops), segs[k], asOf)
  {
    forall p {
      MatchAt(segs, ops, k, asOf, p);
    }
    SetsEqualWhere(SMembers(Swept(segs, RunOps(segs, ops), asOf).membersOf, segs[k].id),
                   Recompute(EventsOf(ops), segs[k], asOf).value, EventsOf(ops), segs[k], asOf);
  }

  /** For the two elapsed-days families the claim holds exactly when no profile
      sits within the second of its deadline; otherwise the engine is behind,
      never ahead. */
  lemma ElapsedMatchesExactly(segs: seq<Segment>, ops: seq<Op>, k: nat, asOf: int)
    requires DistinctIds(segs) && k < |segs| && (segs[k].family.CartAbandonDays? || segs[k].family.ChurnRiskDays?)
    requires LogWellFormed(EventsOf(ops), asOf)
    ensures SMembers(Swept(segs, RunOps(segs, ops), asOf).membersOf, segs[k].id) <=
            Recompute(EventsOf(ops), segs[k], asOf).value
    ensures MembersMatch(segs, ops, k, asOf) <==> LogEdgeClear(EventsOf(ops), segs[k], asOf)
  {
    var log := EventsOf(ops);
    forall p
      ensures ProfileMatches(log, segs[k], asOf, p) <==> EdgeClear(History(log, p), segs[k], asOf)
      ensures p in SMembers(Swept(segs, RunOps(segs, ops), asOf).membersOf, segs[k].id) ==>
              p in Recompute(log, segs[k], asOf).value
    {
      SweptMember(segs, ops, k, asOf, p);
      RecomputeByProfile(log, segs[k], asOf, p);
      HistoryNoneAfter(log, p, asOf);
      if History(log, p) != [] {
        ElapsedAt(History(log, p), segs[k], asOf);
      }
    }
    MatchByProfile(segs, ops, k, asOf);
  }

  ghost predicate ElapsedVerdict(h: seq<Event>, seg: Segment, asOf: int) {
    && (Matches(Fold(h), seg, asOf) ==> Selected(h, seg, asOf))
    && ((Matches(Fold(h), seg, asOf) <==> Selected(h, seg, asOf)) <==> EdgeClear(h, seg, asOf))
  }

  lemma ElapsedAt(h: seq<Event>, seg: Segment, asOf: int)
    requires h != [] && WellFormed(h) && NoneAfter(h, asOf) && (seg.family.CartAbandonDays? || seg.family.ChurnRiskDays?)
    ensures ElapsedVerdict(h, seg, asOf)
  {
    FoldRepresents(h);
    if seg.family.CartAbandonDays? {
      CartFamilyExact(Fold(h), h, seg, asOf);
    } else {
      ChurnFamilyExact(Fold(h), h, seg, asOf);
    }
  }

  // ---- Purchase windows over whole runs ----

  /** The same segments with another threshold at k. */
  function WithCount(segs: seq<Segment>, k: nat, n: int): seq<Segment>
    requires k < |segs|
  {
    segs[k := segs[k].(minCount := n)]
  }

  function WithValue(segs: seq<Segment>, k: nat, v: int): seq<Segment>
    requires k < |segs|
  {
    segs[k := segs[k].(minValueCents := v)]
  }

  ghost predicate CountsAgreeOn(log: seq<Event>, seg: Segment, n: int, asOf: int) {
    forall p :: History(log, p) != [] ==> CountAgrees(Fold(History(log, p)), History(log, p), seg, n, asOf)
  }

  ghost predicate ValuesAgreeOn(log: seq<Event>, seg: Segment, v: int, asOf: int) {
    forall p :: History(log, p) != [] ==> ValueAgrees(Fold(History(log, p)), History(log, p), seg, v, asOf)
  }

  lemma CountMatchesAt(segs: seq<Segment>, ops: seq<Op>, k: nat, n: int, asOf: int)
    requires DistinctIds(segs) && k < |segs| && !segs[k].family.UnknownFamily?
    ensures MembersMatch(WithCount(segs, k, n), ops, k, asOf) <==> CountsAgreeOn(EventsOf(ops), segs[k], n, asOf)
  {
    MatchByProfile(WithCount(segs, k, n), ops, k, asOf);
    forall p
      ensures ProfileMatches(EventsOf(ops), WithCount(segs, k, n)[k], asOf, p) <==>
              (History(EventsOf(ops), p) != [] ==>
                 CountAgrees(Fold(History(EventsOf(ops), p)), History(EventsOf(ops), p), segs[k], n, asOf))
    {
    }
  }

  lemma ValueMatchesAt(segs: seq<Segment>, ops: seq<Op>, k: nat, v: int, asOf: int)
    requires DistinctIds(segs) && k < |segs| && !segs[k].family.UnknownFamily?
    ensures MembersMatch(WithValue(segs, k, v), ops, k, asOf) <==> ValuesAgreeOn(EventsOf(ops), segs[k], v, asOf)
  {
    MatchByProfile(WithValue(segs, k, v), ops, k, asOf);
    forall p
      ensures ProfileMatches(EventsOf(ops), WithValue(segs, k, v)[k], asOf, p) <==>
              (History(EventsOf(ops), p) != [] ==>
                 ValueAgrees(Fold(History(EventsOf(ops), p)), History(EventsOf(ops), p), segs[k], v, asOf))
    {
    }
  }

  lemma CountsAgreeExactly(log: seq<Event>, seg: Segment, asOf: int)
    requires seg.family.PurchaseCountMin? && 0 <= seg.windowDays <= 90 && LogWellFormed(log, asOf)
    ensures (forall n :: n >= 1 ==> CountsAgreeOn(log, seg, n, asOf)) <==> LogEdgeClear(log, seg, asOf)
  {
    forall p | History(log, p) != []
      ensures CountsAgree(Fold(History(log, p)), History(log, p), seg, asOf) <==> EdgeClear(History(log, p), seg, asOf)
    {
      HistoryNoneAfter(log, p, asOf);
      FoldRepresents(History(log, p));
      CountFamilyExact(Fold(History(log, p)), History(log, p), seg, asOf);
    }
    if forall n :: n >= 1 ==> CountsAgreeOn(log, seg, n, asOf) {
      forall p | History(log, p) != []
        ensures EdgeClear(History(log, p), seg, asOf)
      {
        forall n | n >= 1
          ensures CountAgrees(Fold(History(log, p)), History(log, p), seg, n, asOf)
        {
          assert CountsAgreeOn(log, seg, n, asOf);
        }
      }
    }
  }

  /** Purchase counts: the member sets agree at every threshold exactly on clear logs. */
  lemma CountMatchesExactly(segs: seq<Segment>, ops: seq<Op>, k: nat, asOf: int)
    requires DistinctIds(segs) && k < |segs| && segs[k].family.PurchaseCountMin?
    requires 0 <= segs[k].windowDays <= 90 && LogWellFormed(EventsOf(ops), asOf)
    ensures (forall n :: n >= 1 ==> MembersMatch(WithCount(segs, k, n), ops, k, asOf)) <==>
            LogEdgeClear(EventsOf(ops), segs[k], asOf)
  {
    forall n
      ensures MembersMatch(WithCount(segs, k, n), ops, k, asOf) <==> CountsAgreeOn(EventsOf(ops), segs[k], n, asOf)
    {
      CountMatchesAt(segs, ops, k, n, asOf);
    }
    CountsAgreeExactly(EventsOf(ops), segs[k], asOf);
  }

  ghost predicate LogOrderly(log: seq<Event>) {
    forall p :: Orderly(History(log, p)) && PricesNonNegative(History(log, p))
  }

  ghost predicate LogBalanced(log: seq<Event>, days: int, asOf: int) {
    forall p :: Balanced(History(log, p), days, asOf)
  }

  lemma ValuesAgreeExactly(log: seq<Event>, seg: Segment, asOf: int)
    requires seg.family.PurchaseValueMin? && LogOrderly(log)
    ensures (forall v :: v >= 1 ==> ValuesAgreeOn(log, seg, v, asOf)) <==> LogBalanced(log, seg.windowDays, asOf)
  {
    forall p
      ensures ValuesAgree(Fold(History(log, p)), History(log, p), seg, asOf) <==>
              Balanced(History(log, p), seg.windowDays, asOf)
    {
      FoldRepresents(History(log, p));
      ValueFamilyExact(Fold(History(log, p)), History(log, p), seg, asOf);
    }
    if forall v :: v >= 1 ==> ValuesAgreeOn(log, seg, v, asOf) {
      forall p
        ensures Balanced(History(log, p), seg.windowDays, asOf)
      {
        if History(log, p) != [] {
          forall v | v >= 1
            ensures ValueAgrees(Fold(History(log, p)), History(log, p), seg, v, asOf)
          {
            assert ValuesAgreeOn(log, seg, v, asOf);
          }
        }
      }
    }
  }

  /** Purchase values, whatever the ids and prices: the member sets agree at
      every threshold exactly when every profile's miscounts balance. */
  lemma ValueMatchesExactly(segs: seq<Segment>, ops: seq<Op>, k: nat, asOf: int)
    requires DistinctIds(segs) && k < |segs| && segs[k].family.PurchaseValueMin? && LogOrderly(EventsOf(ops))
    ensures (forall v :: v >= 1 ==> MembersMatch(WithValue(segs, k, v), ops, k, asOf)) <==>
            LogBalanced(EventsOf(ops), segs[k].windowDays, asOf)
  {
    forall v
      ensures MembersMatch(WithValue(segs, k, v), ops, k, asOf) <==> ValuesAgreeOn(EventsOf(ops), segs[k], v, asOf)
    {
      ValueMatchesAt(segs, ops, k, v, asOf);
    }
    ValuesAgreeExactly(EventsOf(ops), segs[k], asOf);
  }

  /** Off the trim the engine lists at least the recomputed members; when the
      trim touches every profile's window, at most those. Only a full 90-day
      window can be touched. */
  lemma WindowMembersContained(segs: seq<Segment>, ops: seq<Op>, k: nat, asOf: int)
    requires DistinctIds(segs) && k < |segs| && Sane(segs[k])
    requires segs[k].family.PurchaseCountMin? || segs[k].family.PurchaseValueMin?
    requires LogWellFormed(EventsOf(ops), asOf) && LogOrderly(EventsOf(ops))
    ensures var log, days := EventsOf(ops), segs[k].windowDays;
            var members := SMembers(Swept(segs, RunOps(segs, ops), asOf).membersOf, segs[k].id);
            && ((forall p :: !TrimTouchesWindow(History(log, p), days, asOf)) ==>
                  Recompute(log, segs[k], asOf).value <= members)
            && ((forall p :: History(log, p) != [] ==> TrimTouchesWindow(History(log, p), days, asOf)) ==>
                  members <= Recompute(log, segs[k], asOf).value)
  {
    var log, days := EventsOf(ops), segs[k].windowDays;
    var members := SMembers(Swept(segs, RunOps(segs, ops), asOf).membersOf, segs[k].id);
    forall p
      ensures !TrimTouchesWindow(History(log, p), days, asOf) ==>
                (p in Recompute(log, segs[k], asOf).value ==> p in members)
      ensures History(log, p) != [] && TrimTouchesWindow(History(log, p), days, asOf) ==>
                (p in members ==> p in Recompute(log, segs[k], asOf).value)
      ensures p in members ==> History(log, p) != []
    {
      var h := History(log, p);
      SweptMember(segs, ops, k, asOf, p);
      RecomputeByProfile(log, segs[k], asOf, p);
      HistoryNoneAfter(log, p, asOf);
      if h != [] {
        FoldRepresents(h);
        WindowContained(Fold(h), h, segs[k], asOf);
      }
    }
  }

  /** Whole-second clocks and no purchase exactly on a trim: every segment is clear. */
  lemma WholeSecondLogIsClear(log: seq<Event>, seg: Segment, asOf: int)
    requires LogWellFormed(log, asOf) && asOf % 1000 == 0
    requires forall p :: WholeSeconds(History(log, p)) && !PurchaseOnTrim(History(log, p))
    ensures LogEdgeClear(log, seg, asOf)
  {
    forall p
      ensures EdgeClear(History(log, p), seg, asOf)
    {
      var h := History(log, p);
      HistoryNoneAfter(log, p, asOf);
      assert WellFormed(h) && WholeSeconds(h) && !PurchaseOnTrim(h);
      if h != [] {
        WholeSecondsAreClear(h, seg, asOf);
      }
    }
  }

  /** For families that do not look at the clock, the two agree after every
      event, with no Finalize. */
  lemma TimelessMatchesRecompute(segs: seq<Segment>, ops: seq<Op>, k: nat, asOf: int)
    requires DistinctIds(segs) && k < |segs| && Sane(segs[k])
    requires segs[k].family.CategoryViewMin? || segs[k].family.NeverPurchased? || segs[k].family.MultiCategoryMin?
    requires LogWellFormed(EventsOf(ops), asOf)
    ensures Recompute(EventsOf(ops), segs[k], asOf) == Ok(SMembers(RunOps(segs, ops).membersOf, segs[k].id))
  {
    var st := RunOps(segs, ops);
    RunIndexed(segs, ops);
    forall p
      ensures p in SMembers(st.membersOf, segs[k].id) <==> p in Recompute(EventsOf(ops), segs[k], asOf).value
    {
      RunMembership(segs, ops, p);
      MembersAreVerdicts(segs, st, k, p, EvaluatedAsOf(ops, p));
      ProfileAgrees(segs, ops, k, p, asOf);
    }
    assert SMembers(st.membersOf, segs[k].id) == Recompute(EventsOf(ops), segs[k], asOf).value;
  }

  // ---- Time passing ----

  /** With no new event, a verdict changes in one direction only as the clock
      advances: windows and recent activity lapse, abandonment and churn set in. */
  lemma OnlyTimePasses(ps: ProfileState, h: seq<Event>, seg: Segment, now: int, later: int)
    requires Represents(ps, h) && WellFormed(h) && NoneAfter(h, now) && now <= later
    requires forall e :: e in h ==> e.priceCents >= 0
    ensures match seg.family
            case PurchaseCountMin => Matches(ps, seg, later) ==> Matches(ps, seg, now)
            case PurchaseValueMin => Matches(ps, seg, later) ==> Matches(ps, seg, now)
            case RecentlyActiveHours => Matches(ps, seg, later) ==> Matches(ps, seg, now)
            case CartAbandonDays => Matches(ps, seg, now) ==> Matches(ps, seg, later)
            case ChurnRiskDays => Matches(ps, seg, now) ==> Matches(ps, seg, later)
            case _ => Matches(ps, seg, now) <==> Matches(ps, seg, later)
  {
    if seg.family.PurchaseCountMin? {
      CountLapses(ps, h, seg, now, later);
    } else if seg.family.PurchaseValueMin? {
      WindowSums(ps, h, seg, now);
      WindowSums(ps, h, seg, later);
      WindowsShrink(h, seg.windowDays, now, later, Price());
    }
  }

  lemma CountLapses(ps: ProfileState, h: seq<Event>, seg: Segment, now: int, later: int)
    requires Represents(ps, h) && NoneAfter(h, now) && now <= later
    ensures |WindowMembers(ps, seg, later)| <= |WindowMembers(ps, seg, now)|
  {
    EngineCount(ps, h, seg, now);
    EngineCount(ps, h, seg, later);
    WindowsShrink(h, seg.windowDays, now, later, One());
  }

  lemma WindowsShrink(h: seq<Event>, days: int, now: int, later: int, w: Event -> int)
    requires NoneAfter(h, now) && now <= later
    requires forall e :: e in h ==> w(e) >= 0
    ensures SumBy(Filter(h, EngineWindow(h, days, later)), w) <= SumBy(Filter(h, EngineWindow(h, days, now)), w)
  {
    forall e | e in h && EngineWindow(h, days, later)(e)
      ensures EngineWindow(h, days, now)(e)
    {
      assert e.timestampMs <= now;
    }
    FilterSumMonotone(h, EngineWindow(h, days, later), EngineWindow(h, days, now), w);
  }

  // ---- Interleaving ----

  /** A log applied event by event, with no sweep in between. */
  function Applies(log: seq<Event>): (ops: seq<Op>)
    ensures |ops| == |log| && forall i :: 0 <= i < |log| ==> ops[i] == Apply(log[i])
  {
    seq(|log|, i requires 0 <= i < |log| => Apply(log[i]))
  }

  lemma {:induction false} AppliesLog(log: seq<Event>)
    ensures EventsOf(Applies(log)) == log
  {
    if log != [] {
      AppliesLog(log[..|log| - 1]);
      assert Applies(log)[..|log| - 1] == Applies(log[..|log| - 1]);
    }
  }

  lemma {:induction false} AppliesEvaluatedAsOf(log: seq<Event>, p: string)
    ensures var h := History(log, p);
            EvaluatedAsOf(Applies(log), p) == if h == [] then 0 else h[|h| - 1].timestampMs
  {
    if log != [] {
      AppliesEvaluatedAsOf(log[..|log| - 1], p);
      assert Applies(log)[..|log| - 1] == Applies(log[..|log| - 1]);
      FilterSnoc(log[..|log| - 1], log[|log| - 1], OfProfile(p));
    }
  }

  lemma InterleavingAt(segs: seq<Segment>, a: seq<Event>, b: seq<Event>, p: string)
    requires History(a, p) == History(b, p)
    ensures var s, t := RunOps(segs, Applies(a)), RunOps(segs, Applies(b));
            && (p in s.profiles <==> p in t.profiles)
            && (p in s.profiles ==> s.profiles[p] == t.profiles[p])
            && SMembers(s.segmentsOf, p) == SMembers(t.segmentsOf, p)
  {
    var s, t := RunOps(segs, Applies(a)), RunOps(segs, Applies(b));
    AppliesLog(a);
    AppliesLog(b);
    RunProfile(segs, Applies(a), p);
    RunProfile(segs, Applies(b), p);
    RunMembership(segs, Applies(a), p);
    RunMembership(segs, Applies(b), p);
    AppliesEvaluatedAsOf(a, p);
    AppliesEvaluatedAsOf(b, p);
    EvaluatedLocal(segs, s.profiles, t.profiles, p, EvaluatedAsOf(Applies(a), p));
  }

  /** How profiles' events interleave does not matter: equal per-profile
      histories leave the whole store equal, both indexes included. */
  lemma InterleavingIrrelevant(segs: seq<Segment>, a: seq<Event>, b: seq<Event>)
    requires forall p :: History(a, p) == History(b, p)
    ensures RunOps(segs, Applies(a)) == RunOps(segs, Applies(b))
  {
    var s, t := RunOps(segs, Applies(a)), RunOps(segs, Applies(b));
    RunIndexed(segs, Applies(a));
    RunIndexed(segs, Applies(b));
    forall p
      ensures p in s.profiles <==> p in t.profiles
      ensures p in s.profiles ==> s.profiles[p] == t.profiles[p]
      ensures SMembers(s.segmentsOf, p) == SMembers(t.segmentsOf, p)
    {
      InterleavingAt(segs, a, b, p);
    }
    assert s.profiles.Keys == t.profiles.Keys;
    assert s.profiles == t.profiles;
    SameMembersSameKeys(s.segmentsOf, t.segmentsOf);
    ConverseUnique(s.segmentsOf, s.membersOf, t.membersOf);
  }
}
