/** internal/segment/incremental.go: the engine's Redis state, changed one event at a time. */
module Incremental {
  import opened Events
  import opened Members
  import opened Redis
  import opened Sequences

  /** The fields of stats:<profile>; a missing field parses as 0. */
  datatype Stats = Stats(totalEvents: int, purchaseCountTotal: int, lastEventTs: int, lastCartAddTs: int, lastPurchaseTs: int)

  /** The keys stats:, catviews: and purch: of one profile. */
  datatype ProfileState = ProfileState(stats: Stats, catviews: map<string, int>, purch: ZSet)

  /** Everything the engine keeps in Redis. */
  datatype Store = Store(profiles: map<string, ProfileState>, segmentsOf: Sets, membersOf: Sets, touched: set<string>)

  const BLANK := ProfileState(Stats(0, 0, 0, 0, 0), map[], map[])
  const EMPTY_STORE := Store(map[], map[], map[], {})

  function StateOf(profiles: map<string, ProfileState>, p: string): ProfileState {
    if p in profiles then profiles[p] else BLANK
  }

  function HGet(h: map<string, int>, field: string): int { if field in h then h[field] else 0 }

  /** The pipelined writes of ApplyEvent on the profile's own keys. */
  function Update(ps: ProfileState, ev: Event): ProfileState {
    var st := ps.stats.(totalEvents := ps.stats.totalEvents + 1, lastEventTs := ev.timestampMs);
    match ev.kind
    case Purchase =>
      var bought := ZAdd(ps.purch, Sec(ev.timestampMs), Member(ev.eventId, ev.priceCents));
      ProfileState(st.(purchaseCountTotal := st.purchaseCountTotal + 1, lastPurchaseTs := ev.timestampMs),
                   ps.catviews,
                   ZRemUpTo(bought, Sec(ev.timestampMs - TRIM_DAYS * DAY_MS)))
    case AddToCart => ps.(stats := st.(lastCartAddTs := ev.timestampMs))
    case PageView =>
      if ev.category != "" then
        ps.(stats := st, catviews := ps.catviews[ev.category := HGet(ps.catviews, ev.category) + 1])
      else ps.(stats := st)
    case OtherKind(_) => ps.(stats := st)
  }

  ghost function SumOver(ms: set<string>, w: string -> int): int {
    if ms == {} then 0 else var m :| m in ms; w(m) + SumOver(ms - {m}, w)
  }

  lemma {:induction false} SumOverRemove(ms: set<string>, w: string -> int, m: string)
    requires m in ms
    ensures SumOver(ms, w) == w(m) + SumOver(ms - {m}, w)
  {
    var x :| x in ms && SumOver(ms, w) == w(x) + SumOver(ms - {x}, w);
    if x != m {
      SumOverRemove(ms - {x}, w, m);
      SumOverRemove(ms - {m}, w, x);
      assert ms - {x} - {m} == ms - {m} - {x};
    }
  }

  function CentsOf(): string -> int { (m: string) => MemberCents(m) }

  function WindowMembers(ps: ProfileState, seg: Segment, now: int): set<string> {
    ZRange(ps.purch, Sec(now - seg.windowDays * DAY_MS), Sec(now))
  }

  /** EvaluateProfile's verdict on one segment. */
  ghost predicate Matches(ps: ProfileState, seg: Segment, now: int) {
    var st := ps.stats;
    match seg.family
    case PurchaseCountMin => |WindowMembers(ps, seg, now)| >= seg.minCount
    case PurchaseValueMin => SumOver(WindowMembers(ps, seg, now), CentsOf()) >= seg.minValueCents
    case CartAbandonDays =>
      st.lastCartAddTs > 0 && st.lastCartAddTs > st.lastPurchaseTs && now - st.lastCartAddTs >= seg.minDays * DAY_MS
    case CategoryViewMin => HGet(ps.catviews, seg.category) >= seg.minCount
    case RecentlyActiveHours => st.lastEventTs > 0 && now - st.lastEventTs <= seg.minHours * HOUR_MS
    case NeverPurchased => st.totalEvents > 0 && st.purchaseCountTotal == 0
    case ChurnRiskDays =>
      st.purchaseCountTotal > 0 && st.lastEventTs > 0 && now - st.lastEventTs >= seg.minDays * DAY_MS
    case MultiCategoryMin => |ps.catviews| >= seg.minDistinct
    case UnknownFamily(_) => false
  }

  ghost predicate DistinctIds(segs: seq<Segment>) {
    forall i, j :: 0 <= i < j < |segs| ==> segs[i].id != segs[j].id
  }

  /** The ids of the segments a profile belongs to as of now; none without any event. */
  ghost function Evaluated(segs: seq<Segment>, profiles: map<string, ProfileState>, p: string, now: int): set<string> {
    set i | 0 <= i < |segs| && p in profiles && Matches(profiles[p], segs[i], now) :: segs[i].id
  }

  // ---- State transitions ----

  ghost predicate Indexed(st: Store) {
    Canonical(st.segmentsOf) && Canonical(st.membersOf) && Converse(st.segmentsOf, st.membersOf)
  }

  /** The members of one segment after p's delta has been written. */
  function MembersAfter(st: Store, p: string, want: set<string>, id: string): set<string> {
    var have := SMembers(st.segmentsOf, p);
    if id in want - have then SMembers(st.membersOf, id) + {p}
    else if id in have - want then SMembers(st.membersOf, id) - {p}
    else SMembers(st.membersOf, id)
  }

  /** reevaluate: p's set becomes want, and only the difference is written to the inverted index. */
  function Reindexed(st: Store, p: string, want: set<string>): Store {
    st.(segmentsOf := Put(st.segmentsOf, p, want),
        membersOf := map id | id in st.membersOf.Keys + want && MembersAfter(st, p, want, id) != {} ::
                       MembersAfter(st, p, want, id))
  }

  ghost function Applied(segs: seq<Segment>, st: Store, ev: Event): Store {
    var p := ev.profileId;
    var noted := st.(profiles := st.profiles[p := Update(StateOf(st.profiles, p), ev)], touched := st.touched + {p});
    Reindexed(noted, p, Evaluated(segs, noted.profiles, p, ev.timestampMs))
  }

  ghost function SweptSet(segs: seq<Segment>, st: Store, asOf: int, p: string): set<string> {
    if p in st.touched then Evaluated(segs, st.profiles, p, asOf) else SMembers(st.segmentsOf, p)
  }

  /** Finalize: every touched profile re-evaluated as of one instant. */
  ghost function Swept(segs: seq<Segment>, st: Store, asOf: int): Store {
    var forward := map p | p in st.segmentsOf.Keys + st.touched && SweptSet(segs, st, asOf, p) != {} ::
                     SweptSet(segs, st, asOf, p);
    st.(segmentsOf := forward, membersOf := Invert(forward))
  }

  lemma ReindexedIndexes(st: Store, p: string, want: set<string>)
    requires Indexed(st)
    ensures Indexed(Reindexed(st, p, want))
    ensures forall q :: SMembers(Reindexed(st, p, want).segmentsOf, q) == if q == p then want else SMembers(st.segmentsOf, q)
    ensures forall id :: SMembers(Reindexed(st, p, want).membersOf, id) == MembersAfter(st, p, want, id)
  {
    var st' := Reindexed(st, p, want);
    forall id
      ensures SMembers(st'.membersOf, id) == MembersAfter(st, p, want, id)
    {
      if id !in st.membersOf.Keys + want {
        assert SMembers(st.membersOf, id) == {};
      }
    }
    forall q, id
      ensures id in SMembers(st'.segmentsOf, q) <==> q in SMembers(st'.membersOf, id)
    {
      assert id in SMembers(st.segmentsOf, q) <==> q in SMembers(st.membersOf, id);
      assert id in SMembers(st.segmentsOf, p) <==> p in SMembers(st.membersOf, id);
    }
  }

  lemma SweptIndexes(segs: seq<Segment>, st: Store, asOf: int)
    ensures Indexed(Swept(segs, st, asOf))
    ensures forall p :: SMembers(Swept(segs, st, asOf).segmentsOf, p) == SweptSet(segs, st, asOf, p)
  {
    InvertIsConverse(Swept(segs, st, asOf).segmentsOf);
    forall p
      ensures SMembers(Swept(segs, st, asOf).segmentsOf, p) == SweptSet(segs, st, asOf, p)
    {
      if p !in st.segmentsOf.Keys + st.touched {
        assert SweptSet(segs, st, asOf, p) == {};
      }
    }
  }

  /** The SADD half of the pipelined delta: both indexes, one segment at a time;
      done is what has been written. */
  method Enter(f0: Sets, g0: Sets, p: string, ids: set<string>) returns (f: Sets, g: Sets, ghost done: set<string>)
    requires Canonical(f0) && Canonical(g0)
    ensures Entered(f0, g0, f, g, p, ids) && done == ids
  {
    f, g, done := f0, g0, {};
    var left := ids;
    while left != {}
      invariant Entered(f0, g0, f, g, p, done)
      invariant forall id :: id in ids <==> id in done || id in left
      invariant done !! left
      decreases |left|
    {
      var id :| id in left;
      SAddHas(f, p, id);
      SAddHas(g, id, p);
      f, g := SAdd(f, p, id), SAdd(g, id, p);
      left, done := left - {id}, done + {id};
    }
  }

  /** The SREM half. */
  method Leave(f0: Sets, g0: Sets, p: string, ids: set<string>) returns (f: Sets, g: Sets, ghost done: set<string>)
    requires Canonical(f0) && Canonical(g0)
    ensures Departed(f0, g0, f, g, p, ids) && done == ids
  {
    f, g, done := f0, g0, {};
    var left := ids;
    while left != {}
      invariant Departed(f0, g0, f, g, p, done)
      invariant forall id :: id in ids <==> id in done || id in left
      invariant done !! left
      decreases |left|
    {
      var id :| id in left;
      SRemHas(f, p, id);
      SRemHas(g, id, p);
      f, g := SRem(f, p, id), SRem(g, id, p);
      left, done := left - {id}, done + {id};
    }
  }

  /** The two halves of the delta together leave exactly the reindexed store. */
  lemma DeltaWritten(st: Store, p: string, want: set<string>, f1: Sets, g1: Sets, f: Sets, g: Sets)
    requires Indexed(st)
    requires Entered(st.segmentsOf, st.membersOf, f1, g1, p, want - SMembers(st.segmentsOf, p))
    requires Departed(f1, g1, f, g, p, SMembers(st.segmentsOf, p) - want)
    ensures st.(segmentsOf := f, membersOf := g) == Reindexed(st, p, want)
    ensures Indexed(Reindexed(st, p, want))
  {
    var st' := Reindexed(st, p, want);
    ReindexedIndexes(st, p, want);
    forall q
      ensures SMembers(f, q) == SMembers(st'.segmentsOf, q)
    {
      forall id
        ensures id in SMembers(f, q) <==> id in SMembers(st'.segmentsOf, q)
      {
        assert Has(f, q, id) <==> Has(f1, q, id) && !(q == p && id in SMembers(st.segmentsOf, p) - want);
      }
    }
    SameMembersSameKeys(f, st'.segmentsOf);
    forall id
      ensures SMembers(g, id) == SMembers(st'.membersOf, id)
    {
      forall q
        ensures q in SMembers(g, id) <==> q in SMembers(st'.membersOf, id)
      {
        assert Has(g, id, q) <==> Has(g1, id, q) && !(q == p && id in SMembers(st.segmentsOf, p) - want);
      }
    }
    SameMembersSameKeys(g, st'.membersOf);
  }

  /** Finalize part of the way: left still to be re-evaluated. */
  ghost predicate PartlySwept(segs: seq<Segment>, st: Store, asOf: int, left: set<string>, now: Store) {
    && now.profiles == st.profiles && now.touched == st.touched && Indexed(now)
    && forall p :: SMembers(now.segmentsOf, p) ==
         if p in left then SMembers(st.segmentsOf, p) else SweptSet(segs, st, asOf, p)
  }

  lemma OneMoreSwept(segs: seq<Segment>, st: Store, asOf: int, left: set<string>, now: Store, p: string)
    requires PartlySwept(segs, st, asOf, left, now) && p in left && left <= st.touched
    ensures PartlySwept(segs, st, asOf, left - {p}, Reindexed(now, p, Evaluated(segs, st.profiles, p, asOf)))
  {
    ReindexedIndexes(now, p, Evaluated(segs, st.profiles, p, asOf));
  }

  lemma AllSwept(segs: seq<Segment>, st: Store, asOf: int, now: Store)
    requires PartlySwept(segs, st, asOf, {}, now)
    ensures now == Swept(segs, st, asOf)
  {
    SweptIndexes(segs, st, asOf);
    SameMembersSameKeys(now.segmentsOf, Swept(segs, st, asOf).segmentsOf);
    ConverseUnique(now.segmentsOf, now.membersOf, Swept(segs, st, asOf).membersOf);
  }

  // ---- The engine ----

  class IncrementalEngine {
    const segments: seq<Segment>
    var profiles: map<string, ProfileState>
    var segmentsOf: Sets
    var membersOf: Sets
    var touched: set<string>

    ghost function State(): Store
      reads this
    {
      Store(profiles, segmentsOf, membersOf, touched)
    }

    ghost predicate Valid()
      reads this
    {
      DistinctIds(segments) && Indexed(State())
    }

    constructor (segments: seq<Segment>)
      requires DistinctIds(segments)
      ensures Valid() && State() == EMPTY_STORE && this.segments == segments
    {
      this.segments := segments;
      profiles, segmentsOf, membersOf, touched := map[], map[], map[], {};
    }

    method ApplyEvent(ev: Event)
      requires Valid()
      modifies this
      ensures Valid()
      ensures State() == Applied(segments, old(State()), ev)
    {
      var p := ev.profileId;
      var ps := StateOf(profiles, p);
      touched := touched + {p};
      var stats := ps.stats.(totalEvents := ps.stats.totalEvents + 1);
      stats := stats.(lastEventTs := ev.timestampMs);
      var catviews, purch := ps.catviews, ps.purch;
      match ev.kind {
        case Purchase =>
          stats := stats.(purchaseCountTotal := stats.purchaseCountTotal + 1);
          stats := stats.(lastPurchaseTs := ev.timestampMs);
          purch := ZAdd(purch, Sec(ev.timestampMs), Member(ev.eventId, ev.priceCents));
          purch := ZRemUpTo(purch, Sec(ev.timestampMs - TRIM_DAYS * DAY_MS));
        case AddToCart =>
          stats := stats.(lastCartAddTs := ev.timestampMs);
        case PageView =>
          if ev.category != "" {
            catviews := catviews[ev.category := HGet(catviews, ev.category) + 1];
          }
        case OtherKind(_) =>
      }
      profiles := profiles[p := ProfileState(stats, catviews, purch)];
      assert profiles[p] == Update(ps, ev);
      var _, _ := Reevaluate(p, ev.timestampMs);
    }

    method Finalize(asOf: int) returns (count: nat)
      requires Valid()
      modifies this
      ensures Valid()
      ensures State() == Swept(segments, old(State()), asOf)
      ensures count == |touched|
    {
      ghost var st := State();
      var left := touched;
      while left != {}
        invariant left <= touched && Valid()
        invariant PartlySwept(segments, st, asOf, left, State())
        decreases |left|
      {
        var p :| p in left;
        ghost var before := State();
        var _, _ := Reevaluate(p, asOf);
        OneMoreSwept(segments, st, asOf, left, before, p);
        left := left - {p};
      }
      AllSwept(segments, st, asOf, State());
      count := |touched|;
    }

    /** Writes no more than the delta: added and removed are the ids written. */
    method Reevaluate(p: string, now: int) returns (ghost added: set<string>, ghost removed: set<string>)
      requires Valid()
      modifies this`segmentsOf, this`membersOf
      ensures Valid()
      ensures State() == Reindexed(old(State()), p, Evaluated(segments, profiles, p, now))
      ensures added == Evaluated(segments, profiles, p, now) - old(SMembers(segmentsOf, p))
      ensures removed == old(SMembers(segmentsOf, p)) - Evaluated(segments, profiles, p, now)
    {
      ghost var st := State();
      var matching := EvaluateProfile(p, now);
      var want := set id | id in matching;
      assert want == Evaluated(segments, profiles, p, now);
      var have := SMembers(segmentsOf, p);
      var f1, g1, entered := Enter(segmentsOf, membersOf, p, want - have);
      var f2, g2, departed := Leave(f1, g1, p, have - want);
      added, removed := entered, departed;
      DeltaWritten(st, p, want, f1, g1, f2, g2);
      segmentsOf, membersOf := f2, g2;
    }

    /** Two passes, as in the source: first every sorted-set read, keyed by
        segment id, then one verdict a segment. */
    method EvaluateProfile(p: string, now: int) returns (matching: seq<string>)
      requires DistinctIds(segments)
      ensures forall id :: id in matching <==> id in Evaluated(segments, profiles, p, now)
    {
      matching := [];
      if p !in profiles {
        return;
      }
      var ps := profiles[p];
      var counts: map<string, int> := map[];
      var ranges: map<string, set<string>> := map[];
      for i := 0 to |segments|
        invariant forall j :: 0 <= j < i && segments[j].family.PurchaseCountMin? ==>
                    segments[j].id in counts && counts[segments[j].id] == |WindowMembers(ps, segments[j], now)|
        invariant forall j :: 0 <= j < i && segments[j].family.PurchaseValueMin? ==>
                    segments[j].id in ranges && ranges[segments[j].id] == WindowMembers(ps, segments[j], now)
      {
        var seg := segments[i];
        var windowStart := Sec(now - seg.windowDays * DAY_MS);
        if seg.family.PurchaseCountMin? {
          counts := counts[seg.id := |ZRange(ps.purch, windowStart, Sec(now))|];
        } else if seg.family.PurchaseValueMin? {
          ranges := ranges[seg.id := ZRange(ps.purch, windowStart, Sec(now))];
        }
      }
      for i := 0 to |segments|
        invariant forall id :: id in matching <==>
                    exists j :: 0 <= j < i && segments[j].id == id && Matches(ps, segments[j], now)
      {
        var seg := segments[i];
        var ok := false;
        match seg.family {
          case PurchaseCountMin =>
            ok := counts[seg.id] >= seg.minCount;
          case PurchaseValueMin =>
            var sum := 0;
            var left := ranges[seg.id];
            while left != {}
              invariant sum + SumOver(left, CentsOf()) == SumOver(WindowMembers(ps, seg, now), CentsOf())
              decreases |left|
            {
              var m :| m in left;
              SumOverRemove(left, CentsOf(), m);
              sum := sum + MemberCents(m);
              left := left - {m};
            }
            ok := sum >= seg.minValueCents;
          case CartAbandonDays =>
            ok := ps.stats.lastCartAddTs > 0 && ps.stats.lastCartAddTs > ps.stats.lastPurchaseTs &&
                  now - ps.stats.lastCartAddTs >= seg.minDays * DAY_MS;
          case CategoryViewMin =>
            ok := HGet(ps.catviews, seg.category) >= seg.minCount;
          case RecentlyActiveHours =>
            ok := ps.stats.lastEventTs > 0 && now - ps.stats.lastEventTs <= seg.minHours * HOUR_MS;
          case NeverPurchased =>
            ok := ps.stats.totalEvents > 0 && ps.stats.purchaseCountTotal == 0;
          case ChurnRiskDays =>
            ok := ps.stats.purchaseCountTotal > 0 && ps.stats.lastEventTs > 0 &&
                  now - ps.stats.lastEventTs >= seg.minDays * DAY_MS;
          case MultiCategoryMin =>
            ok := |ps.catviews| >= seg.minDistinct;
          case UnknownFamily(_) =>
        }
        assert ok == Matches(ps, seg, now);
        if ok {
          matching := matching + [seg.id];
        }
      }
    }

    /** Reads the inverted index; the answer is in terms of the forward one. */
    method MembersOf(id: string) returns (members: set<string>)
      requires Valid()
      ensures forall p :: p in members <==> id in SMembers(segmentsOf, p)
    {
      members := SMembers(membersOf, id);
    }
  }
}
