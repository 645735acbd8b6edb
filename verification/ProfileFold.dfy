/** What the engine's bounded per-profile state remembers of that profile's whole history. */
module ProfileFold {
  import opened Events
  import opened Incremental
  import opened Members
  import opened FullRecompute
  import opened Redis
  import opened Sequences

  /** The state after one profile's events, applied in order. */
  function Fold(h: seq<Event>): ProfileState {
    if h == [] then BLANK else Update(Fold(h[..|h| - 1]), h[|h| - 1])
  }

  /** The latest timestamp of one kind of event; the epoch when there is none. */
  function LastOf(h: seq<Event>, kind: Kind): int { if h == [] then 0 else MaxBy(h, TimestampIf(kind)) }

  function LatestOf(h: seq<Event>): int { if h == [] then 0 else MaxBy(h, Timestamp()) }

  // ---- Counters and timestamps ----

  lemma LatestIsLast(h: seq<Event>)
    requires h != [] && Chronological(h)
    ensures LatestOf(h) == h[|h| - 1].timestampMs
  {
    MaxByIsMaximum(h, Timestamp());
    assert h[|h| - 1] in h;
  }

  lemma LastOfSnoc(h: seq<Event>, kind: Kind)
    requires h != [] && Chronological(h) && Positive(h)
    ensures LastOf(h, kind) == if h[|h| - 1].kind == kind then h[|h| - 1].timestampMs else LastOf(h[..|h| - 1], kind)
    ensures 0 <= LastOf(h, kind) <= h[|h| - 1].timestampMs
  {
    var init, x := h[..|h| - 1], h[|h| - 1];
    MaxByIsMaximum(h, TimestampIf(kind));
    assert x in h;
    if init != [] {
      MaxByIsMaximum(init, TimestampIf(kind));
      var y :| y in init && TimestampIf(kind)(y) == MaxBy(init, TimestampIf(kind));
      assert y in h;
    }
  }

  /** The counters and last-seen timestamps are those of the full history. */
  lemma {:induction false} StatsRememberHistory(h: seq<Event>)
    requires Chronological(h) && Positive(h)
    ensures var st := Fold(h).stats;
            && st.totalEvents == |h|
            && st.purchaseCountTotal == |Filter(h, OfKind(Purchase))|
            && st.lastEventTs == LatestOf(h)
            && st.lastCartAddTs == LastOf(h, AddToCart)
            && st.lastPurchaseTs == LastOf(h, Purchase)
  {
    if h != [] {
      var init := h[..|h| - 1];
      StatsRememberHistory(init);
      LatestIsLast(h);
      LastOfSnoc(h, AddToCart);
      LastOfSnoc(h, Purchase);
    }
  }

  // ---- Categories ----

  function ViewOf(category: string): Event -> bool { (e: Event) => e.kind.PageView? && e.category == category }

  lemma {:induction false} CategoryCounts(h: seq<Event>, c: string)
    requires c != ""
    ensures HGet(Fold(h).catviews, c) == |Filter(h, ViewOf(c))|
    ensures c in Fold(h).catviews <==> |Filter(h, ViewOf(c))| > 0
  {
    if h != [] {
      CategoryCounts(h[..|h| - 1], c);
    }
  }

  lemma {:induction false} NoEmptyCategory(h: seq<Event>)
    ensures "" !in Fold(h).catviews
  {
    if h != [] {
      NoEmptyCategory(h[..|h| - 1]);
    }
  }

  function IsView(): Event -> bool { (e: Event) => e.kind.PageView? }

  /** The fields of catviews: are the distinct non-empty categories viewed. */
  lemma CategoryKeys(h: seq<Event>)
    ensures Fold(h).catviews.Keys == Categories(Filter(h, IsView())) - {""}
  {
    forall c
      ensures c in Fold(h).catviews.Keys <==> c in Categories(Filter(h, IsView())) - {""}
    {
      NoEmptyCategory(h);
      if c != "" {
        CategoryCounts(h, c);
        var views, all := Filter(h, ViewOf(c)), Filter(h, IsView());
        if views != [] {
          FilterMember(h, ViewOf(c), views[0]);
          FilterMember(h, IsView(), views[0]);
          var i :| 0 <= i < |all| && all[i] == views[0];
          assert all[i].category == c;
        }
        if c in Categories(all) {
          var i :| 0 <= i < |all| && all[i].category == c;
          FilterMember(h, IsView(), all[i]);
          FilterMember(h, ViewOf(c), all[i]);
        }
      }
    }
  }

  // ---- The trimmed purchase set ----

  /** The member string of a purchase. The lemmas below take it as a parameter:
      all they use is that it tells purchases apart. */
  function MemberOf(): Event -> string { (e: Event) => Member(e.eventId, e.priceCents) }

  ghost predicate TellsApart(key: Event -> string) {
    forall d: Event, e: Event :: d.eventId != e.eventId ==> key(d) != key(e)
  }

  lemma MemberTellsApart()
    ensures TellsApart(MemberOf())
  {
    forall d: Event, e: Event | d.eventId != e.eventId
      ensures MemberOf()(d) != MemberOf()(e)
    {
      if MemberOf()(d) == MemberOf()(e) {
        MemberInjective(d.eventId, d.priceCents, e.eventId, e.priceCents);
      }
    }
  }

  /** Untrimmed as long as the profile's latest purchase is at last. */
  predicate Kept(e: Event, last: int) {
    e.kind.Purchase? && e.timestampMs / 1000 > last / 1000 - 7_776_000
  }

  ghost predicate RemembersPurchases(h: seq<Event>, key: Event -> string, z: ZSet, last: int) {
    && (forall i :: 0 <= i < |h| && Kept(h[i], last) ==> key(h[i]) in z && z[key(h[i])] == Sec(h[i].timestampMs))
    && (forall m :: m in z ==> exists i :: 0 <= i < |h| && Kept(h[i], last) && key(h[i]) == m)
  }

  lemma TrimPoint(ts: int)
    ensures Sec(ts - TRIM_DAYS * DAY_MS) == Sec(ts) - TRIM_DAYS * DAY_SEC
  {
  }

  /** The purchase set alone, folded over a history. */
  function PurchFold(h: seq<Event>, key: Event -> string): ZSet {
    if h == [] then map[]
    else
      var z, x := PurchFold(h[..|h| - 1], key), h[|h| - 1];
      if x.kind.Purchase?
      then ZRemUpTo(ZAdd(z, Sec(x.timestampMs), key(x)), Sec(x.timestampMs) - TRIM_DAYS * DAY_SEC)
      else z
  }

  lemma {:induction false} FoldedPurchases(h: seq<Event>)
    ensures Fold(h).purch == PurchFold(h, MemberOf())
  {
    if h != [] {
      FoldedPurchases(h[..|h| - 1]);
      TrimPoint(h[|h| - 1].timestampMs);
    }
  }

  /** Through every trim, the sorted set holds exactly the purchases of the 90
      days before the latest one, each at its own second. */
  lemma {:induction false} PurchasesSurviveTrims(h: seq<Event>, key: Event -> string)
    requires Chronological(h) && Positive(h) && PurchaseIdsDistinct(h) && TellsApart(key)
    ensures RemembersPurchases(h, key, PurchFold(h, key), LastOf(h, Purchase))
  {
    if h != [] {
      var init, x := h[..|h| - 1], h[|h| - 1];
      PurchasesSurviveTrims(init, key);
      LastOfSnoc(h, Purchase);
      if init != [] {
        LastOfSnoc(init, Purchase);
      }
      if x.kind.Purchase? {
        OnePurchase(h, key, PurchFold(init, key), LastOf(init, Purchase));
      } else {
        SamePurchases(h, key, PurchFold(init, key), LastOf(init, Purchase));
      }
    }
  }

  lemma SamePurchases(h: seq<Event>, key: Event -> string, z: ZSet, last: int)
    requires h != [] && !h[|h| - 1].kind.Purchase?
    requires RemembersPurchases(h[..|h| - 1], key, z, last)
    ensures RemembersPurchases(h, key, z, last)
  {
    var init := h[..|h| - 1];
    forall m | m in z
      ensures exists i :: 0 <= i < |h| && Kept(h[i], last) && key(h[i]) == m
    {
      var i :| 0 <= i < |init| && Kept(init[i], last) && key(init[i]) == m;
      assert Kept(h[i], last);
    }
  }

  lemma OnePurchase(h: seq<Event>, key: Event -> string, z: ZSet, last: int)
    requires h != [] && h[|h| - 1].kind.Purchase? && last <= h[|h| - 1].timestampMs
    requires PurchaseIdsDistinct(h) && TellsApart(key)
    requires RemembersPurchases(h[..|h| - 1], key, z, last)
    ensures var x := h[|h| - 1];
            var bought := ZAdd(z, Sec(x.timestampMs), key(x));
            RemembersPurchases(h, key, ZRemUpTo(bought, Sec(x.timestampMs) - TRIM_DAYS * DAY_SEC), x.timestampMs)
  {
    var init, x := h[..|h| - 1], h[|h| - 1];
    var z' := ZRemUpTo(ZAdd(z, Sec(x.timestampMs), key(x)), Sec(x.timestampMs) - TRIM_DAYS * DAY_SEC);
    forall i | 0 <= i < |h| && Kept(h[i], x.timestampMs)
      ensures key(h[i]) in z' && z'[key(h[i])] == Sec(h[i].timestampMs)
    {
      if i < |init| {
        assert Kept(init[i], last);
      }
    }
    forall m | m in z'
      ensures exists i :: 0 <= i < |h| && Kept(h[i], x.timestampMs) && key(h[i]) == m
    {
      if m == key(x) {
        assert Kept(h[|h| - 1], x.timestampMs);
      } else {
        var i :| 0 <= i < |init| && Kept(init[i], last) && key(init[i]) == m;
        assert Kept(h[i], x.timestampMs);
      }
    }
  }

  lemma LastPurchase(h: seq<Event>)
    requires Positive(h)
    ensures forall j :: 0 <= j < |h| && h[j].kind.Purchase? ==> h[j].timestampMs <= LastOf(h, Purchase)
    ensures (exists j :: 0 <= j < |h| && h[j].kind.Purchase?) ==>
            exists j :: 0 <= j < |h| && h[j].kind.Purchase? && h[j].timestampMs == LastOf(h, Purchase)
  {
    if h != [] {
      MaxByIsMaximum(h, TimestampIf(Purchase));
      forall j | 0 <= j < |h| && h[j].kind.Purchase?
        ensures h[j].timestampMs <= LastOf(h, Purchase)
      {
        assert h[j] in h && TimestampIf(Purchase)(h[j]) == h[j].timestampMs;
      }
      var e :| e in h && TimestampIf(Purchase)(e) == MaxBy(h, TimestampIf(Purchase));
      var k :| 0 <= k < |h| && h[k] == e;
    }
  }

  /** The sorted set in numbers: a purchase is in it, at its own second, exactly
      when no purchase of the profile is 7 776 000 or more clock seconds, 90
      days, later; and nothing else is. */
  lemma KeptForNinetyDays(h: seq<Event>, i: nat)
    requires Orderly(h) && i < |h| && h[i].kind.Purchase?
    ensures var z, m := Fold(h).purch, Member(h[i].eventId, h[i].priceCents);
            && (m in z <==> forall j :: 0 <= j < |h| && h[j].kind.Purchase? ==>
                  h[j].timestampMs / 1000 < h[i].timestampMs / 1000 + 7_776_000)
            && (m in z ==> z[m] == h[i].timestampMs / 1000)
  {
    FoldedPurchases(h);
    MemberTellsApart();
    PurchasesSurviveTrims(h, MemberOf());
    LastPurchase(h);
    var z := Fold(h).purch;
    if MemberOf()(h[i]) in z {
      var k :| 0 <= k < |h| && Kept(h[k], LastOf(h, Purchase)) && MemberOf()(h[k]) == MemberOf()(h[i]);
      assert h[k].eventId == h[i].eventId;
      assert k == i;
    }
  }

  lemma OnlyPurchasesKept(h: seq<Event>, m: string)
    requires Orderly(h) && m in Fold(h).purch
    ensures exists i :: 0 <= i < |h| && h[i].kind.Purchase? && Member(h[i].eventId, h[i].priceCents) == m
  {
    FoldedPurchases(h);
    MemberTellsApart();
    PurchasesSurviveTrims(h, MemberOf());
    var i :| 0 <= i < |h| && Kept(h[i], LastOf(h, Purchase)) && MemberOf()(h[i]) == m;
  }

  // ---- Windows over it ----

  function KeptWithin(last: int, min: int, max: int): Event -> bool {
    (e: Event) => Kept(e, last) && min <= Sec(e.timestampMs) <= max
  }

  function KeySet(key: Event -> string, rows: seq<Event>): set<string> { set i | 0 <= i < |rows| :: key(rows[i]) }

  /** A sorted-set range is the kept purchases of that range. */
  lemma RangeIsFilter(h: seq<Event>, key: Event -> string, z: ZSet, last: int, min: int, max: int)
    requires RemembersPurchases(h, key, z, last)
    ensures ZRange(z, min, max) == KeySet(key, Filter(h, KeptWithin(last, min, max)))
  {
    var f := KeptWithin(last, min, max);
    var rows := Filter(h, f);
    forall m
      ensures m in ZRange(z, min, max) <==> m in KeySet(key, rows)
    {
      if m in ZRange(z, min, max) {
        var i :| 0 <= i < |h| && Kept(h[i], last) && key(h[i]) == m;
        FilterMember(h, f, h[i]);
        var j :| 0 <= j < |rows| && rows[j] == h[i];
        assert key(rows[j]) == m;
      }
      if m in KeySet(key, rows) {
        var j :| 0 <= j < |rows| && key(rows[j]) == m;
        FilterMember(h, f, rows[j]);
        var i :| 0 <= i < |h| && h[i] == rows[j];
        assert Kept(h[i], last);
      }
    }
  }

  ghost predicate KeysDistinct(key: Event -> string, rows: seq<Event>) {
    forall i, j :: 0 <= i < j < |rows| ==> key(rows[i]) != key(rows[j])
  }

  lemma {:induction false} FilterKeysDistinct(h: seq<Event>, key: Event -> string, f: Event -> bool)
    requires PurchaseIdsDistinct(h) && TellsApart(key)
    requires forall e :: e in h && f(e) ==> e.kind.Purchase?
    ensures KeysDistinct(key, Filter(h, f))
  {
    if h != [] {
      var init, x := h[..|h| - 1], h[|h| - 1];
      FilterKeysDistinct(init, key, f);
      if f(x) {
        assert x in h;
        var rows := Filter(init, f);
        forall i | 0 <= i < |rows|
          ensures key(rows[i]) != key(x)
        {
          FilterMember(init, f, rows[i]);
          var j :| 0 <= j < |init| && init[j] == rows[i];
          assert h[j] == rows[i] && h[j] in h;
        }
      }
    }
  }

  /** What a purchase adds to the window sum: nothing when its id holds a bar. */
  function Credited(): Event -> int { (e: Event) => if '|' in e.eventId then 0 else e.priceCents }

  lemma KeySetSnoc(key: Event -> string, rows: seq<Event>)
    requires rows != [] && KeysDistinct(key, rows)
    ensures var init, k := rows[..|rows| - 1], key(rows[|rows| - 1]);
            && KeySet(key, rows) == KeySet(key, init) + {k}
            && k !in KeySet(key, init)
            && KeySet(key, rows) - {k} == KeySet(key, init)
  {
    var init, k := rows[..|rows| - 1], key(rows[|rows| - 1]);
    assert forall i :: 0 <= i < |init| ==> init[i] == rows[i];
    assert KeySet(key, rows) == KeySet(key, init) + {k};
    assert k !in KeySet(key, init);
  }

  /** Counting and summing the members is counting and summing the rows. */
  lemma {:induction false} KeySetMeasures(key: Event -> string, rows: seq<Event>, w: string -> int, credit: Event -> int)
    requires KeysDistinct(key, rows)
    requires forall e :: w(key(e)) == credit(e)
    ensures |KeySet(key, rows)| == |rows|
    ensures SumOver(KeySet(key, rows), w) == SumBy(rows, credit)
  {
    if rows != [] {
      var init, x := rows[..|rows| - 1], rows[|rows| - 1];
      KeySetMeasures(key, init, w, credit);
      KeySetSnoc(key, rows);
      SumOverRemove(KeySet(key, rows), w, key(x));
    }
  }

  lemma MembersCredit()
    ensures forall e :: CentsOf()(MemberOf()(e)) == Credited()(e)
  {
    forall e: Event
      ensures CentsOf()(MemberOf()(e)) == Credited()(e)
    {
      MemberCentsExact(e.eventId, e.priceCents);
    }
  }

  /** Reading a range of the set, in terms of any faithful member encoding. */
  lemma RangeMeasures(h: seq<Event>, key: Event -> string, w: string -> int, credit: Event -> int, min: int, max: int)
    requires Chronological(h) && Positive(h) && PurchaseIdsDistinct(h) && TellsApart(key)
    requires forall e :: w(key(e)) == credit(e)
    ensures var rows := Filter(h, KeptWithin(LastOf(h, Purchase), min, max));
            && |ZRange(PurchFold(h, key), min, max)| == |rows|
            && SumOver(ZRange(PurchFold(h, key), min, max), w) == SumBy(rows, credit)
  {
    var f := KeptWithin(LastOf(h, Purchase), min, max);
    PurchasesSurviveTrims(h, key);
    RangeIsFilter(h, key, PurchFold(h, key), LastOf(h, Purchase), min, max);
    FilterKeysDistinct(h, key, f);
    KeySetMeasures(key, Filter(h, f), w, credit);
  }

  /** ZCOUNT and the ZRANGEBYSCORE sum, as filters over the whole history. */
  lemma WindowReads(h: seq<Event>, min: int, max: int)
    requires Chronological(h) && Positive(h) && PurchaseIdsDistinct(h)
    ensures var rows := Filter(h, KeptWithin(LastOf(h, Purchase), min, max));
            && |ZRange(Fold(h).purch, min, max)| == |rows|
            && SumOver(ZRange(Fold(h).purch, min, max), CentsOf()) == SumBy(rows, Credited())
  {
    FoldedPurchases(h);
    MemberTellsApart();
    MembersCredit();
    RangeMeasures(h, MemberOf(), CentsOf(), Credited(), min, max);
  }

  // ---- The representation invariant ----

  ghost predicate RangeFaithful(z: ZSet, h: seq<Event>, min: int, max: int) {
    var rows := Filter(h, KeptWithin(LastOf(h, Purchase), min, max));
    |ZRange(z, min, max)| == |rows| && SumOver(ZRange(z, min, max), CentsOf()) == SumBy(rows, Credited())
  }

  /** All that the bounded state tells about the history it stands for. */
  ghost predicate Represents(ps: ProfileState, h: seq<Event>) {
    && ps.stats == Stats(|h|, |Filter(h, OfKind(Purchase))|, LatestOf(h), LastOf(h, AddToCart), LastOf(h, Purchase))
    && (forall c :: c != "" ==> HGet(ps.catviews, c) == |Filter(h, ViewOf(c))|)
    && ps.catviews.Keys == Categories(Filter(h, IsView())) - {""}
    && (forall min, max :: RangeFaithful(ps.purch, h, min, max))
  }

  lemma FoldRepresents(h: seq<Event>)
    requires Orderly(h)
    ensures Represents(Fold(h), h)
  {
    StatsRememberHistory(h);
    forall c | c != ""
      ensures HGet(Fold(h).catviews, c) == |Filter(h, ViewOf(c))|
    {
      CategoryCounts(h, c);
    }
    CategoryKeys(h);
    forall min, max
      ensures RangeFaithful(Fold(h).purch, h, min, max)
    {
      WindowReads(h, min, max);
    }
  }
}
