/** One profile, both engines: when the verdict from the bounded state equals
    the verdict from the whole history, and exactly when it does not. The two
    disagree only where seconds meet milliseconds. */
module Agreement {
  import opened Events
  import opened Incremental
  import opened Members
  import opened ProfileFold
  import opened FullRecompute
  import opened Redis
  import opened Sequences

  /** What a purchase-window segment counts on the engine's side. */
  function EngineWindow(h: seq<Event>, days: int, asOf: int): Event -> bool {
    KeptWithin(LastOf(h, Purchase), Sec(asOf - days * DAY_MS), Sec(asOf))
  }

  /** The window's lower edge falls in the very second the last trim removed. */
  predicate TrimTouchesWindow(h: seq<Event>, days: int, asOf: int) {
    days == 90 && Sec(asOf) == Sec(LastOf(h, Purchase))
  }

  /** A purchase in the clock second of the window's lower edge. */
  predicate OnEdge(e: Event, days: int, asOf: int) {
    e.kind.Purchase? && e.timestampMs / 1000 == asOf / 1000 - days * 86_400
  }

  /** Every purchase in the edge second lies on the side the engine takes it to be on. */
  ghost predicate WindowClear(h: seq<Event>, days: int, asOf: int) {
    forall i :: 0 <= i < |h| && OnEdge(h[i], days, asOf) ==>
      (h[i].timestampMs < asOf - days * 86_400_000 <==> TrimTouchesWindow(h, days, asOf))
  }

  /** Not days old to the millisecond, but days old in clock seconds. */
  predicate WithinTheSecond(from: int, asOf: int, days: int) {
    asOf / 1000 - from / 1000 == days * 86_400 && asOf - from < days * 86_400_000
  }

  predicate CartOpen(h: seq<Event>) { LastOf(h, AddToCart) > LastOf(h, Purchase) }

  predicate HasPurchased(h: seq<Event>) { |Filter(h, OfKind(Purchase))| >= 1 }

  /** No event of the profile sits on a millisecond edge of the segment. */
  ghost predicate EdgeClear(h: seq<Event>, seg: Segment, asOf: int) {
    match seg.family
    case PurchaseCountMin => WindowClear(h, seg.windowDays, asOf)
    case PurchaseValueMin => WindowClear(h, seg.windowDays, asOf)
    case CartAbandonDays => !(CartOpen(h) && WithinTheSecond(LastOf(h, AddToCart), asOf, seg.minDays))
    case ChurnRiskDays => !(HasPurchased(h) && WithinTheSecond(LatestOf(h), asOf, seg.minDays))
    case _ => true
  }

  // ---- Purchase windows ----

  lemma PurchaseNotAfterLast(h: seq<Event>, e: Event)
    requires e in h && e.kind.Purchase?
    ensures e.timestampMs <= LastOf(h, Purchase)
  {
    MaxByIsMaximum(h, TimestampIf(Purchase));
    assert TimestampIf(Purchase)(e) == e.timestampMs;
  }

  /** The two windows, event by event: they differ only on the edge second, and
      always in the same direction for the whole history. */
  lemma WindowsDifferOnEdge(h: seq<Event>, days: int, asOf: int, e: Event)
    requires 0 <= days <= 90 && NoneAfter(h, asOf) && e in h
    requires LastOf(h, Purchase) <= asOf
    ensures !TrimTouchesWindow(h, days, asOf) ==>
      && (PurchasedWithin(days, asOf)(e) ==> EngineWindow(h, days, asOf)(e))
      && (EngineWindow(h, days, asOf)(e) && !PurchasedWithin(days, asOf)(e) <==>
            OnEdge(e, days, asOf) && e.timestampMs < asOf - days * 86_400_000)
    ensures TrimTouchesWindow(h, days, asOf) ==>
      && (EngineWindow(h, days, asOf)(e) ==> PurchasedWithin(days, asOf)(e))
      && (PurchasedWithin(days, asOf)(e) && !EngineWindow(h, days, asOf)(e) <==>
            OnEdge(e, days, asOf) && e.timestampMs >= asOf - days * 86_400_000)
  {
    if e.kind.Purchase? {
      PurchaseNotAfterLast(h, e);
    }
    assert Sec(asOf - days * DAY_MS) == Sec(asOf) - days * DAY_SEC;
  }

  lemma LastNotAfter(h: seq<Event>, asOf: int)
    requires NoneAfter(h, asOf) && Positive(h) && h != []
    ensures LastOf(h, Purchase) <= asOf && LastOf(h, AddToCart) <= asOf && LatestOf(h) <= asOf
  {
    MaxByIsMaximum(h, TimestampIf(Purchase));
    MaxByIsMaximum(h, TimestampIf(AddToCart));
    MaxByIsMaximum(h, Timestamp());
    assert h[0].timestampMs > 0;
  }

  lemma ClearWindowsAgree(h: seq<Event>, days: int, asOf: int)
    requires h != [] && Positive(h) && NoneAfter(h, asOf) && 0 <= days <= 90 && WindowClear(h, days, asOf)
    ensures Filter(h, EngineWindow(h, days, asOf)) == Filter(h, PurchasedWithin(days, asOf))
  {
    LastNotAfter(h, asOf);
    forall e | e in h
      ensures EngineWindow(h, days, asOf)(e) == PurchasedWithin(days, asOf)(e)
    {
      WindowsDifferOnEdge(h, days, asOf, e);
      var i :| 0 <= i < |h| && h[i] == e;
      assert OnEdge(h[i], days, asOf) ==>
          (h[i].timestampMs < asOf - days * 86_400_000 <==> TrimTouchesWindow(h, days, asOf));
    }
    FilterAgrees(h, EngineWindow(h, days, asOf), PurchasedWithin(days, asOf));
  }

  /** Any positive measure of the two windows is equal exactly on clear histories. */
  lemma WindowMeasuresEqual(h: seq<Event>, days: int, asOf: int, w: Event -> int)
    requires h != [] && Positive(h) && NoneAfter(h, asOf) && 0 <= days <= 90
    requires forall e :: e in h ==> w(e) >= 0 && (e.kind.Purchase? ==> w(e) > 0)
    ensures SumBy(Filter(h, EngineWindow(h, days, asOf)), w) == SumBy(Filter(h, PurchasedWithin(days, asOf)), w)
            <==> WindowClear(h, days, asOf)
  {
    var f, g := EngineWindow(h, days, asOf), PurchasedWithin(days, asOf);
    LastNotAfter(h, asOf);
    forall e | e in h
      ensures if TrimTouchesWindow(h, days, asOf) then f(e) ==> g(e) else g(e) ==> f(e)
    {
      WindowsDifferOnEdge(h, days, asOf, e);
    }
    if WindowClear(h, days, asOf) {
      ClearWindowsAgree(h, days, asOf);
    } else {
      var i :| 0 <= i < |h| && OnEdge(h[i], days, asOf) &&
               !(h[i].timestampMs < asOf - days * 86_400_000 <==> TrimTouchesWindow(h, days, asOf));
      assert h[i] in h;
      WindowsDifferOnEdge(h, days, asOf, h[i]);
      if TrimTouchesWindow(h, days, asOf) {
        FilterSumStrict(h, f, g, w, i);
      } else {
        FilterSumStrict(h, g, f, w, i);
      }
    }
  }

  lemma WindowCountsComparable(h: seq<Event>, days: int, asOf: int)
    requires h != [] && Positive(h) && NoneAfter(h, asOf) && 0 <= days <= 90
    ensures |Filter(h, EngineWindow(h, days, asOf))| == |Filter(h, PurchasedWithin(days, asOf))|
            <==> WindowClear(h, days, asOf)
  {
    SumOfOnes(Filter(h, EngineWindow(h, days, asOf)));
    SumOfOnes(Filter(h, PurchasedWithin(days, asOf)));
    WindowMeasuresEqual(h, days, asOf, One());
  }

  /** ZCOUNT over the trimmed set equals count() over the log exactly on clear histories. */
  lemma WindowCountsEqual(ps: ProfileState, h: seq<Event>, seg: Segment, asOf: int)
    requires Represents(ps, h)
    requires h != [] && WellFormed(h) && NoneAfter(h, asOf) && 0 <= seg.windowDays <= 90
    ensures |WindowMembers(ps, seg, asOf)| == |Filter(h, EngineWindow(h, seg.windowDays, asOf))|
    ensures |WindowMembers(ps, seg, asOf)| == |Filter(h, PurchasedWithin(seg.windowDays, asOf))|
            <==> WindowClear(h, seg.windowDays, asOf)
  {
    assert RangeFaithful(ps.purch, h, Sec(asOf - seg.windowDays * DAY_MS), Sec(asOf));
    WindowCountsComparable(h, seg.windowDays, asOf);
  }

  lemma EngineCount(ps: ProfileState, h: seq<Event>, seg: Segment, asOf: int)
    requires Represents(ps, h)
    ensures |WindowMembers(ps, seg, asOf)| == SumBy(Filter(h, EngineWindow(h, seg.windowDays, asOf)), One())
  {
    assert RangeFaithful(ps.purch, h, Sec(asOf - seg.windowDays * DAY_MS), Sec(asOf));
    SumOfOnes(Filter(h, EngineWindow(h, seg.windowDays, asOf)));
  }

  /** The window sum is what the engine credits over its window ... */
  lemma WindowCredit(ps: ProfileState, h: seq<Event>, seg: Segment, asOf: int)
    requires Represents(ps, h)
    ensures SumOver(WindowMembers(ps, seg, asOf), CentsOf()) ==
            SumBy(Filter(h, EngineWindow(h, seg.windowDays, asOf)), Credited())
  {
    assert RangeFaithful(ps.purch, h, Sec(asOf - seg.windowDays * DAY_MS), Sec(asOf));
  }

  /** ... which is every price when no id holds a bar. */
  lemma WindowSums(ps: ProfileState, h: seq<Event>, seg: Segment, asOf: int)
    requires Represents(ps, h)
    requires WellFormed(h)
    ensures SumOver(WindowMembers(ps, seg, asOf), CentsOf()) ==
            SumBy(Filter(h, EngineWindow(h, seg.windowDays, asOf)), Price())
  {
    WindowCredit(ps, h, seg, asOf);
    PlainCredit(h, EngineWindow(h, seg.windowDays, asOf));
  }

  lemma PlainCredit(h: seq<Event>, f: Event -> bool)
    requires PurchaseIdsPlain(h) && forall e :: f(e) ==> e.kind.Purchase?
    ensures SumBy(Filter(h, f), Credited()) == SumBy(Filter(h, f), Price())
  {
    forall e | e in Filter(h, f)
      ensures Credited()(e) == Price()(e)
    {
      FilterMember(h, f, e);
      var i :| 0 <= i < |h| && h[i] == e;
      assert h[i].kind.Purchase?;
    }
    SumByAgrees(Filter(h, f), Credited(), Price());
  }

  /** The two verdicts at one threshold. */
  ghost predicate CountAgrees(ps: ProfileState, h: seq<Event>, seg: Segment, n: int, asOf: int) {
    Matches(ps, seg.(minCount := n), asOf) <==> Selected(h, seg.(minCount := n), asOf)
  }

  ghost predicate ValueAgrees(ps: ProfileState, h: seq<Event>, seg: Segment, v: int, asOf: int) {
    Matches(ps, seg.(minValueCents := v), asOf) <==> Selected(h, seg.(minValueCents := v), asOf)
  }

  ghost predicate CountsAgree(ps: ProfileState, h: seq<Event>, seg: Segment, asOf: int) {
    forall n :: n >= 1 ==> CountAgrees(ps, h, seg, n, asOf)
  }

  ghost predicate ValuesAgree(ps: ProfileState, h: seq<Event>, seg: Segment, asOf: int) {
    forall v :: v >= 1 ==> ValueAgrees(ps, h, seg, v, asOf)
  }

  /** Membership by purchase count agrees for every threshold exactly on clear histories. */
  lemma CountFamilyExact(ps: ProfileState, h: seq<Event>, seg: Segment, asOf: int)
    requires Represents(ps, h)
    requires h != [] && WellFormed(h) && NoneAfter(h, asOf)
    requires seg.family.PurchaseCountMin? && 0 <= seg.windowDays <= 90
    ensures CountsAgree(ps, h, seg, asOf) <==> WindowClear(h, seg.windowDays, asOf)
  {
    WindowCountsEqual(ps, h, seg, asOf);
    var a, b := |WindowMembers(ps, seg, asOf)|, |Filter(h, PurchasedWithin(seg.windowDays, asOf))|;
    forall n | n >= 1
      ensures CountAgrees(ps, h, seg, n, asOf) <==> (a >= n <==> b >= n)
    {
    }
    if a != b {
      var n := if a > b then a else b;
      assert !CountAgrees(ps, h, seg, n, asOf);
    }
  }

  // ---- Purchase value ----

  /** Cents the engine counts that the query does not ... */
  function Overcounted(h: seq<Event>, days: int, asOf: int): Event -> int {
    var f, g := EngineWindow(h, days, asOf), PurchasedWithin(days, asOf);
    (e: Event) => if f(e) && !g(e) then Credited()(e) else 0
  }

  /** ... and cents the query counts that the engine does not credit. */
  function Undercounted(h: seq<Event>, days: int, asOf: int): Event -> int {
    var f, g := EngineWindow(h, days, asOf), PurchasedWithin(days, asOf);
    (e: Event) => if g(e) then e.priceCents - Masked(f, Credited())(e) else 0
  }

  /** As many cents counted too often as not at all. */
  predicate Balanced(h: seq<Event>, days: int, asOf: int) {
    SumBy(h, Overcounted(h, days, asOf)) == SumBy(h, Undercounted(h, days, asOf))
  }

  /** Every credited purchase in the edge second lies on the side the engine takes it to be on. */
  ghost predicate CreditedClear(h: seq<Event>, days: int, asOf: int) {
    forall i :: 0 <= i < |h| && OnEdge(h[i], days, asOf) && Credited()(h[i]) > 0 ==>
      (h[i].timestampMs < asOf - days * 86_400_000 <==> TrimTouchesWindow(h, days, asOf))
  }

  /** No purchase in the query's window loses its price to a bar in its id. */
  ghost predicate FullyCredited(h: seq<Event>, days: int, asOf: int) {
    forall i :: 0 <= i < |h| && PurchasedWithin(days, asOf)(h[i]) && h[i].priceCents > 0 ==> '|' !in h[i].eventId
  }

  ghost predicate PurchasesPriced(h: seq<Event>) {
    forall i :: 0 <= i < |h| && h[i].kind.Purchase? ==> h[i].priceCents > 0
  }

  lemma MiscountNonNegative(h: seq<Event>, days: int, asOf: int)
    requires PricesNonNegative(h)
    ensures forall e :: e in h ==> Overcounted(h, days, asOf)(e) >= 0 && Undercounted(h, days, asOf)(e) >= 0
    ensures SumBy(h, Overcounted(h, days, asOf)) >= 0 && SumBy(h, Undercounted(h, days, asOf)) >= 0
  {
    SumByPositive(h, Overcounted(h, days, asOf));
    SumByPositive(h, Undercounted(h, days, asOf));
  }

  /** The two window sums differ by the two miscounts. */
  lemma WindowBalance(h: seq<Event>, days: int, asOf: int)
    requires PricesNonNegative(h)
    ensures var credited := SumBy(Filter(h, EngineWindow(h, days, asOf)), Credited());
            var spent := SumBy(Filter(h, PurchasedWithin(days, asOf)), Price());
            && credited >= 0 && spent >= 0
            && credited + SumBy(h, Undercounted(h, days, asOf)) == spent + SumBy(h, Overcounted(h, days, asOf))
  {
    var f, g := EngineWindow(h, days, asOf), PurchasedWithin(days, asOf);
    FilterSum(h, f, Credited());
    FilterSum(h, g, Price());
    SumByPositive(h, Masked(f, Credited()));
    SumByPositive(h, Masked(g, Price()));
    SumByBalance(h, Masked(f, Credited()), Undercounted(h, days, asOf), Masked(g, Price()), Overcounted(h, days, asOf));
  }

  /** Purchase value agrees for every threshold exactly when the miscounts
      balance, whatever ids and prices the purchases have. */
  lemma ValueFamilyExact(ps: ProfileState, h: seq<Event>, seg: Segment, asOf: int)
    requires Represents(ps, h) && PricesNonNegative(h) && seg.family.PurchaseValueMin?
    ensures ValuesAgree(ps, h, seg, asOf) <==> Balanced(h, seg.windowDays, asOf)
  {
    WindowCredit(ps, h, seg, asOf);
    WindowBalance(h, seg.windowDays, asOf);
    var read := SumBy(Filter(h, EngineWindow(h, seg.windowDays, asOf)), Credited());
    var spent := SumBy(Filter(h, PurchasedWithin(seg.windowDays, asOf)), Price());
    forall v | v >= 1
      ensures ValueAgrees(ps, h, seg, v, asOf) <==> (read >= v <==> spent >= v)
    {
    }
    if read != spent {
      var v := if read > spent then read else spent;
      assert !ValueAgrees(ps, h, seg, v, asOf);
    }
  }

  /** Where the miscounts come from: too old a credited purchase in the edge
      second; and a bar in an id, or a trim that took the edge second. */
  lemma MiscountsAt(h: seq<Event>, days: int, asOf: int, e: Event)
    requires e in h && Positive(h) && NoneAfter(h, asOf) && PricesNonNegative(h) && 0 <= days <= 90
    ensures var tooOld := e.timestampMs < asOf - days * 86_400_000;
            && (Overcounted(h, days, asOf)(e) > 0 <==>
                  OnEdge(e, days, asOf) && Credited()(e) > 0 && tooOld && !TrimTouchesWindow(h, days, asOf))
            && (Undercounted(h, days, asOf)(e) > 0 <==>
                  e.priceCents > 0 && PurchasedWithin(days, asOf)(e) &&
                  ('|' in e.eventId || (OnEdge(e, days, asOf) && TrimTouchesWindow(h, days, asOf))))
  {
    LastNotAfter(h, asOf);
    WindowsDifferOnEdge(h, days, asOf, e);
    assert e.priceCents >= 0;
  }

  lemma NoOvercount(h: seq<Event>, days: int, asOf: int)
    requires Positive(h) && NoneAfter(h, asOf) && PricesNonNegative(h) && 0 <= days <= 90
    ensures SumBy(h, Overcounted(h, days, asOf)) == 0 <==> TrimTouchesWindow(h, days, asOf) || CreditedClear(h, days, asOf)
  {
    MiscountNonNegative(h, days, asOf);
    SumByPositive(h, Overcounted(h, days, asOf));
    forall i | 0 <= i < |h|
      ensures Overcounted(h, days, asOf)(h[i]) == 0 <==>
              !(OnEdge(h[i], days, asOf) && Credited()(h[i]) > 0 &&
                h[i].timestampMs < asOf - days * 86_400_000 && !TrimTouchesWindow(h, days, asOf))
    {
      assert h[i] in h;
      MiscountsAt(h, days, asOf, h[i]);
    }
  }

  lemma NoUndercount(h: seq<Event>, days: int, asOf: int)
    requires Positive(h) && NoneAfter(h, asOf) && PricesNonNegative(h) && 0 <= days <= 90
    ensures SumBy(h, Undercounted(h, days, asOf)) == 0 <==>
            FullyCredited(h, days, asOf) && (TrimTouchesWindow(h, days, asOf) ==> CreditedClear(h, days, asOf))
  {
    MiscountNonNegative(h, days, asOf);
    SumByPositive(h, Undercounted(h, days, asOf));
    forall i | 0 <= i < |h|
      ensures Undercounted(h, days, asOf)(h[i]) == 0 <==>
              !(h[i].priceCents > 0 && PurchasedWithin(days, asOf)(h[i]) &&
                ('|' in h[i].eventId || (OnEdge(h[i], days, asOf) && TrimTouchesWindow(h, days, asOf))))
    {
      assert h[i] in h;
      MiscountsAt(h, days, asOf, h[i]);
    }
    if TrimTouchesWindow(h, days, asOf) {
      forall i | 0 <= i < |h| && OnEdge(h[i], days, asOf) && h[i].timestampMs >= asOf - days * 86_400_000
        ensures PurchasedWithin(days, asOf)(h[i])
      {
      }
    }
  }

  /** So the miscounts balance when no credited purchase is on the wrong side of
      the edge and none in the window has a bar in its id; and when they
      balance, either half implies the other. While the trim touches the
      window nothing is counted too often, and both halves are needed. */
  lemma BalancedExactly(h: seq<Event>, days: int, asOf: int)
    requires Positive(h) && NoneAfter(h, asOf) && PricesNonNegative(h) && 0 <= days <= 90
    ensures CreditedClear(h, days, asOf) && FullyCredited(h, days, asOf) ==> Balanced(h, days, asOf)
    ensures Balanced(h, days, asOf) ==> (CreditedClear(h, days, asOf) <==> FullyCredited(h, days, asOf))
    ensures Balanced(h, days, asOf) && TrimTouchesWindow(h, days, asOf) ==> CreditedClear(h, days, asOf)
    ensures PurchaseIdsPlain(h) ==> (Balanced(h, days, asOf) <==> CreditedClear(h, days, asOf))
    ensures PurchaseIdsPlain(h) && PurchasesPriced(h) ==> (Balanced(h, days, asOf) <==> WindowClear(h, days, asOf))
  {
    MiscountNonNegative(h, days, asOf);
    NoOvercount(h, days, asOf);
    NoUndercount(h, days, asOf);
    if PurchaseIdsPlain(h) {
      assert FullyCredited(h, days, asOf);
    }
  }

  // ---- Containment ----

  /** Off the trim the engine's window holds the query's; when the trim touches
      it, the query's holds the engine's. Membership follows the same way. */
  lemma WindowContained(ps: ProfileState, h: seq<Event>, seg: Segment, asOf: int)
    requires Represents(ps, h)
    requires h != [] && WellFormed(h) && NoneAfter(h, asOf) && PricesNonNegative(h) && Sane(seg)
    requires seg.family.PurchaseCountMin? || seg.family.PurchaseValueMin?
    ensures !TrimTouchesWindow(h, seg.windowDays, asOf) ==> (Selected(h, seg, asOf) ==> Matches(ps, seg, asOf))
    ensures TrimTouchesWindow(h, seg.windowDays, asOf) ==> (Matches(ps, seg, asOf) ==> Selected(h, seg, asOf))
  {
    var days := seg.windowDays;
    var w := if seg.family.PurchaseCountMin? then One() else Price();
    MeasureContained(h, days, asOf, w);
    EngineCount(ps, h, seg, asOf);
    WindowSums(ps, h, seg, asOf);
    SumOfOnes(Filter(h, PurchasedWithin(days, asOf)));
  }

  lemma MeasureContained(h: seq<Event>, days: int, asOf: int, w: Event -> int)
    requires h != [] && Positive(h) && NoneAfter(h, asOf) && 0 <= days <= 90
    requires forall e :: e in h ==> w(e) >= 0
    ensures var read, spent := SumBy(Filter(h, EngineWindow(h, days, asOf)), w),
                             SumBy(Filter(h, PurchasedWithin(days, asOf)), w);
            if TrimTouchesWindow(h, days, asOf) then read <= spent else spent <= read
  {
    var f, g := EngineWindow(h, days, asOf), PurchasedWithin(days, asOf);
    LastNotAfter(h, asOf);
    forall e | e in h
      ensures if TrimTouchesWindow(h, days, asOf) then f(e) ==> g(e) else g(e) ==> f(e)
    {
      WindowsDifferOnEdge(h, days, asOf, e);
    }
    if TrimTouchesWindow(h, days, asOf) {
      FilterSumMonotone(h, f, g, w);
    } else {
      FilterSumMonotone(h, g, f, w);
    }
  }

  /** What an untrimmed sorted set would answer. */
  function UntrimmedWindow(days: int, now: int): Event -> bool {
    (e: Event) => e.kind.Purchase? && (now - days * 86_400_000) / 1000 <= e.timestampMs / 1000 <= now / 1000
  }

  /** Trimming is invisible to every window of up to 90 days, whatever is read
      from it, except that the full 90-day window, read within the clock second
      of the latest purchase, misses the purchases of its own first second. */
  lemma TrimInvisibleExactly(h: seq<Event>, days: int, now: int)
    requires LastOf(h, Purchase) <= now && 0 <= days <= 90
    ensures Filter(h, EngineWindow(h, days, now)) == Filter(h, UntrimmedWindow(days, now)) <==>
            !(TrimTouchesWindow(h, days, now) && exists i :: 0 <= i < |h| && OnEdge(h[i], days, now))
  {
    var f, g := EngineWindow(h, days, now), UntrimmedWindow(days, now);
    assert Sec(now - days * DAY_MS) == Sec(now) - days * DAY_SEC;
    if i :| 0 <= i < |h| && TrimTouchesWindow(h, days, now) && OnEdge(h[i], days, now) {
      FilterMember(h, f, h[i]);
      FilterMember(h, g, h[i]);
    } else {
      forall e | e in h
        ensures f(e) == g(e)
      {
        var i :| 0 <= i < |h| && h[i] == e;
        assert !(TrimTouchesWindow(h, days, now) && OnEdge(h[i], days, now));
      }
      FilterAgrees(h, f, g);
    }
  }

  /** What the engine reads is that window's count, and a measure positive on
      purchases tells the two windows apart exactly when they differ. */
  lemma TrimSeenByMeasures(ps: ProfileState, h: seq<Event>, days: int, now: int, w: Event -> int)
    requires Represents(ps, h) && LastOf(h, Purchase) <= now && 0 <= days <= 90
    requires forall e :: e in h ==> w(e) >= 0 && (e.kind.Purchase? ==> w(e) > 0)
    ensures |ZRange(ps.purch, (now - days * 86_400_000) / 1000, now / 1000)| == |Filter(h, EngineWindow(h, days, now))|
    ensures SumBy(Filter(h, EngineWindow(h, days, now)), w) == SumBy(Filter(h, UntrimmedWindow(days, now)), w) <==>
            Filter(h, EngineWindow(h, days, now)) == Filter(h, UntrimmedWindow(days, now))
  {
    var f, g := EngineWindow(h, days, now), UntrimmedWindow(days, now);
    assert RangeFaithful(ps.purch, h, Sec(now - days * DAY_MS), Sec(now));
    assert Sec(now - days * DAY_MS) == Sec(now) - days * DAY_SEC;
    TrimInvisibleExactly(h, days, now);
    assert forall e :: f(e) ==> g(e);
    if i :| 0 <= i < |h| && TrimTouchesWindow(h, days, now) && OnEdge(h[i], days, now) {
      FilterSumStrict(h, f, g, w, i);
    }
  }

  // ---- The other families ----

  lemma {:induction false} FilterKeepsAll<T>(s: seq<T>, f: T -> bool)
    requires forall x :: x in s ==> f(x)
    ensures Filter(s, f) == s
  {
    if s != [] {
      FilterKeepsAll(s[..|s| - 1], f);
    }
  }

  lemma UpToKeepsAll(h: seq<Event>, asOf: int)
    requires NoneAfter(h, asOf)
    ensures Filter(h, UpTo(asOf)) == h
  {
    FilterKeepsAll(h, UpTo(asOf));
  }

  lemma CartSelected(h: seq<Event>, seg: Segment, asOf: int)
    requires h != [] && NoneAfter(h, asOf) && seg.family.CartAbandonDays?
    ensures Selected(h, seg, asOf) <==>
            CartOpen(h) && SecondsBetween(LastOf(h, AddToCart), asOf) >= seg.minDays * DAY_SEC
  {
    UpToKeepsAll(h, asOf);
  }

  lemma ChurnSelected(h: seq<Event>, seg: Segment, asOf: int)
    requires h != [] && NoneAfter(h, asOf) && seg.family.ChurnRiskDays?
    ensures Selected(h, seg, asOf) <==>
            HasPurchased(h) && SecondsBetween(LatestOf(h), asOf) >= seg.minDays * DAY_SEC
  {
    UpToKeepsAll(h, asOf);
  }

  /** Elapsed milliseconds reach a whole number of days no sooner than elapsed clock seconds do. */
  lemma ElapsedDays(from: int, asOf: int, days: int)
    ensures asOf - from >= days * DAY_MS ==> SecondsBetween(from, asOf) >= days * DAY_SEC
    ensures SecondsBetween(from, asOf) >= days * DAY_SEC && asOf - from < days * DAY_MS <==>
            WithinTheSecond(from, asOf, days)
  {
  }

  /** Cart abandonment: the engine subtracts milliseconds, dateDiff counts
      second boundaries, and that is the only difference. */
  lemma CartFamilyExact(ps: ProfileState, h: seq<Event>, seg: Segment, asOf: int)
    requires Represents(ps, h)
    requires h != [] && WellFormed(h) && NoneAfter(h, asOf) && seg.family.CartAbandonDays?
    ensures Matches(ps, seg, asOf) ==> Selected(h, seg, asOf)
    ensures (Matches(ps, seg, asOf) <==> Selected(h, seg, asOf)) <==> EdgeClear(h, seg, asOf)
  {
    CartSelected(h, seg, asOf);
    ElapsedDays(LastOf(h, AddToCart), asOf, seg.minDays);
    LastOfSnoc(h, AddToCart);
    LastOfSnoc(h, Purchase);
  }

  lemma ChurnFamilyExact(ps: ProfileState, h: seq<Event>, seg: Segment, asOf: int)
    requires Represents(ps, h)
    requires h != [] && WellFormed(h) && NoneAfter(h, asOf) && seg.family.ChurnRiskDays?
    ensures Matches(ps, seg, asOf) ==> Selected(h, seg, asOf)
    ensures (Matches(ps, seg, asOf) <==> Selected(h, seg, asOf)) <==> EdgeClear(h, seg, asOf)
  {
    ChurnSelected(h, seg, asOf);
    ElapsedDays(LatestOf(h), asOf, seg.minDays);
    LatestIsLast(h);
  }

  lemma NeverPurchasedAgrees(ps: ProfileState, h: seq<Event>, seg: Segment, asOf: int)
    requires Represents(ps, h)
    requires h != [] && WellFormed(h) && NoneAfter(h, asOf) && seg.family.NeverPurchased?
    ensures Matches(ps, seg, asOf) <==> Selected(h, seg, asOf)
  {
    UpToKeepsAll(h, asOf);
  }

  lemma RecentlyActiveAgrees(ps: ProfileState, h: seq<Event>, seg: Segment, asOf: int)
    requires Represents(ps, h)
    requires h != [] && WellFormed(h) && NoneAfter(h, asOf) && seg.family.RecentlyActiveHours?
    ensures Matches(ps, seg, asOf) <==> Selected(h, seg, asOf)
  {
    LatestIsLast(h);
    var f := ActiveWithin(seg.minHours, asOf);
    FilterMember(h, f, h[|h| - 1]);
    if Filter(h, f) != [] {
      FilterMember(h, f, Filter(h, f)[0]);
    }
  }

  lemma CategoryViewAgrees(ps: ProfileState, h: seq<Event>, seg: Segment, asOf: int)
    requires Represents(ps, h)
    requires h != [] && WellFormed(h) && NoneAfter(h, asOf) && seg.family.CategoryViewMin? && Sane(seg)
    ensures Matches(ps, seg, asOf) <==> Selected(h, seg, asOf)
  {
    FilterAgrees(h, ViewOf(seg.category), ViewedCategory(seg.category, asOf));
    if seg.category == "" {
      NoBlankView(h);
    }
  }

  lemma NoBlankView(h: seq<Event>)
    requires ViewsCategorised(h)
    ensures Filter(h, ViewOf("")) == []
  {
    var blank := Filter(h, ViewOf(""));
    if blank != [] {
      FilterMember(h, ViewOf(""), blank[0]);
    }
  }

  lemma SizeWithout(all: set<string>, x: string)
    ensures |all| == |all - {x}| + if x in all then 1 else 0
  {
    if x !in all {
      assert all - {x} == all;
    }
  }

  /** uniqExact counts a view without a category as one more category; the engine ignores it. */
  lemma BlankViewsCountOnce(ps: ProfileState, h: seq<Event>, asOf: int)
    requires Represents(ps, h)
    requires NoneAfter(h, asOf)
    ensures |Categories(Filter(h, ViewedAnything(asOf)))| ==
            |ps.catviews| + if "" in Categories(Filter(h, IsView())) then 1 else 0
  {
    FilterAgrees(h, IsView(), ViewedAnything(asOf));
    SizeWithout(Categories(Filter(h, IsView())), "");
    assert |ps.catviews| == |ps.catviews.Keys|;
  }

  ghost predicate CategoriesAgree(ps: ProfileState, h: seq<Event>, seg: Segment, n: int, asOf: int) {
    Matches(ps, seg.(minDistinct := n), asOf) <==> Selected(h, seg.(minDistinct := n), asOf)
  }

  lemma CategoriesAt(ps: ProfileState, h: seq<Event>, seg: Segment, n: int, asOf: int)
    requires seg.family.MultiCategoryMin? && n >= 1
    ensures CategoriesAgree(ps, h, seg, n, asOf) <==>
            (|ps.catviews| >= n <==> |Categories(Filter(h, ViewedAnything(asOf)))| >= n)
  {
    var views := Filter(h, ViewedAnything(asOf));
    assert views == [] ==> Categories(views) == {};
  }

  /** Distinct categories agree at every threshold exactly when no view lacks a category. */
  lemma MultiCategoryExact(ps: ProfileState, h: seq<Event>, seg: Segment, asOf: int)
    requires Represents(ps, h) && NoneAfter(h, asOf) && seg.family.MultiCategoryMin?
    ensures (forall n :: n >= 1 ==> CategoriesAgree(ps, h, seg, n, asOf)) <==> "" !in Categories(Filter(h, IsView()))
  {
    BlankViewsCountOnce(ps, h, asOf);
    if "" in Categories(Filter(h, IsView())) {
      CategoriesAt(ps, h, seg, |ps.catviews| + 1, asOf);
    } else {
      forall n | n >= 1
        ensures CategoriesAgree(ps, h, seg, n, asOf)
      {
        CategoriesAt(ps, h, seg, n, asOf);
      }
    }
  }

  lemma MultiCategoryAgrees(ps: ProfileState, h: seq<Event>, seg: Segment, asOf: int)
    requires Represents(ps, h)
    requires h != [] && WellFormed(h) && NoneAfter(h, asOf) && seg.family.MultiCategoryMin? && Sane(seg)
    ensures Matches(ps, seg, asOf) <==> Selected(h, seg, asOf)
  {
    BlankViewsCountOnce(ps, h, asOf);
    FilterAgrees(h, IsView(), ViewedAnything(asOf));
    var views := Filter(h, IsView());
    forall i | 0 <= i < |views|
      ensures views[i].category != ""
    {
      FilterMember(h, IsView(), views[i]);
      var j :| 0 <= j < |h| && h[j] == views[i];
    }
    if views == [] {
      assert Categories(views) == {};
    }
  }

  /** All eight families: on a clear history the two verdicts are the same. */
  lemma VerdictsAgree(ps: ProfileState, h: seq<Event>, seg: Segment, asOf: int)
    requires Represents(ps, h)
    requires h != [] && WellFormed(h) && NoneAfter(h, asOf) && Sane(seg) && EdgeClear(h, seg, asOf)
    ensures Matches(ps, seg, asOf) <==> Selected(h, seg, asOf)
  {
    match seg.family {
      case PurchaseCountMin => WindowCountsEqual(ps, h, seg, asOf);
      case PurchaseValueMin =>
        WindowSums(ps, h, seg, asOf);
        ClearWindowsAgree(h, seg.windowDays, asOf);
      case CartAbandonDays => CartFamilyExact(ps, h, seg, asOf);
      case CategoryViewMin => CategoryViewAgrees(ps, h, seg, asOf);
      case RecentlyActiveHours => RecentlyActiveAgrees(ps, h, seg, asOf);
      case NeverPurchased => NeverPurchasedAgrees(ps, h, seg, asOf);
      case ChurnRiskDays => ChurnFamilyExact(ps, h, seg, asOf);
      case MultiCategoryMin => MultiCategoryAgrees(ps, h, seg, asOf);
      case UnknownFamily(_) =>
        UnknownNeverSelected(ps, h, seg, asOf);
    }
  }

  lemma UnknownNeverSelected(ps: ProfileState, h: seq<Event>, seg: Segment, asOf: int)
    requires Represents(ps, h)
    requires seg.family.UnknownFamily?
    ensures !Selected(h, seg, asOf) && !Matches(ps, seg, asOf)
  {
  }

  // ---- Whole seconds ----

  ghost predicate WholeSeconds(h: seq<Event>) {
    forall i :: 0 <= i < |h| ==> h[i].timestampMs % 1000 == 0
  }

  /** A purchase exactly 90 days before the profile's latest one. */
  ghost predicate PurchaseOnTrim(h: seq<Event>) {
    exists i :: 0 <= i < |h| && h[i].kind.Purchase? && h[i].timestampMs == LastOf(h, Purchase) - 7_776_000_000
  }

  /** With whole-second clocks the only edge left is the trim's own. */
  lemma WholeSecondsAreClear(h: seq<Event>, seg: Segment, asOf: int)
    requires h != [] && WellFormed(h) && NoneAfter(h, asOf) && WholeSeconds(h) && asOf % 1000 == 0
    requires !PurchaseOnTrim(h)
    ensures EdgeClear(h, seg, asOf)
  {
    WholeSecondMaxima(h);
    forall i | 0 <= i < |h| && OnEdge(h[i], seg.windowDays, asOf)
      ensures h[i].timestampMs < asOf - seg.windowDays * 86_400_000 <==> TrimTouchesWindow(h, seg.windowDays, asOf)
    {
      assert h[i].timestampMs % 1000 == 0;
    }
  }

  lemma WholeSecondMaxima(h: seq<Event>)
    requires h != [] && WholeSeconds(h)
    ensures LastOf(h, Purchase) % 1000 == LastOf(h, AddToCart) % 1000 == LatestOf(h) % 1000 == 0
  {
    MaxByIsMaximum(h, TimestampIf(Purchase));
    MaxByIsMaximum(h, TimestampIf(AddToCart));
    MaxByIsMaximum(h, Timestamp());
    assert forall e :: e in h ==> e.timestampMs % 1000 == 0;
  }
}
