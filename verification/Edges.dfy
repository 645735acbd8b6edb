/** Inputs on which the incremental membership and the recompute differ, one for
    each kind of edge the agreement theorems exclude. */
module Edges {
  import opened Agreement
  import opened Events
  import opened FullRecompute
  import opened Incremental
  import opened ProfileFold
  import opened Redis
  import opened Sequences

  function Bought(id: string, ts: int, cents: int): Event { Event(id, "p", Purchase, ts, "", cents) }

  function CountSegment(n: int, days: int): Segment { Segment("count", PurchaseCountMin, n, days, "", 0, 0, 0, 0) }

  lemma TwoEvents(a: Event, b: Event, f: Event -> bool)
    ensures Filter([a, b], f) == (if f(a) then [a] else []) + (if f(b) then [b] else [])
  {
    assert [a, b][..1] == [a];
    FilterSnoc([], a, f);
    assert [] + [a] == [a];
    FilterSnoc([a], b, f);
    assert [a] + [b] == [a, b];
  }

  lemma TwoPurchases(a: Event, b: Event)
    requires a.kind.Purchase? && b.kind.Purchase? && 0 < a.timestampMs <= b.timestampMs
    ensures LastOf([a, b], Purchase) == b.timestampMs
  {
    MaxByIsMaximum([a, b], TimestampIf(Purchase));
    assert a in [a, b] && b in [a, b];
  }

  /** Whole seconds throughout, as of the latest event: a purchase exactly 90 days
      before the latest one is trimmed, and the 90-day count is one short. */
  lemma TrimForgetsTheNinetiethDay() returns (h: seq<Event>, asOf: int)
    ensures WellFormed(h) && NoneAfter(h, asOf) && WholeSeconds(h) && asOf == LatestOf(h)
    ensures !Matches(Fold(h), CountSegment(2, 90), asOf)
    ensures Selected(h, CountSegment(2, 90), asOf)
  {
    var a, b := Bought("a", 1000, 500), Bought("b", 1000 + 7_776_000_000, 500);
    h, asOf := [a, b], b.timestampMs;
    FoldRepresents(h);
    LatestIsLast(h);
    TwoPurchases(a, b);
    WindowCountsEqual(Fold(h), h, CountSegment(2, 90), asOf);
    TwoEvents(a, b, EngineWindow(h, 90, asOf));
    TwoEvents(a, b, PurchasedWithin(90, asOf));
  }

  /** Milliseconds: a purchase half a second too old for a 7-day window shares
      the clock second of its edge, and the engine still counts it. */
  lemma EdgeSecondIsCounted() returns (h: seq<Event>, asOf: int)
    ensures WellFormed(h) && NoneAfter(h, asOf) && asOf == LatestOf(h)
    ensures Matches(Fold(h), CountSegment(2, 7), asOf)
    ensures !Selected(h, CountSegment(2, 7), asOf)
  {
    var a, b := Bought("a", 1000, 500), Bought("b", 1500 + 604_800_000, 500);
    h, asOf := [a, b], b.timestampMs;
    FoldRepresents(h);
    LatestIsLast(h);
    TwoPurchases(a, b);
    WindowCountsEqual(Fold(h), h, CountSegment(2, 7), asOf);
    TwoEvents(a, b, EngineWindow(h, 7, asOf));
    TwoEvents(a, b, PurchasedWithin(7, asOf));
  }

  /** A cart 86 399.5 seconds old has crossed 86 400 second boundaries. */
  lemma CartWithinTheSecond() returns (h: seq<Event>, seg: Segment, asOf: int)
    ensures WellFormed(h) && NoneAfter(h, asOf) && seg.family.CartAbandonDays?
    ensures !Matches(Fold(h), seg, asOf) && Selected(h, seg, asOf)
  {
    var cart := Event("a", "p", AddToCart, 1500, "", 500);
    h, asOf, seg := [cart], 86_401_000, Segment("cart", CartAbandonDays, 0, 0, "", 0, 0, 1, 0);
    FoldRepresents(h);
    CartSelected(h, seg, asOf);
    assert LastOf(h, AddToCart) == 1500 && LastOf(h, Purchase) == 0;
  }

  /** Any purchase with a bar in its event id: the price is read from the wrong
      half of the member and counts as nothing, so a value segment the purchase
      alone should reach is missed. */
  lemma BarredIdLosesItsPrice(e: Event, seg: Segment)
    requires e.kind.Purchase? && e.timestampMs > 0 && '|' in e.eventId
    requires seg.family.PurchaseValueMin? && Sane(seg) && e.priceCents >= seg.minValueCents
    ensures !Matches(Fold([e]), seg, e.timestampMs) && Selected([e], seg, e.timestampMs)
  {
    var asOf := e.timestampMs;
    var min, max := Sec(asOf - seg.windowDays * DAY_MS), Sec(asOf);
    OneValueRead(e, min, max);
    OneEvent(e, PurchasedWithin(seg.windowDays, asOf), Price());
  }

  lemma OneValueRead(e: Event, min: int, max: int)
    requires e.kind.Purchase? && e.timestampMs > 0 && '|' in e.eventId
    ensures SumOver(ZRange(Fold([e]).purch, min, max), CentsOf()) == 0
  {
    WindowReads([e], min, max);
    var f := KeptWithin(LastOf([e], Purchase), min, max);
    OneEvent(e, f, Credited());
  }

  lemma OneEvent(e: Event, f: Event -> bool, w: Event -> int)
    ensures Filter([e], f) == if f(e) then [e] else []
    ensures SumBy([e], w) == w(e)
  {
    assert [e][..0] == [];
  }

  const CART := Event("a", "p", AddToCart, 1000, "", 500)

  lemma CartOnly()
    ensures Fold([CART]).catviews == map[] && Fold([CART]).purch == map[]
  {
    assert [CART][..0] == [];
    assert Fold([CART]) == Update(Fold([]), CART);
  }

  lemma CartNotARow(seg: Segment)
    requires !Sane(seg)
    ensures !Selected([CART], seg, 1000)
  {
    OneEvent(CART, Where(seg, 1000), Price());
  }

  /** A profile that only filled a cart has every count at 0: the engine lists it
      at a threshold of 0, and the query has no row to group. */
  lemma LowThresholdDiffers(seg: Segment) returns (h: seq<Event>, asOf: int)
    requires !Sane(seg)
    requires seg.family.PurchaseCountMin? || seg.family.PurchaseValueMin? ==> 0 <= seg.windowDays <= 90
    ensures h != [] && WellFormed(h) && NoneAfter(h, asOf) && EdgeClear(h, seg, asOf)
    ensures Matches(Fold(h), seg, asOf) && !Selected(h, seg, asOf)
  {
    h, asOf := [CART], 1000;
    CartOnly();
    CartNotARow(seg);
    assert seg.family.PurchaseCountMin? || seg.family.PurchaseValueMin? ==> WindowMembers(Fold(h), seg, asOf) == {};
  }

  /** A segment whose window the trim leaves whole agrees on every clear history
      exactly when its threshold is at least 1. */
  lemma SaneExactly(seg: Segment)
    requires seg.family.PurchaseCountMin? || seg.family.PurchaseValueMin? ==> 0 <= seg.windowDays <= 90
    ensures Sane(seg) <==>
            forall h, asOf :: h != [] && WellFormed(h) && NoneAfter(h, asOf) && EdgeClear(h, seg, asOf) ==>
              (Matches(Fold(h), seg, asOf) <==> Selected(h, seg, asOf))
  {
    if Sane(seg) {
      forall h, asOf | h != [] && WellFormed(h) && NoneAfter(h, asOf) && EdgeClear(h, seg, asOf)
        ensures Matches(Fold(h), seg, asOf) <==> Selected(h, seg, asOf)
      {
        FoldRepresents(h);
        VerdictsAgree(Fold(h), h, seg, asOf);
      }
    } else {
      var h, asOf := LowThresholdDiffers(seg);
    }
  }
}
