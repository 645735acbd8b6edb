/** internal/segment/recompute.go: one aggregate query a segment over the whole
    log, as a row filter, a grouping by profile, and a group condition. */
module FullRecompute {
  import opened Events
  import opened Sequences

  datatype Result<+T> = Ok(value: T) | Err(message: string)

  // ---- WHERE ----

  function PurchasedWithin(days: int, asOf: int): Event -> bool {
    (e: Event) => e.kind.Purchase? && e.timestampMs <= asOf && e.timestampMs >= asOf - days * DAY_MS
  }

  function UpTo(asOf: int): Event -> bool { (e: Event) => e.timestampMs <= asOf }

  function ViewedCategory(category: string, asOf: int): Event -> bool {
    (e: Event) => e.kind.PageView? && e.category == category && e.timestampMs <= asOf
  }

  function ActiveWithin(hours: int, asOf: int): Event -> bool {
    (e: Event) => e.timestampMs <= asOf && e.timestampMs >= asOf - hours * HOUR_MS
  }

  function ViewedAnything(asOf: int): Event -> bool {
    (e: Event) => e.kind.PageView? && e.timestampMs <= asOf
  }

  function Where(seg: Segment, asOf: int): Event -> bool {
    match seg.family
    case PurchaseCountMin => PurchasedWithin(seg.windowDays, asOf)
    case PurchaseValueMin => PurchasedWithin(seg.windowDays, asOf)
    case CategoryViewMin => ViewedCategory(seg.category, asOf)
    case RecentlyActiveHours => ActiveWithin(seg.minHours, asOf)
    case MultiCategoryMin => ViewedAnything(asOf)
    case _ => UpTo(asOf)
  }

  // ---- HAVING ----

  function Price(): Event -> int { (e: Event) => e.priceCents }

  function Timestamp(): Event -> int { (e: Event) => e.timestampMs }

  /** if(event_type = kind, timestamp, epoch). */
  function TimestampIf(kind: Kind): Event -> int { (e: Event) => if e.kind == kind then e.timestampMs else 0 }

  function OfKind(kind: Kind): Event -> bool { (e: Event) => e.kind == kind }

  function Categories(rows: seq<Event>): set<string> { set i | 0 <= i < |rows| :: rows[i].category }

  /** dateDiff('second', from, to) counts the second boundaries between the two. */
  function SecondsBetween(from: int, to: int): int { Sec(to) - Sec(from) }

  predicate Having(seg: Segment, asOf: int, rows: seq<Event>)
    requires rows != []
  {
    match seg.family
    case PurchaseCountMin => |rows| >= seg.minCount
    case PurchaseValueMin => SumBy(rows, Price()) >= seg.minValueCents
    case CartAbandonDays =>
      && MaxBy(rows, TimestampIf(AddToCart)) > MaxBy(rows, TimestampIf(Purchase))
      && SecondsBetween(MaxBy(rows, TimestampIf(AddToCart)), asOf) >= seg.minDays * DAY_SEC
    case CategoryViewMin => |rows| >= seg.minCount
    case RecentlyActiveHours => true
    case NeverPurchased => |Filter(rows, OfKind(Purchase))| == 0
    case ChurnRiskDays =>
      && |Filter(rows, OfKind(Purchase))| >= 1
      && SecondsBetween(MaxBy(rows, Timestamp()), asOf) >= seg.minDays * DAY_SEC
    case MultiCategoryMin => |Categories(rows)| >= seg.minDistinct
    case UnknownFamily(_) => false
  }

  function GroupKeys(rows: seq<Event>): set<string> { set i | 0 <= i < |rows| :: rows[i].profileId }

  function Recompute(log: seq<Event>, seg: Segment, asOf: int): Result<set<string>> {
    match seg.family
    case UnknownFamily(name) => Err("unknown family " + name)
    case _ =>
      var rows := Filter(log, Where(seg, asOf));
      Ok(set p | p in GroupKeys(rows) && History(rows, p) != [] && Having(seg, asOf, History(rows, p)))
  }

  /** The query's verdict on one profile, from that profile's events alone. */
  predicate Selected(h: seq<Event>, seg: Segment, asOf: int) {
    var rows := Filter(h, Where(seg, asOf));
    rows != [] && Having(seg, asOf, rows)
  }

  lemma GroupKeysAreProfiles(rows: seq<Event>, p: string)
    ensures p in GroupKeys(rows) <==> History(rows, p) != []
  {
    if p in GroupKeys(rows) {
      var i :| 0 <= i < |rows| && rows[i].profileId == p;
      FilterMember(rows, OfProfile(p), rows[i]);
    }
    if History(rows, p) != [] {
      FilterMember(rows, OfProfile(p), History(rows, p)[0]);
    }
  }

  /** Grouping after filtering decides each profile on its own history. */
  lemma RecomputeByProfile(log: seq<Event>, seg: Segment, asOf: int, p: string)
    requires !seg.family.UnknownFamily?
    ensures p in Recompute(log, seg, asOf).value <==> Selected(History(log, p), seg, asOf)
  {
    var rows := Filter(log, Where(seg, asOf));
    GroupKeysAreProfiles(rows, p);
    FilterCommutes(log, Where(seg, asOf), OfProfile(p));
  }

  lemma HavingPermutation(seg: Segment, asOf: int, r: seq<Event>, s: seq<Event>)
    requires r != [] && s != [] && SamePermutation(r, s)
    ensures Having(seg, asOf, r) == Having(seg, asOf, s)
  {
    assert |r| == |multiset(r)| == |multiset(s)| == |s|;
    SumByPermutation(r, s, Price());
    MaxByPermutation(r, s, TimestampIf(AddToCart));
    MaxByPermutation(r, s, TimestampIf(Purchase));
    MaxByPermutation(r, s, Timestamp());
    FilterPermutation(r, s, OfKind(Purchase));
    assert |Filter(r, OfKind(Purchase))| == |multiset(Filter(r, OfKind(Purchase)))| == |Filter(s, OfKind(Purchase))|;
    CategoriesPermutation(r, s);
  }

  lemma CategoriesPermutation(r: seq<Event>, s: seq<Event>)
    requires SamePermutation(r, s)
    ensures Categories(r) == Categories(s)
  {
    forall c
      ensures c in Categories(r) <==> c in Categories(s)
    {
      if c in Categories(r) {
        var i :| 0 <= i < |r| && r[i].category == c;
        assert r[i] in multiset(s);
      }
      if c in Categories(s) {
        var i :| 0 <= i < |s| && s[i].category == c;
        assert s[i] in multiset(r);
      }
    }
  }

  /** The answer does not depend on the order in which rows were inserted. */
  lemma RecomputePermutation(log: seq<Event>, other: seq<Event>, seg: Segment, asOf: int)
    requires SamePermutation(log, other)
    ensures Recompute(log, seg, asOf) == Recompute(other, seg, asOf)
  {
    if !seg.family.UnknownFamily? {
      forall p
        ensures p in Recompute(log, seg, asOf).value <==> p in Recompute(other, seg, asOf).value
      {
        RecomputeByProfile(log, seg, asOf, p);
        RecomputeByProfile(other, seg, asOf, p);
        FilterPermutation(log, other, OfProfile(p));
        var r, s := Filter(History(log, p), Where(seg, asOf)), Filter(History(other, p), Where(seg, asOf));
        FilterPermutation(History(log, p), History(other, p), Where(seg, asOf));
        assert |r| == |multiset(r)| == |multiset(s)| == |s|;
        if r != [] {
          HavingPermutation(seg, asOf, r, s);
        }
      }
      assert Recompute(log, seg, asOf).value == Recompute(other, seg, asOf).value;
    }
  }

  // ---- What the queries mean ----

  /** Rows later than asOf are not looked at. */
  lemma RecomputeCutAtAsOf(log: seq<Event>, seg: Segment, asOf: int)
    ensures Recompute(log, seg, asOf) == Recompute(Filter(log, (e: Event) => e.timestampMs <= asOf), seg, asOf)
  {
    FilterNarrows(log, (e: Event) => e.timestampMs <= asOf, Where(seg, asOf));
  }

  predicate BoughtWithin(e: Event, days: int, asOf: int) {
    e.kind.Purchase? && asOf - days * 86_400_000 <= e.timestampMs <= asOf
  }

  predicate ViewedBy(e: Event, asOf: int) { e.kind.PageView? && e.timestampMs <= asOf }

  function BoughtAt(h: seq<Event>, days: int, asOf: int): set<int> {
    set i | 0 <= i < |h| && BoughtWithin(h[i], days, asOf)
  }

  function ViewedAt(h: seq<Event>, category: string, asOf: int): set<int> {
    set i | 0 <= i < |h| && ViewedBy(h[i], asOf) && h[i].category == category
  }

  /** The eight queries, said of one profile's events without filters, maxima or units. */
  ghost predicate QuerySelects(h: seq<Event>, seg: Segment, asOf: int) {
    match seg.family
    case PurchaseCountMin =>
      |BoughtAt(h, seg.windowDays, asOf)| >= 1 && |BoughtAt(h, seg.windowDays, asOf)| >= seg.minCount
    case PurchaseValueMin =>
      && (exists i :: 0 <= i < |h| && BoughtWithin(h[i], seg.windowDays, asOf))
      && SumBy(h, (e: Event) => if BoughtWithin(e, seg.windowDays, asOf) then e.priceCents else 0) >= seg.minValueCents
    case CartAbandonDays =>
      exists i :: 0 <= i < |h| && LeftAt(h, i, asOf) &&
                  asOf / 1000 - h[i].timestampMs / 1000 >= seg.minDays * 86_400
    case CategoryViewMin =>
      |ViewedAt(h, seg.category, asOf)| >= 1 && |ViewedAt(h, seg.category, asOf)| >= seg.minCount
    case RecentlyActiveHours =>
      exists i :: 0 <= i < |h| && asOf - seg.minHours * 3_600_000 <= h[i].timestampMs <= asOf
    case NeverPurchased =>
      && (exists i :: 0 <= i < |h| && h[i].timestampMs <= asOf)
      && (forall i :: 0 <= i < |h| && h[i].timestampMs <= asOf ==> !h[i].kind.Purchase?)
    case ChurnRiskDays =>
      && (exists i :: 0 <= i < |h| && h[i].kind.Purchase? && h[i].timestampMs <= asOf)
      && (forall i :: 0 <= i < |h| && h[i].timestampMs <= asOf ==>
            asOf / 1000 - h[i].timestampMs / 1000 >= seg.minDays * 86_400)
    case MultiCategoryMin =>
      && (exists i :: 0 <= i < |h| && ViewedBy(h[i], asOf))
      && |set i | 0 <= i < |h| && ViewedBy(h[i], asOf) :: h[i].category| >= seg.minDistinct
    case UnknownFamily(_) => false
  }

  /** A cart addition with none later, and every purchase before it. */
  ghost predicate LeftAt(h: seq<Event>, k: nat, asOf: int)
    requires k < |h|
  {
    && h[k].kind.AddToCart? && h[k].timestampMs <= asOf
    && forall i :: 0 <= i < |h| && h[i].timestampMs <= asOf ==>
         (h[i].kind.AddToCart? ==> h[i].timestampMs <= h[k].timestampMs) &&
         (h[i].kind.Purchase? ==> h[i].timestampMs < h[k].timestampMs)
  }

  lemma SomeRow(h: seq<Event>, f: Event -> bool)
    ensures Filter(h, f) != [] <==> exists i :: 0 <= i < |h| && f(h[i])
  {
    if Filter(h, f) != [] {
      FilterMember(h, f, Filter(h, f)[0]);
    }
    if i :| 0 <= i < |h| && f(h[i]) {
      FilterMember(h, f, h[i]);
    }
  }

  lemma CountMeaning(h: seq<Event>, seg: Segment, asOf: int)
    requires seg.family.PurchaseCountMin?
    ensures Selected(h, seg, asOf) <==> QuerySelects(h, seg, asOf)
  {
    var f := PurchasedWithin(seg.windowDays, asOf);
    FilterPositions(h, f);
    assert Positions(h, f) == BoughtAt(h, seg.windowDays, asOf);
    assert |Filter(h, f)| >= 1 <==> Filter(h, f) != [];
  }

  lemma ViewsMeaning(h: seq<Event>, seg: Segment, asOf: int)
    requires seg.family.CategoryViewMin?
    ensures Selected(h, seg, asOf) <==> QuerySelects(h, seg, asOf)
  {
    var f := ViewedCategory(seg.category, asOf);
    FilterPositions(h, f);
    assert Positions(h, f) == ViewedAt(h, seg.category, asOf);
    assert |Filter(h, f)| >= 1 <==> Filter(h, f) != [];
  }

  lemma ValueMeaning(h: seq<Event>, seg: Segment, asOf: int)
    requires seg.family.PurchaseValueMin?
    ensures Selected(h, seg, asOf) <==> QuerySelects(h, seg, asOf)
  {
    var f := PurchasedWithin(seg.windowDays, asOf);
    var w := (e: Event) => if BoughtWithin(e, seg.windowDays, asOf) then e.priceCents else 0;
    SomeRow(h, f);
    FilterSum(h, f, Price());
    SumByAgrees(h, Masked(f, Price()), w);
    assert forall e: Event :: f(e) == BoughtWithin(e, seg.windowDays, asOf);
  }

  /** A maximum over the rows up to asOf, as a statement about the events. */
  lemma MaxUpTo(h: seq<Event>, f: Event -> int, asOf: int)
    requires Filter(h, UpTo(asOf)) != []
    ensures forall i :: 0 <= i < |h| && h[i].timestampMs <= asOf ==> f(h[i]) <= MaxBy(Filter(h, UpTo(asOf)), f)
    ensures exists i :: 0 <= i < |h| && h[i].timestampMs <= asOf && f(h[i]) == MaxBy(Filter(h, UpTo(asOf)), f)
  {
    var rows := Filter(h, UpTo(asOf));
    MaxByIsMaximum(rows, f);
    forall i | 0 <= i < |h| && h[i].timestampMs <= asOf
      ensures f(h[i]) <= MaxBy(rows, f)
    {
      FilterMember(h, UpTo(asOf), h[i]);
    }
    var e :| e in rows && f(e) == MaxBy(rows, f);
    FilterMember(h, UpTo(asOf), e);
    var k :| 0 <= k < |h| && h[k] == e;
  }

  lemma CartMeaning(h: seq<Event>, seg: Segment, asOf: int)
    requires seg.family.CartAbandonDays? && Positive(h)
    ensures Selected(h, seg, asOf) <==> QuerySelects(h, seg, asOf)
  {
    SomeRow(h, UpTo(asOf));
    if Filter(h, UpTo(asOf)) != [] {
      MaxUpTo(h, TimestampIf(AddToCart), asOf);
      MaxUpTo(h, TimestampIf(Purchase), asOf);
      LastCart(h, MaxBy(Filter(h, UpTo(asOf)), TimestampIf(AddToCart)),
               MaxBy(Filter(h, UpTo(asOf)), TimestampIf(Purchase)), asOf);
    }
  }

  lemma LastCart(h: seq<Event>, cart: int, bought: int, asOf: int)
    requires Positive(h)
    requires forall i :: 0 <= i < |h| && h[i].timestampMs <= asOf ==>
               TimestampIf(AddToCart)(h[i]) <= cart && TimestampIf(Purchase)(h[i]) <= bought
    requires exists i :: 0 <= i < |h| && h[i].timestampMs <= asOf && TimestampIf(AddToCart)(h[i]) == cart
    requires exists i :: 0 <= i < |h| && h[i].timestampMs <= asOf && TimestampIf(Purchase)(h[i]) == bought
    ensures cart > bought <==>
            exists i :: 0 <= i < |h| && LeftAt(h, i, asOf)
    ensures forall i :: 0 <= i < |h| && LeftAt(h, i, asOf) ==> h[i].timestampMs == cart
  {
    var c :| 0 <= c < |h| && h[c].timestampMs <= asOf && TimestampIf(AddToCart)(h[c]) == cart;
    var b :| 0 <= b < |h| && h[b].timestampMs <= asOf && TimestampIf(Purchase)(h[b]) == bought;
    if cart > bought {
      assert h[c].kind.AddToCart?;
      forall i | 0 <= i < |h| && h[i].timestampMs <= asOf
        ensures (h[i].kind.AddToCart? ==> h[i].timestampMs <= cart) && (h[i].kind.Purchase? ==> h[i].timestampMs < cart)
      {
        assert TimestampIf(AddToCart)(h[i]) <= cart && TimestampIf(Purchase)(h[i]) <= bought;
      }
      assert LeftAt(h, c, asOf);
    }
    forall i | 0 <= i < |h| && LeftAt(h, i, asOf)
      ensures h[i].timestampMs == cart && cart > bought
    {
      assert TimestampIf(AddToCart)(h[i]) <= cart;
      assert h[c].kind.AddToCart? ==> h[c].timestampMs <= h[i].timestampMs;
      assert h[b].kind.Purchase? ==> h[b].timestampMs < h[i].timestampMs;
    }
  }

  lemma PurchaseRows(h: seq<Event>, asOf: int)
    ensures |Filter(Filter(h, UpTo(asOf)), OfKind(Purchase))| == 0 <==>
            forall i :: 0 <= i < |h| && h[i].timestampMs <= asOf ==> !h[i].kind.Purchase?
  {
    var rows := Filter(h, UpTo(asOf));
    SomeRow(rows, OfKind(Purchase));
    if j :| 0 <= j < |rows| && OfKind(Purchase)(rows[j]) {
      FilterMember(h, UpTo(asOf), rows[j]);
    }
    if i :| 0 <= i < |h| && h[i].timestampMs <= asOf && h[i].kind.Purchase? {
      FilterMember(h, UpTo(asOf), h[i]);
      var j :| 0 <= j < |rows| && rows[j] == h[i];
    }
  }

  lemma ChurnMeaning(h: seq<Event>, seg: Segment, asOf: int)
    requires seg.family.ChurnRiskDays? || seg.family.NeverPurchased?
    ensures Selected(h, seg, asOf) <==> QuerySelects(h, seg, asOf)
  {
    SomeRow(h, UpTo(asOf));
    PurchaseRows(h, asOf);
    if Filter(h, UpTo(asOf)) != [] {
      MaxUpTo(h, Timestamp(), asOf);
    }
  }

  lemma CategoriesMeaning(h: seq<Event>, seg: Segment, asOf: int)
    requires seg.family.MultiCategoryMin?
    ensures Selected(h, seg, asOf) <==> QuerySelects(h, seg, asOf)
  {
    var f := ViewedAnything(asOf);
    var rows := Filter(h, f);
    SomeRow(h, f);
    forall c
      ensures c in Categories(rows) <==> c in (set i | 0 <= i < |h| && ViewedBy(h[i], asOf) :: h[i].category)
    {
      if j :| 0 <= j < |rows| && rows[j].category == c {
        FilterMember(h, f, rows[j]);
      }
      if i :| 0 <= i < |h| && ViewedBy(h[i], asOf) && h[i].category == c {
        FilterMember(h, f, h[i]);
        var j :| 0 <= j < |rows| && rows[j] == h[i];
        assert rows[j].category == c;
      }
    }
    assert Categories(rows) == set i | 0 <= i < |h| && ViewedBy(h[i], asOf) :: h[i].category;
  }

  /** Each query selects a profile exactly when its events say so. */
  lemma SelectedMeans(h: seq<Event>, seg: Segment, asOf: int)
    requires Positive(h)
    ensures Selected(h, seg, asOf) <==> QuerySelects(h, seg, asOf)
  {
    match seg.family {
      case PurchaseCountMin => CountMeaning(h, seg, asOf);
      case CategoryViewMin => ViewsMeaning(h, seg, asOf);
      case PurchaseValueMin => ValueMeaning(h, seg, asOf);
      case CartAbandonDays => CartMeaning(h, seg, asOf);
      case RecentlyActiveHours => SomeRow(h, ActiveWithin(seg.minHours, asOf));
      case NeverPurchased => ChurnMeaning(h, seg, asOf);
      case ChurnRiskDays => ChurnMeaning(h, seg, asOf);
      case MultiCategoryMin => CategoriesMeaning(h, seg, asOf);
      case UnknownFamily(_) =>
    }
  }
}
