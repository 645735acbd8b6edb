/** internal/segment/definitions.go: the test segments, built by nested loops
    over the parameter grid, and that they meet what the engine's theorems ask
    of a segment list. */
module Definitions {
  import opened Events
  import opened Incremental
  import opened Members

  const COUNTS: seq<nat> := [1, 2, 3, 5]
  const COUNT_WINDOWS: seq<nat> := [7, 30, 90]
  const CART_DAYS: seq<nat> := [1, 3, 7, 14, 30]
  const CATEGORIES: seq<string> := ["electronics", "apparel", "home", "beauty", "sports", "books", "toys", "grocery"]
  const VIEW_COUNTS: seq<nat> := [3, 5]
  const VALUES: seq<nat> := [100, 250, 500]
  const VALUE_WINDOWS: seq<nat> := [30, 90]
  const ACTIVE_HOURS: seq<nat> := [1, 6, 24, 72]
  const CHURN_DAYS: seq<nat> := [14, 30, 60]
  const DISTINCT: seq<nat> := [2, 3, 4]

  function CountSegment(n: nat, w: nat): Segment {
    Segment("purchase_count_min_" + Decimal(n) + "_" + Decimal(w) + "d", PurchaseCountMin, n, w, "", 0, 0, 0, 0)
  }

  function CartSegment(d: nat): Segment {
    Segment("cart_abandon_" + Decimal(d) + "d", CartAbandonDays, 0, 0, "", 0, 0, d, 0)
  }

  function ViewSegment(c: string, n: nat): Segment {
    Segment("category_view_min_" + c + "_" + Decimal(n), CategoryViewMin, n, 0, c, 0, 0, 0, 0)
  }

  /** The threshold is in whole units of the price, kept here in cents. */
  function ValueSegment(t: nat, w: nat): Segment {
    Segment("purchase_value_min_" + Decimal(t) + "_" + Decimal(w) + "d", PurchaseValueMin, 0, w, "", 100 * t, 0, 0, 0)
  }

  function ActiveSegment(h: nat): Segment {
    Segment("recently_active_" + Decimal(h) + "h", RecentlyActiveHours, 0, 0, "", 0, h, 0, 0)
  }

  function NeverSegment(): Segment { Segment("never_purchased", NeverPurchased, 0, 0, "", 0, 0, 0, 0) }

  function ChurnSegment(d: nat): Segment {
    Segment("churn_risk_" + Decimal(d) + "d", ChurnRiskDays, 0, 0, "", 0, 0, d, 0)
  }

  function DistinctSegment(k: nat): Segment {
    Segment("multi_category_shopper_min_" + Decimal(k), MultiCategoryMin, 0, 0, "", 0, 0, 0, k)
  }

  /** The k-th segment of the grid, in numbers. */
  function SegmentAt(k: nat): Segment
    requires k < 50
  {
    if k < 12 then CountSegment([1, 2, 3, 5][k / 3], [7, 30, 90][k % 3])
    else if k < 17 then CartSegment([1, 3, 7, 14, 30][k - 12])
    else if k < 33 then
      ViewSegment(["electronics", "apparel", "home", "beauty", "sports", "books", "toys", "grocery"][(k - 17) / 2],
                  [3, 5][(k - 17) % 2])
    else if k < 39 then ValueSegment([100, 250, 500][(k - 33) / 2], [30, 90][(k - 33) % 2])
    else if k < 43 then ActiveSegment([1, 6, 24, 72][k - 39])
    else if k == 43 then NeverSegment()
    else if k < 47 then ChurnSegment([14, 30, 60][k - 44])
    else DistinctSegment([2, 3, 4][k - 47])
  }

  /** The first segments of the grid, in order. */
  predicate Built(out: seq<Segment>, n: nat) {
    |out| == n <= 50 && forall k :: 0 <= k < n ==> out[k] == SegmentAt(k)
  }

  lemma BuildOne(out: seq<Segment>, n: nat, seg: Segment)
    requires Built(out, n) && n < 50 && seg == SegmentAt(n)
    ensures Built(out + [seg], n + 1)
  {
  }

  method GenerateTestSegments() returns (out: seq<Segment>)
    ensures Built(out, 50)
  {
    out := [];
    for i := 0 to |COUNTS|
      invariant Built(out, 3 * i)
    {
      for j := 0 to |COUNT_WINDOWS|
        invariant Built(out, 3 * i + j)
      {
        assert (3 * i + j) / 3 == i && (3 * i + j) % 3 == j;
        BuildOne(out, 3 * i + j, CountSegment(COUNTS[i], COUNT_WINDOWS[j]));
        out := out + [CountSegment(COUNTS[i], COUNT_WINDOWS[j])];
      }
    }
    out := AddDaysAndViews(out);
    out := AddValuesAndHours(out);
    BuildOne(out, 43, NeverSegment());
    out := out + [NeverSegment()];
    for i := 0 to |CHURN_DAYS|
      invariant Built(out, 44 + i)
    {
      BuildOne(out, 44 + i, ChurnSegment(CHURN_DAYS[i]));
      out := out + [ChurnSegment(CHURN_DAYS[i])];
    }
    for i := 0 to |DISTINCT|
      invariant Built(out, 47 + i)
    {
      BuildOne(out, 47 + i, DistinctSegment(DISTINCT[i]));
      out := out + [DistinctSegment(DISTINCT[i])];
    }
  }

  method AddDaysAndViews(before: seq<Segment>) returns (out: seq<Segment>)
    requires Built(before, 12)
    ensures Built(out, 33)
  {
    out := before;
    for i := 0 to |CART_DAYS|
      invariant Built(out, 12 + i)
    {
      BuildOne(out, 12 + i, CartSegment(CART_DAYS[i]));
      out := out + [CartSegment(CART_DAYS[i])];
    }
    for i := 0 to |CATEGORIES|
      invariant Built(out, 17 + 2 * i)
    {
      for j := 0 to |VIEW_COUNTS|
        invariant Built(out, 17 + 2 * i + j)
      {
        assert (2 * i + j) / 2 == i && (2 * i + j) % 2 == j;
        BuildOne(out, 17 + 2 * i + j, ViewSegment(CATEGORIES[i], VIEW_COUNTS[j]));
        out := out + [ViewSegment(CATEGORIES[i], VIEW_COUNTS[j])];
      }
    }
  }

  method AddValuesAndHours(before: seq<Segment>) returns (out: seq<Segment>)
    requires Built(before, 33)
    ensures Built(out, 43)
  {
    out := before;
    for i := 0 to |VALUES|
      invariant Built(out, 33 + 2 * i)
    {
      for j := 0 to |VALUE_WINDOWS|
        invariant Built(out, 33 + 2 * i + j)
      {
        assert (2 * i + j) / 2 == i && (2 * i + j) % 2 == j;
        BuildOne(out, 33 + 2 * i + j, ValueSegment(VALUES[i], VALUE_WINDOWS[j]));
        out := out + [ValueSegment(VALUES[i], VALUE_WINDOWS[j])];
      }
    }
    for i := 0 to |ACTIVE_HOURS|
      invariant Built(out, 39 + i)
    {
      BuildOne(out, 39 + i, ActiveSegment(ACTIVE_HOURS[i]));
      out := out + [ActiveSegment(ACTIVE_HOURS[i])];
    }
  }

  /** One entry of each family, spelled out. */
  lemma WindowedByExample()
    ensures SegmentAt(0) == Segment("purchase_count_min_1_7d", PurchaseCountMin, 1, 7, "", 0, 0, 0, 0)
    ensures SegmentAt(33) == Segment("purchase_value_min_100_30d", PurchaseValueMin, 0, 30, "", 10_000, 0, 0, 0)
  {
    assert Decimal(1) == "1" && Decimal(7) == "7";
    assert Decimal(3) == "3" && Decimal(30) == "30";
    assert Decimal(10) == "10" && Decimal(100) == "100";
  }

  lemma ElapsedByExample()
    ensures SegmentAt(16) == Segment("cart_abandon_30d", CartAbandonDays, 0, 0, "", 0, 0, 30, 0)
    ensures SegmentAt(42) == Segment("recently_active_72h", RecentlyActiveHours, 0, 0, "", 0, 72, 0, 0)
    ensures SegmentAt(44) == Segment("churn_risk_14d", ChurnRiskDays, 0, 0, "", 0, 0, 14, 0)
  {
    assert Decimal(3) == "3" && Decimal(7) == "7" && Decimal(1) == "1";
    assert Decimal(14) == "14" && Decimal(30) == "30" && Decimal(72) == "72";
  }

  lemma TimelessByExample()
    ensures SegmentAt(18) == Segment("category_view_min_electronics_5", CategoryViewMin, 5, 0, "electronics", 0, 0, 0, 0)
    ensures SegmentAt(43) == Segment("never_purchased", NeverPurchased, 0, 0, "", 0, 0, 0, 0)
    ensures SegmentAt(49) == Segment("multi_category_shopper_min_4", MultiCategoryMin, 0, 0, "", 0, 0, 0, 4)
  {
    assert Decimal(5) == "5" && Decimal(4) == "4";
  }

  // ---- What the engine's theorems ask of them ----

  /** A segment of some grid: its id is made of its parameters. */
  predicate OfGrid(seg: Segment) {
    match seg.family
    case PurchaseCountMin => seg.minCount >= 0 && seg.windowDays >= 0 && seg == CountSegment(seg.minCount, seg.windowDays)
    case CartAbandonDays => seg.minDays >= 0 && seg == CartSegment(seg.minDays)
    case CategoryViewMin => seg.minCount >= 0 && seg == ViewSegment(seg.category, seg.minCount)
    case PurchaseValueMin =>
      seg.minValueCents >= 0 && seg.windowDays >= 0 && seg == ValueSegment(seg.minValueCents / 100, seg.windowDays)
    case RecentlyActiveHours => seg.minHours >= 0 && seg == ActiveSegment(seg.minHours)
    case NeverPurchased => seg == NeverSegment()
    case ChurnRiskDays => seg.minDays >= 0 && seg == ChurnSegment(seg.minDays)
    case MultiCategoryMin => seg.minDistinct >= 0 && seg == DistinctSegment(seg.minDistinct)
    case UnknownFamily(_) => false
  }

  /** Four characters of an id tell its family. */
  lemma Marks(seg: Segment)
    requires OfGrid(seg)
    ensures |seg.id| > 9
    ensures match seg.family
            case PurchaseCountMin => seg.id[0] == 'p' && seg.id[9] == 'c'
            case CartAbandonDays => seg.id[0] == 'c' && seg.id[1] == 'a' && seg.id[2] == 'r'
            case CategoryViewMin => seg.id[0] == 'c' && seg.id[1] == 'a' && seg.id[2] == 't'
            case PurchaseValueMin => seg.id[0] == 'p' && seg.id[9] == 'v'
            case RecentlyActiveHours => seg.id[0] == 'r'
            case NeverPurchased => seg.id[0] == 'n'
            case ChurnRiskDays => seg.id[0] == 'c' && seg.id[1] == 'h'
            case MultiCategoryMin => seg.id[0] == 'm'
            case UnknownFamily(_) => true
  {
  }

  lemma FamilyFromId(a: Segment, b: Segment)
    requires OfGrid(a) && OfGrid(b) && a.id == b.id
    ensures a.family == b.family
  {
    Marks(a);
    Marks(b);
  }

  lemma DecimalInjective(n: nat, m: nat)
    requires Decimal(n) == Decimal(m)
    ensures n == m
  {
    DecimalRoundTrip(n);
    DecimalRoundTrip(m);
  }

  lemma SamePrefix(p: string, s: string, t: string)
    requires p + s == p + t
    ensures s == t
  {
    assert (p + s)[|p|..] == s && (p + t)[|p|..] == t;
  }

  lemma SameSuffix(s: string, t: string, p: string)
    requires s + p == t + p
    ensures s == t
  {
    assert |s| == |t|;
    assert (s + p)[..|s|] == s && (t + p)[..|t|] == t;
  }

  /** The first character that is not a digit ends the first number. */
  lemma TwoNumbers(n: nat, s: string, m: nat, t: string)
    requires Decimal(n) + "_" + s == Decimal(m) + "_" + t
    ensures n == m && s == t
  {
    var a, b := Decimal(n) + "_" + s, Decimal(m) + "_" + t;
    assert a[|Decimal(n)|] == '_' && b[|Decimal(m)|] == '_';
    assert forall i :: 0 <= i < |Decimal(n)| ==> a[i] == Decimal(n)[i];
    assert forall i :: 0 <= i < |Decimal(m)| ==> b[i] == Decimal(m)[i];
    assert |Decimal(n)| == |Decimal(m)|;
    assert a[..|Decimal(n)|] == Decimal(n) && b[..|Decimal(m)|] == Decimal(m);
    DecimalInjective(n, m);
    SamePrefix(Decimal(n) + "_", s, t);
  }

  /** The last character that is not a digit ends the category. */
  lemma NameAndNumber(c: string, n: nat, d: string, m: nat)
    requires c + "_" + Decimal(n) == d + "_" + Decimal(m)
    ensures c == d && n == m
  {
    var a, b := c + "_" + Decimal(n), d + "_" + Decimal(m);
    assert a[|c|] == '_' && b[|d|] == '_';
    assert forall i :: |c| < i < |a| ==> a[i] == Decimal(n)[i - |c| - 1];
    assert forall i :: |d| < i < |b| ==> b[i] == Decimal(m)[i - |d| - 1];
    assert |c| == |d|;
    assert a[..|c|] == c && b[..|d|] == d;
    SamePrefix(c + "_", Decimal(n), Decimal(m));
    DecimalInjective(n, m);
  }

  lemma Regroup(p: string, s: string, t: string)
    ensures p + s + "_" + t == p + (s + "_" + t)
  {
  }

  lemma PairFromId(p: string, n: nat, w: nat, m: nat, v: nat)
    requires p + Decimal(n) + "_" + Decimal(w) + "d" == p + Decimal(m) + "_" + Decimal(v) + "d"
    ensures n == m && w == v
  {
    SameSuffix(p + Decimal(n) + "_" + Decimal(w), p + Decimal(m) + "_" + Decimal(v), "d");
    Regroup(p, Decimal(n), Decimal(w));
    Regroup(p, Decimal(m), Decimal(v));
    SamePrefix(p, Decimal(n) + "_" + Decimal(w), Decimal(m) + "_" + Decimal(v));
    TwoNumbers(n, Decimal(w), m, Decimal(v));
    DecimalInjective(w, v);
  }

  lemma OneFromId(p: string, n: nat, m: nat, unit: string)
    requires p + Decimal(n) + unit == p + Decimal(m) + unit
    ensures n == m
  {
    SameSuffix(p + Decimal(n), p + Decimal(m), unit);
    SamePrefix(p, Decimal(n), Decimal(m));
    DecimalInjective(n, m);
  }

  /** An id tells its segment. */
  lemma SegmentFromId(a: Segment, b: Segment)
    requires OfGrid(a) && OfGrid(b) && a.id == b.id
    ensures a == b
  {
    FamilyFromId(a, b);
    match a.family {
      case PurchaseCountMin => PairFromId("purchase_count_min_", a.minCount, a.windowDays, b.minCount, b.windowDays);
      case PurchaseValueMin =>
        PairFromId("purchase_value_min_", a.minValueCents / 100, a.windowDays, b.minValueCents / 100, b.windowDays);
      case CategoryViewMin =>
        var p := "category_view_min_";
        assert a.id == p + (a.category + "_" + Decimal(a.minCount)) && b.id == p + (b.category + "_" + Decimal(b.minCount));
        SamePrefix(p, a.category + "_" + Decimal(a.minCount), b.category + "_" + Decimal(b.minCount));
        NameAndNumber(a.category, a.minCount, b.category, b.minCount);
      case CartAbandonDays => OneFromId("cart_abandon_", a.minDays, b.minDays, "d");
      case RecentlyActiveHours => OneFromId("recently_active_", a.minHours, b.minHours, "h");
      case ChurnRiskDays => OneFromId("churn_risk_", a.minDays, b.minDays, "d");
      case MultiCategoryMin =>
        SamePrefix("multi_category_shopper_min_", Decimal(a.minDistinct), Decimal(b.minDistinct));
        DecimalInjective(a.minDistinct, b.minDistinct);
      case NeverPurchased =>
    }
  }

  lemma PairsOfGrid(n: nat, w: nat)
    ensures OfGrid(CountSegment(n, w)) && OfGrid(ValueSegment(n, w))
  {
  }

  /** The blocks of the grid. */
  lemma GridFamily(k: nat)
    requires k < 50
    ensures SegmentAt(k).family ==
            if k < 12 then PurchaseCountMin else if k < 17 then CartAbandonDays else if k < 33 then CategoryViewMin
            else if k < 39 then PurchaseValueMin else if k < 43 then RecentlyActiveHours
            else if k == 43 then NeverPurchased else if k < 47 then ChurnRiskDays else MultiCategoryMin
  {
  }

  predicate Usable(seg: Segment) { OfGrid(seg) && Sane(seg) && !seg.family.UnknownFamily? }

  lemma PairEntry(k: nat)
    requires k < 12 || 33 <= k < 39
    ensures Usable(SegmentAt(k))
  {
    GridFamily(k);
    if k < 12 {
      PairsOfGrid(SegmentAt(k).minCount, SegmentAt(k).windowDays);
    } else {
      PairsOfGrid(SegmentAt(k).minValueCents / 100, SegmentAt(k).windowDays);
    }
  }

  lemma ViewEntry(k: nat)
    requires 17 <= k < 33
    ensures Usable(SegmentAt(k))
  {
    GridFamily(k);
  }

  lemma GridEntry(k: nat)
    requires k < 50
    ensures Usable(SegmentAt(k))
  {
    if k < 12 || 33 <= k < 39 {
      PairEntry(k);
    } else if 17 <= k < 33 {
      ViewEntry(k);
    } else {
      GridFamily(k);
    }
  }

  lemma CountsDiffer(i: nat, j: nat)
    requires i < j < 12
    ensures SegmentAt(i) != SegmentAt(j)
  {
    assert i / 3 != j / 3 || i % 3 != j % 3;
  }

  lemma CategoriesDiffer()
    ensures forall i, j :: 0 <= i < j < 8 ==> CATEGORIES[i] != CATEGORIES[j]
  {
    assert forall i :: 0 <= i < 8 ==> |CATEGORIES[i]| >= 4;
    assert forall i, j :: 0 <= i < j < 8 ==> CATEGORIES[i][0] != CATEGORIES[j][0] || CATEGORIES[i][1] != CATEGORIES[j][1];
  }

  lemma ViewsDiffer(i: nat, j: nat)
    requires 17 <= i < j < 33
    ensures SegmentAt(i) != SegmentAt(j)
  {
    var a, b := i - 17, j - 17;
    assert a / 2 != b / 2 || a % 2 != b % 2;
    CategoriesDiffer();
    assert SegmentAt(i).category == CATEGORIES[a / 2] && SegmentAt(j).category == CATEGORIES[b / 2];
  }

  lemma ValuesDiffer(i: nat, j: nat)
    requires 33 <= i < j < 39
    ensures SegmentAt(i) != SegmentAt(j)
  {
    assert (i - 33) / 2 != (j - 33) / 2 || (i - 33) % 2 != (j - 33) % 2;
  }

  lemma SinglesDiffer(i: nat, j: nat)
    requires 12 <= i < j < 17 || 39 <= i < j < 43 || 44 <= i < j < 47 || 47 <= i < j < 50
    ensures SegmentAt(i) != SegmentAt(j)
  {
  }

  /** No two entries of the grid have the same parameters. */
  lemma GridEntriesDiffer(i: nat, j: nat)
    requires i < j < 50
    ensures SegmentAt(i) != SegmentAt(j)
  {
    GridFamily(i);
    GridFamily(j);
    if j < 12 {
      CountsDiffer(i, j);
    } else if 17 <= i && j < 33 {
      ViewsDiffer(i, j);
    } else if 33 <= i && j < 39 {
      ValuesDiffer(i, j);
    } else if SegmentAt(i).family == SegmentAt(j).family {
      SinglesDiffer(i, j);
    }
  }

  /** The test segments are what the engine and its theorems ask for: distinct
      ids, known families, thresholds of at least 1, windows within the trim. */
  lemma TestSegmentsUsable(segs: seq<Segment>)
    requires Built(segs, 50)
    ensures DistinctIds(segs)
    ensures forall k :: 0 <= k < 50 ==> Sane(segs[k]) && !segs[k].family.UnknownFamily?
  {
    forall k | 0 <= k < 50
      ensures Sane(segs[k]) && !segs[k].family.UnknownFamily?
    {
      GridEntry(k);
    }
    forall i, j | 0 <= i < j < |segs|
      ensures segs[i].id != segs[j].id
    {
      GridEntry(i);
      GridEntry(j);
      GridEntriesDiffer(i, j);
      if segs[i].id == segs[j].id {
        SegmentFromId(segs[i], segs[j]);
      }
    }
  }
}
