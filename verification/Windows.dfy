/** The bounded FIFO memory behind every dedup edge of the repository, and the
    naive reference dedup it is measured against. A stream item has a group
    (the device; a single group when the memory is global) and an id. */
module Windows {
  import opened Sequences

  /** A membership set plus the insertion-order queue that drives eviction. */
  datatype Window<K> = Window(members: set<K>, order: seq<K>)

  datatype Keying<!T, !G, !K> = Keying(group: T -> G, id: T -> K)

  datatype Memory<G, K, T> = Memory(seen: map<G, Window<K>>, admitted: seq<T>)

  function EmptyWindow<K>(): Window<K> { Window({}, []) }

  /** The effect of Admit on one window; the flag says whether the key was new. */
  function AdmitKey<K>(w: Window<K>, k: K, cap: nat): (Window<K>, bool) {
    if k in w.members then (w, false)
    else
      var order := w.order + [k];
      if |order| > cap then (Window(w.members + {k} - {order[0]}, order[1..]), true)
      else (Window(w.members + {k}, order), true)
  }

  function WindowOf<G, K>(seen: map<G, Window<K>>, g: G): Window<K> {
    if g in seen then seen[g] else EmptyWindow()
  }

  function AdmitItem<T, G, K>(ky: Keying<T, G, K>, cap: nat, m: Memory<G, K, T>, x: T): Memory<G, K, T> {
    var (w, isNew) := AdmitKey(WindowOf(m.seen, ky.group(x)), ky.id(x), cap);
    Memory(m.seen[ky.group(x) := w], if isNew then m.admitted + [x] else m.admitted)
  }

  /** The memory after a whole stream has been offered in order. */
  function Offer<T, G, K>(ky: Keying<T, G, K>, cap: nat, s: seq<T>): Memory<G, K, T> {
    if s == [] then Memory(map[], [])
    else AdmitItem(ky, cap, Offer(ky, cap, s[..|s| - 1]), s[|s| - 1])
  }

  predicate SameKey<T, G(==), K(==)>(ky: Keying<T, G, K>, x: T, y: T) {
    ky.group(x) == ky.group(y) && ky.id(x) == ky.id(y)
  }

  predicate Occurs<T, G(==), K(==)>(ky: Keying<T, G, K>, s: seq<T>, x: T) {
    exists i :: 0 <= i < |s| && SameKey(ky, s[i], x)
  }

  /** The reference: one item per key, first occurrence wins. */
  function FirstOccurrences<T, G(==), K(==)>(ky: Keying<T, G, K>, s: seq<T>): seq<T> {
    if s == [] then []
    else
      var init := FirstOccurrences(ky, s[..|s| - 1]);
      if Occurs(ky, s[..|s| - 1], s[|s| - 1]) then init else init + [s[|s| - 1]]
  }

  function InGroup<T, G(==), K>(ky: Keying<T, G, K>, g: G): T -> bool { (x: T) => ky.group(x) == g }

  /** The ids of one group's items, in stream order. */
  function Ids<T, G(==), K>(ky: Keying<T, G, K>, s: seq<T>, g: G): seq<K> {
    if s == [] then []
    else
      var init := Ids(ky, s[..|s| - 1], g);
      if ky.group(s[|s| - 1]) == g then init + [ky.id(s[|s| - 1])] else init
  }

  /** No duplicate arrives after cap or more first-time ids of its group have
      followed its original. Speaks of the stream and the reference alone. */
  ghost predicate DuplicatesInWindow<T, G, K>(ky: Keying<T, G, K>, s: seq<T>, cap: nat) {
    forall i :: 0 <= i < |s| && Occurs(ky, s[..i], s[i]) ==>
      ky.id(s[i]) in LastN(Ids(ky, FirstOccurrences(ky, s[..i]), ky.group(s[i])), cap)
  }

  ghost predicate DistinctKeys<T, G, K>(ky: Keying<T, G, K>, s: seq<T>) {
    forall i, j :: 0 <= i < j < |s| ==> !SameKey(ky, s[i], s[j])
  }

  // ---- What the memory holds ----

  /** The set and the queue hold the same ids, each once. */
  ghost predicate Listed<K>(w: Window<K>) {
    && w.members == (set i | 0 <= i < |w.order| :: w.order[i])
    && (forall i, j :: 0 <= i < j < |w.order| ==> w.order[i] != w.order[j])
  }

  ghost predicate Holds<K>(w: Window<K>, ids: seq<K>, cap: nat) {
    w.order == LastN(ids, cap) && Listed(w)
  }

  lemma ListedSnoc<K>(w: Window<K>, k: K)
    requires Listed(w) && k !in w.members
    ensures Listed(Window(w.members + {k}, w.order + [k]))
  {
    var order := w.order + [k];
    assert forall i :: 0 <= i < |w.order| ==> order[i] == w.order[i] && order[i] in w.members;
    forall x
      ensures x in w.members + {k} <==> x in (set i | 0 <= i < |order| :: order[i])
    {
      if x == k {
        assert order[|w.order|] == k;
      }
    }
  }

  lemma ListedTail<K>(w: Window<K>)
    requires Listed(w) && w.order != []
    ensures Listed(Window(w.members - {w.order[0]}, w.order[1..]))
  {
    var order := w.order[1..];
    assert forall i :: 0 <= i < |order| ==> order[i] == w.order[i + 1];
    forall x
      ensures x in w.members - {w.order[0]} <==> x in (set i | 0 <= i < |order| :: order[i])
    {
      if x in w.members - {w.order[0]} {
        var i :| 0 <= i < |w.order| && w.order[i] == x;
        assert order[i - 1] == x;
      }
    }
  }

  lemma LastNSnoc<K>(ids: seq<K>, k: K, cap: nat)
    ensures var order := LastN(ids, cap) + [k];
            LastN(ids + [k], cap) == if |order| > cap then order[1..] else order
  {
  }

  lemma AdmitKeyHolds<K>(w: Window<K>, ids: seq<K>, k: K, cap: nat)
    requires Holds(w, ids, cap)
    ensures AdmitKey(w, k, cap).1 <==> k !in LastN(ids, cap)
    ensures Holds(AdmitKey(w, k, cap).0, if AdmitKey(w, k, cap).1 then ids + [k] else ids, cap)
  {
    if k !in w.members {
      var grown := Window(w.members + {k}, w.order + [k]);
      ListedSnoc(w, k);
      LastNSnoc(ids, k, cap);
      if |grown.order| > cap {
        ListedTail(grown);
      }
    }
  }

  /** Each group's window is its last min(cap, n) admitted ids, without repeats. */
  lemma {:induction false} WindowContents<T, G, K>(ky: Keying<T, G, K>, cap: nat, s: seq<T>, g: G)
    ensures g in Offer(ky, cap, s).seen <==> exists i :: 0 <= i < |s| && ky.group(s[i]) == g
    ensures Holds(WindowOf(Offer(ky, cap, s).seen, g), Ids(ky, Offer(ky, cap, s).admitted, g), cap)
  {
    if s != [] {
      var init, x := s[..|s| - 1], s[|s| - 1];
      WindowContents(ky, cap, init, g);
      var m := Offer(ky, cap, init);
      assert s == init + [x];
      assert (m.admitted + [x])[..|m.admitted|] == m.admitted;
      if ky.group(x) == g {
        AdmitKeyHolds(WindowOf(m.seen, g), Ids(ky, m.admitted, g), ky.id(x), cap);
      } else if exists i :: 0 <= i < |s| && ky.group(s[i]) == g {
        var i :| 0 <= i < |s| && ky.group(s[i]) == g;
        assert ky.group(init[i]) == g;
      }
    }
  }

  /** What one item does to its own group. */
  lemma OfferSnoc<T, G, K>(ky: Keying<T, G, K>, cap: nat, s: seq<T>, x: T, g: G)
    ensures var m, m' := Offer(ky, cap, s), Offer(ky, cap, s + [x]);
            var (w, isNew) := AdmitKey(WindowOf(m.seen, g), ky.id(x), cap);
            && WindowOf(m'.seen, g) == (if ky.group(x) == g then w else WindowOf(m.seen, g))
            && Ids(ky, m'.admitted, g) ==
               (if ky.group(x) == g && isNew then Ids(ky, m.admitted, g) + [ky.id(x)] else Ids(ky, m.admitted, g))
  {
    var m := Offer(ky, cap, s);
    assert (s + [x])[..|s|] == s;
    assert (m.admitted + [x])[..|m.admitted|] == m.admitted;
  }

  /** Groups do not affect one another: g's window is what g's items alone would leave. */
  lemma {:induction false} GroupsIndependent<T, G, K>(ky: Keying<T, G, K>, cap: nat, s: seq<T>, g: G)
    ensures WindowOf(Offer(ky, cap, s).seen, g) == WindowOf(Offer(ky, cap, Filter(s, InGroup(ky, g))).seen, g)
    ensures Ids(ky, Offer(ky, cap, s).admitted, g) == Ids(ky, Offer(ky, cap, Filter(s, InGroup(ky, g))).admitted, g)
  {
    if s != [] {
      var init, x := s[..|s| - 1], s[|s| - 1];
      assert s == init + [x];
      GroupsIndependent(ky, cap, init, g);
      OfferSnoc(ky, cap, init, x, g);
      if ky.group(x) == g {
        OfferSnoc(ky, cap, Filter(init, InGroup(ky, g)), x, g);
      }
    }
  }

  /** Two admissions of one key have at least cap other admissions of its group between them. */
  lemma {:induction false} ReadmissionDistance<T, G, K>(ky: Keying<T, G, K>, cap: nat, s: seq<T>, g: G, i: nat, j: nat)
    requires i < j < |Ids(ky, Offer(ky, cap, s).admitted, g)|
    requires Ids(ky, Offer(ky, cap, s).admitted, g)[i] == Ids(ky, Offer(ky, cap, s).admitted, g)[j]
    ensures j - i - 1 >= cap
  {
    var init, x := s[..|s| - 1], s[|s| - 1];
    var m := Offer(ky, cap, init);
    var ids := Ids(ky, m.admitted, g);
    assert (m.admitted + [x])[..|m.admitted|] == m.admitted;
    if j < |ids| {
      ReadmissionDistance(ky, cap, init, g, i, j);
    } else {
      WindowContents(ky, cap, init, g);
      AdmitKeyHolds(WindowOf(m.seen, g), ids, ky.id(x), cap);
      assert forall p :: |ids| - |LastN(ids, cap)| <= p < |ids| ==> ids[p] in LastN(ids, cap);
    }
  }

  // ---- The reference ----

  lemma {:induction false} IdsMember<T, G, K>(ky: Keying<T, G, K>, s: seq<T>, g: G, k: K)
    ensures k in Ids(ky, s, g) <==> exists i :: 0 <= i < |s| && ky.group(s[i]) == g && ky.id(s[i]) == k
  {
    if s != [] {
      var init := s[..|s| - 1];
      IdsMember(ky, init, g, k);
      assert forall i :: 0 <= i < |init| ==> s[i] == init[i];
    }
  }

  lemma OccursSnoc<T, G, K>(ky: Keying<T, G, K>, s: seq<T>, x: T, y: T)
    ensures Occurs(ky, s + [x], y) <==> Occurs(ky, s, y) || SameKey(ky, x, y)
  {
    if Occurs(ky, s, y) {
      var i :| 0 <= i < |s| && SameKey(ky, s[i], y);
      assert SameKey(ky, (s + [x])[i], y);
    }
    if SameKey(ky, x, y) {
      assert SameKey(ky, (s + [x])[|s|], y);
    }
  }

  /** The reference keeps every key of the stream, once each. */
  lemma {:induction false} ReferenceKeepsEachKeyOnce<T, G, K>(ky: Keying<T, G, K>, s: seq<T>)
    ensures DistinctKeys(ky, FirstOccurrences(ky, s))
    ensures forall y :: Occurs(ky, FirstOccurrences(ky, s), y) <==> Occurs(ky, s, y)
  {
    if s != [] {
      var init, x := s[..|s| - 1], s[|s| - 1];
      ReferenceKeepsEachKeyOnce(ky, init);
      assert s == init + [x];
      forall y
        ensures Occurs(ky, FirstOccurrences(ky, s), y) <==> Occurs(ky, s, y)
      {
        OccursSnoc(ky, init, x, y);
        OccursSnoc(ky, FirstOccurrences(ky, init), x, y);
        if Occurs(ky, init, x) && SameKey(ky, x, y) {
          var i :| 0 <= i < |init| && SameKey(ky, init[i], x);
          assert SameKey(ky, init[i], y);
        }
      }
      if !Occurs(ky, init, x) {
        assert forall i :: 0 <= i < |FirstOccurrences(ky, init)| ==> !SameKey(ky, FirstOccurrences(ky, init)[i], x);
      }
    }
  }

  /** The memory never lets an item through that the stream did not offer, and never loses a key. */
  lemma {:induction false} AdmittedKeys<T, G, K>(ky: Keying<T, G, K>, cap: nat, s: seq<T>)
    ensures forall y :: Occurs(ky, Offer(ky, cap, s).admitted, y) <==> Occurs(ky, s, y)
  {
    if s != [] {
      var init, x := s[..|s| - 1], s[|s| - 1];
      AdmittedKeys(ky, cap, init);
      var m := Offer(ky, cap, init);
      assert s == init + [x];
      WindowContents(ky, cap, init, ky.group(x));
      AdmitKeyHolds(WindowOf(m.seen, ky.group(x)), Ids(ky, m.admitted, ky.group(x)), ky.id(x), cap);
      IdsMember(ky, m.admitted, ky.group(x), ky.id(x));
      forall y
        ensures Occurs(ky, Offer(ky, cap, s).admitted, y) <==> Occurs(ky, s, y)
      {
        OccursSnoc(ky, init, x, y);
        OccursSnoc(ky, m.admitted, x, y);
        if Offer(ky, cap, s).admitted == m.admitted && SameKey(ky, x, y) {
          assert ky.id(x) in Ids(ky, m.admitted, ky.group(x));
          var i :| 0 <= i < |m.admitted| && ky.group(m.admitted[i]) == ky.group(x) && ky.id(m.admitted[i]) == ky.id(x);
          assert SameKey(ky, m.admitted[i], y);
        }
      }
    }
  }

  lemma FreshKeyAdmitted<T, G, K>(ky: Keying<T, G, K>, cap: nat, s: seq<T>, x: T)
    requires !Occurs(ky, s, x)
    ensures Offer(ky, cap, s + [x]).admitted == Offer(ky, cap, s).admitted + [x]
  {
    var m := Offer(ky, cap, s);
    assert (s + [x])[..|s|] == s;
    WindowContents(ky, cap, s, ky.group(x));
    AdmitKeyHolds(WindowOf(m.seen, ky.group(x)), Ids(ky, m.admitted, ky.group(x)), ky.id(x), cap);
    AdmittedKeys(ky, cap, s);
    IdsMember(ky, m.admitted, ky.group(x), ky.id(x));
    assert !Occurs(ky, m.admitted, x);
    assert forall i :: 0 <= i < |m.admitted| ==> !SameKey(ky, m.admitted[i], x);
  }

  lemma WindowConditionSnoc<T, G, K>(ky: Keying<T, G, K>, s: seq<T>, x: T, cap: nat)
    ensures DuplicatesInWindow(ky, s + [x], cap) <==>
            && DuplicatesInWindow(ky, s, cap)
            && (Occurs(ky, s, x) ==> ky.id(x) in LastN(Ids(ky, FirstOccurrences(ky, s), ky.group(x)), cap))
  {
    var t := s + [x];
    assert forall i :: 0 <= i < |s| ==> t[..i] == s[..i] && t[i] == s[i];
    assert t[..|s|] == s && t[|s|] == x;
    if DuplicatesInWindow(ky, t, cap) {
      forall i | 0 <= i < |s| && Occurs(ky, s[..i], s[i])
        ensures ky.id(s[i]) in LastN(Ids(ky, FirstOccurrences(ky, s[..i]), ky.group(s[i])), cap)
      {
        assert Occurs(ky, t[..i], t[i]);
      }
    }
  }

  /** Admit agrees with the reference exactly on streams whose duplicates stay
      in the window; outside them it lets strictly more items through. */
  lemma {:induction false} AdmitsExactlyTheReference<T, G, K>(ky: Keying<T, G, K>, cap: nat, s: seq<T>)
    ensures Offer(ky, cap, s).admitted == FirstOccurrences(ky, s) <==> DuplicatesInWindow(ky, s, cap)
    ensures !DuplicatesInWindow(ky, s, cap) ==> |Offer(ky, cap, s).admitted| > |FirstOccurrences(ky, s)|
  {
    if s != [] {
      var init, x := s[..|s| - 1], s[|s| - 1];
      AdmitsExactlyTheReference(ky, cap, init);
      assert s == init + [x];
      WindowConditionSnoc(ky, init, x, cap);
      if !Occurs(ky, init, x) {
        FreshKeyAdmitted(ky, cap, init, x);
      } else {
        var m := Offer(ky, cap, init);
        WindowContents(ky, cap, init, ky.group(x));
        AdmitKeyHolds(WindowOf(m.seen, ky.group(x)), Ids(ky, m.admitted, ky.group(x)), ky.id(x), cap);
      }
    }
  }

  /** Nothing the reference keeps is held back, copies counted. */
  lemma {:induction false} ReferenceWithinAdmitted<T, G, K>(ky: Keying<T, G, K>, cap: nat, s: seq<T>, q: T)
    ensures multiset(FirstOccurrences(ky, s))[q] <= multiset(Offer(ky, cap, s).admitted)[q]
  {
    if s != [] {
      var init, x := s[..|s| - 1], s[|s| - 1];
      ReferenceWithinAdmitted(ky, cap, init, q);
      assert s == init + [x];
      if !Occurs(ky, init, x) {
        FreshKeyAdmitted(ky, cap, init, x);
      }
    }
  }

  /** What was let through beyond the reference: items of keys already forgotten. */
  ghost function Readmitted<T, G, K>(ky: Keying<T, G, K>, cap: nat, s: seq<T>): multiset<T> {
    multiset(Offer(ky, cap, s).admitted) - multiset(FirstOccurrences(ky, s))
  }

  lemma AdmittedParts<T, G, K>(ky: Keying<T, G, K>, cap: nat, s: seq<T>)
    ensures multiset(Offer(ky, cap, s).admitted) == multiset(FirstOccurrences(ky, s)) + Readmitted(ky, cap, s)
  {
    var admitted, reference := multiset(Offer(ky, cap, s).admitted), multiset(FirstOccurrences(ky, s));
    forall q
      ensures reference[q] <= admitted[q]
    {
      ReferenceWithinAdmitted(ky, cap, s, q);
    }
    PutBack(admitted, reference);
  }

  /** Admissions are the reference and what was readmitted; nothing is
      readmitted exactly when duplicates stay in the window. */
  lemma ReadmittedExactly<T, G, K>(ky: Keying<T, G, K>, cap: nat, s: seq<T>)
    ensures multiset(Offer(ky, cap, s).admitted) == multiset(FirstOccurrences(ky, s)) + Readmitted(ky, cap, s)
    ensures Readmitted(ky, cap, s) == multiset{} <==> DuplicatesInWindow(ky, s, cap)
  {
    var admitted, reference := Offer(ky, cap, s).admitted, FirstOccurrences(ky, s);
    AdmittedParts(ky, cap, s);
    AdmitsExactlyTheReference(ky, cap, s);
    assert |admitted| == |multiset(admitted)| == |multiset(reference)| + |Readmitted(ky, cap, s)|;
    assert |multiset(reference)| == |reference|;
  }

  /** A duplicate is let through exactly when it has left the window. */
  lemma DuplicateReadmitted<T, G, K>(ky: Keying<T, G, K>, cap: nat, s: seq<T>, x: T)
    requires Occurs(ky, s, x) && DuplicatesInWindow(ky, s, cap)
    ensures Offer(ky, cap, s + [x]).admitted ==
            if DuplicatesInWindow(ky, s + [x], cap) then Offer(ky, cap, s).admitted else Offer(ky, cap, s).admitted + [x]
  {
    var m := Offer(ky, cap, s);
    assert (s + [x])[..|s|] == s;
    WindowConditionSnoc(ky, s, x, cap);
    AdmitsExactlyTheReference(ky, cap, s);
    WindowContents(ky, cap, s, ky.group(x));
    AdmitKeyHolds(WindowOf(m.seen, ky.group(x)), Ids(ky, m.admitted, ky.group(x)), ky.id(x), cap);
  }

  /** What one more item adds to each side, by any weight. */
  lemma WeightSnoc<T, G, K>(ky: Keying<T, G, K>, cap: nat, s: seq<T>, x: T, w: T -> int)
    ensures var a, b := Offer(ky, cap, s).admitted, Offer(ky, cap, s + [x]).admitted;
            SumBy(b, w) == SumBy(a, w) + if b == a then 0 else w(x)
    ensures SumBy(FirstOccurrences(ky, s + [x]), w) ==
            SumBy(FirstOccurrences(ky, s), w) + if Occurs(ky, s, x) then 0 else w(x)
  {
    assert (s + [x])[..|s|] == s;
    LastWeight(Offer(ky, cap, s).admitted, x, w);
    LastWeight(FirstOccurrences(ky, s), x, w);
  }

  lemma LastWeight<T>(s: seq<T>, x: T, w: T -> int)
    ensures SumBy(s + [x], w) == SumBy(s, w) + w(x)
  {
    assert (s + [x])[..|s|] == s;
  }

  /** By any positive weight of items, outside the window more is let through than the reference keeps. */
  lemma {:induction false} AdmittedOutweighsReference<T, G, K>(ky: Keying<T, G, K>, cap: nat, s: seq<T>, w: T -> int)
    requires forall x :: x in s ==> w(x) > 0
    ensures SumBy(Offer(ky, cap, s).admitted, w) >= SumBy(FirstOccurrences(ky, s), w)
    ensures !DuplicatesInWindow(ky, s, cap) ==>
            SumBy(Offer(ky, cap, s).admitted, w) > SumBy(FirstOccurrences(ky, s), w)
  {
    if s != [] {
      var init, x := s[..|s| - 1], s[|s| - 1];
      AdmittedOutweighsReference(ky, cap, init, w);
      assert s == init + [x] && x in s;
      WeightSnoc(ky, cap, init, x, w);
      OutweighsStep(ky, cap, init, x);
    }
  }

  /** A fresh item is let through; the first duplicate outside the window is too. */
  lemma OutweighsStep<T, G, K>(ky: Keying<T, G, K>, cap: nat, s: seq<T>, x: T)
    ensures !Occurs(ky, s, x) ==> Offer(ky, cap, s + [x]).admitted != Offer(ky, cap, s).admitted
    ensures DuplicatesInWindow(ky, s, cap) && !DuplicatesInWindow(ky, s + [x], cap) ==>
            Occurs(ky, s, x) && Offer(ky, cap, s + [x]).admitted != Offer(ky, cap, s).admitted
    ensures !Occurs(ky, s, x) && DuplicatesInWindow(ky, s, cap) ==> DuplicatesInWindow(ky, s + [x], cap)
  {
    WindowConditionSnoc(ky, s, x, cap);
    assert |Offer(ky, cap, s).admitted + [x]| != |Offer(ky, cap, s).admitted|;
    if !Occurs(ky, s, x) {
      FreshKeyAdmitted(ky, cap, s, x);
    } else if DuplicatesInWindow(ky, s, cap) {
      DuplicateReadmitted(ky, cap, s, x);
    }
  }

  /** The keys let through are pairwise distinct under exactly the same condition. */
  lemma AdmittedKeysDistinct<T, G, K>(ky: Keying<T, G, K>, cap: nat, s: seq<T>)
    ensures DistinctKeys(ky, Offer(ky, cap, s).admitted) <==> DuplicatesInWindow(ky, s, cap)
  {
    AdmitsExactlyTheReference(ky, cap, s);
    ReferenceKeepsEachKeyOnce(ky, s);
    if !DuplicatesInWindow(ky, s, cap) && DistinctKeys(ky, Offer(ky, cap, s).admitted) {
      AdmittedKeys(ky, cap, s);
      var admitted := Offer(ky, cap, s).admitted;
      forall i | 0 <= i < |admitted|
        ensures Occurs(ky, FirstOccurrences(ky, s), admitted[i])
      {
        assert SameKey(ky, admitted[i], admitted[i]);
      }
      DistinctIntoCover(ky, Offer(ky, cap, s).admitted, FirstOccurrences(ky, s));
    }
  }

  /** A list of distinct keys all found in t is no longer than t. */
  lemma {:induction false} DistinctIntoCover<T, G, K>(ky: Keying<T, G, K>, s: seq<T>, t: seq<T>)
    requires DistinctKeys(ky, s)
    requires forall i :: 0 <= i < |s| ==> Occurs(ky, t, s[i])
    ensures |s| <= |t|
  {
    if s != [] {
      var init, x := s[..|s| - 1], s[|s| - 1];
      var j :| 0 <= j < |t| && SameKey(ky, t[j], x);
      var rest := t[..j] + t[j + 1..];
      forall i | 0 <= i < |init|
        ensures Occurs(ky, rest, init[i])
      {
        assert Occurs(ky, t, s[i]) && !SameKey(ky, s[i], x);
        var k :| 0 <= k < |t| && SameKey(ky, t[k], s[i]);
        assert SameKey(ky, rest[if k < j then k else k - 1], init[i]);
      }
      DistinctIntoCover(ky, init, rest);
    }
  }

  // ---- How much is remembered ----

  lemma {:induction false} ImageSize<X>(xs: seq<X>)
    requires forall i, j :: 0 <= i < j < |xs| ==> xs[i] != xs[j]
    ensures |set i | 0 <= i < |xs| :: xs[i]| == |xs|
  {
    if xs != [] {
      var init := xs[..|xs| - 1];
      ImageSize(init);
      assert (set i | 0 <= i < |xs| :: xs[i]) == (set i | 0 <= i < |init| :: init[i]) + {xs[|xs| - 1]};
    }
  }

  /** Every (group, id) pair currently remembered. */
  function Remembered<G, K>(seen: map<G, Window<K>>): set<(G, K)> {
    set g, k | g in seen && k in seen[g].members :: (g, k)
  }

  lemma {:induction false} PairsSize<G, K>(g: G, ks: set<K>)
    ensures |set k | k in ks :: (g, k)| == |ks|
  {
    if ks != {} {
      var x :| x in ks;
      PairsSize(g, ks - {x});
      assert (set k | k in ks :: (g, k)) == (set k | k in ks - {x} :: (g, k)) + {(g, x)};
    }
  }

  lemma RememberedGrows<G, K>(seen: map<G, Window<K>>, g: G, w: Window<K>)
    requires g !in seen
    ensures |Remembered(seen[g := w])| == |Remembered(seen)| + |w.members|
  {
    var own := set k | k in w.members :: (g, k);
    PairsSize(g, w.members);
    forall x
      ensures x in Remembered(seen[g := w]) <==> x in Remembered(seen) + own
    {
    }
    assert Remembered(seen[g := w]) == Remembered(seen) + own;
    assert Remembered(seen) !! own;
  }

  lemma {:induction false} RememberedBound<G, K>(seen: map<G, Window<K>>, cap: nat)
    requires forall g :: g in seen ==> |seen[g].members| <= cap
    ensures |Remembered(seen)| <= cap * |seen|
  {
    if seen.Keys != {} {
      var g :| g in seen.Keys;
      var rest := seen - {g};
      RememberedBound(rest, cap);
      assert seen == rest[g := seen[g]];
      RememberedGrows(rest, g, seen[g]);
      assert |seen| == |rest| + 1;
      OneMoreGroup(cap, |rest|);
    }
  }

  lemma OneMoreGroup(cap: nat, n: nat)
    ensures cap * (n + 1) == cap * n + cap
  {
  }

  /** Memory stays bounded over every stream: cap entries a group, and exactly
      min(cap, admissions) of them. */
  lemma MemoryBounded<T, G, K>(ky: Keying<T, G, K>, cap: nat, s: seq<T>)
    ensures |Remembered(Offer(ky, cap, s).seen)| <= cap * |Offer(ky, cap, s).seen|
    ensures forall g :: g in Offer(ky, cap, s).seen ==>
      var n := |Ids(ky, Offer(ky, cap, s).admitted, g)|;
      |Offer(ky, cap, s).seen[g].members| == if n < cap then n else cap
  {
    var m := Offer(ky, cap, s);
    forall g | g in m.seen
      ensures |m.seen[g].members| == |LastN(Ids(ky, m.admitted, g), cap)|
    {
      WindowContents(ky, cap, s, g);
      ImageSize(m.seen[g].order);
    }
    RememberedBound(m.seen, cap);
  }
}
