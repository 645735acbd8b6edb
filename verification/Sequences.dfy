/** Filters, sums and maxima over sequences: the vocabulary in which the
    event-log queries of the repository are stated. All recursion peels the
    last element, so that a log grows in the direction a run grows. */
module Sequences {

  function Filter<T>(s: seq<T>, f: T -> bool): seq<T>
  {
    if s == [] then []
    else
      var rest := Filter(s[..|s| - 1], f);
      if f(s[|s| - 1]) then rest + [s[|s| - 1]] else rest
  }

  function SumBy<T>(s: seq<T>, f: T -> int): int
  {
    if s == [] then 0 else SumBy(s[..|s| - 1], f) + f(s[|s| - 1])
  }

  function MaxBy<T>(s: seq<T>, f: T -> int): int
    requires s != []
  {
    if |s| == 1 then f(s[0])
    else
      var rest := MaxBy(s[..|s| - 1], f);
      if f(s[|s| - 1]) > rest then f(s[|s| - 1]) else rest
  }

  ghost predicate SamePermutation<T>(s: seq<T>, t: seq<T>) {
    multiset(s) == multiset(t)
  }

  // ---- Filter ----

  lemma FilterSnoc<T>(s: seq<T>, x: T, f: T -> bool)
    ensures Filter(s + [x], f) == Filter(s, f) + (if f(x) then [x] else [])
  {
    assert (s + [x])[..|s|] == s;
  }

  lemma {:induction false} FilterMember<T>(s: seq<T>, f: T -> bool, x: T)
    ensures x in Filter(s, f) <==> x in s && f(x)
  {
    if s != [] {
      FilterMember(s[..|s| - 1], f, x);
      assert s == s[..|s| - 1] + [s[|s| - 1]];
    }
  }

  lemma {:induction false} FilterCommutes<T>(s: seq<T>, f: T -> bool, g: T -> bool)
    ensures Filter(Filter(s, f), g) == Filter(Filter(s, g), f)
  {
    if s != [] {
      var init, x := s[..|s| - 1], s[|s| - 1];
      FilterCommutes(init, f, g);
      FilterSnoc(Filter(init, f), x, g);
      FilterSnoc(Filter(init, g), x, f);
    }
  }

  function Positions<T>(s: seq<T>, f: T -> bool): set<int> { set i | 0 <= i < |s| && f(s[i]) }

  /** A filter keeps as many elements as there are positions it lets through. */
  lemma {:induction false} FilterPositions<T>(s: seq<T>, f: T -> bool)
    ensures |Filter(s, f)| == |Positions(s, f)|
  {
    if s != [] {
      var init, n := s[..|s| - 1], |s| - 1;
      FilterPositions(init, f);
      if f(s[n]) {
        assert Positions(s, f) == Positions(init, f) + {n};
      } else {
        assert Positions(s, f) == Positions(init, f);
      }
    }
  }

  lemma {:induction false} FilterNarrows<T>(s: seq<T>, f: T -> bool, g: T -> bool)
    requires forall x :: g(x) ==> f(x)
    ensures Filter(Filter(s, f), g) == Filter(s, g)
  {
    if s != [] {
      FilterNarrows(s[..|s| - 1], f, g);
      FilterSnoc(Filter(s[..|s| - 1], f), s[|s| - 1], g);
    }
  }

  lemma {:induction false} FilterAgrees<T>(s: seq<T>, f: T -> bool, g: T -> bool)
    requires forall x :: x in s ==> f(x) == g(x)
    ensures Filter(s, f) == Filter(s, g)
  {
    if s != [] {
      FilterAgrees(s[..|s| - 1], f, g);
    }
  }

  lemma {:induction false} FilterCount<T>(s: seq<T>, f: T -> bool, x: T)
    ensures multiset(Filter(s, f))[x] == if f(x) then multiset(s)[x] else 0
  {
    if s != [] {
      FilterCount(s[..|s| - 1], f, x);
      assert s == s[..|s| - 1] + [s[|s| - 1]];
    }
  }

  lemma {:induction false} FilterConcat<T>(s: seq<T>, t: seq<T>, f: T -> bool)
    ensures Filter(s + t, f) == Filter(s, f) + Filter(t, f)
  {
    if t == [] {
      assert s + t == s;
    } else {
      assert (s + t)[..|s + t| - 1] == s + t[..|t| - 1];
      FilterConcat(s, t[..|t| - 1], f);
    }
  }

  /** Taking the last element of s out of a permutation t of s leaves a permutation of the rest. */
  lemma RemoveLast<T>(s: seq<T>, t: seq<T>) returns (i: nat)
    requires s != [] && SamePermutation(s, t)
    ensures i < |t| && t[i] == s[|s| - 1]
    ensures SamePermutation(s[..|s| - 1], t[..i] + t[i + 1..])
    ensures t == t[..i] + [t[i]] + t[i + 1..]
  {
    var x := s[|s| - 1];
    assert s == s[..|s| - 1] + [x];
    assert x in multiset(t);
    i :| 0 <= i < |t| && t[i] == x;
    assert t == t[..i] + [x] + t[i + 1..];
    assert multiset(t[..i] + t[i + 1..]) == multiset(t) - multiset{x};
    assert multiset(s[..|s| - 1]) == multiset(s) - multiset{x};
  }

  lemma DropSameLast<T>(s: seq<T>, t: seq<T>)
    requires s != [] && t != [] && SamePermutation(s, t) && s[|s| - 1] == t[|t| - 1]
    ensures SamePermutation(s[..|s| - 1], t[..|t| - 1])
  {
    var x := s[|s| - 1];
    assert s == s[..|s| - 1] + [x] && t == t[..|t| - 1] + [x];
    assert multiset(s[..|s| - 1]) == multiset(s) - multiset{x};
    assert multiset(t[..|t| - 1]) == multiset(t) - multiset{x};
  }

  lemma {:induction false} FilterPermutation<T>(s: seq<T>, t: seq<T>, f: T -> bool)
    requires SamePermutation(s, t)
    ensures SamePermutation(Filter(s, f), Filter(t, f))
  {
    assert |s| == |multiset(s)| == |multiset(t)| == |t|;
    if s != [] {
      var i := RemoveLast(s, t);
      var x := t[i];
      FilterPermutation(s[..|s| - 1], t[..i] + t[i + 1..], f);
      FilterConcat(t[..i], t[i + 1..], f);
      FilterConcat(t[..i] + [x], t[i + 1..], f);
      FilterSnoc(t[..i], x, f);
    }
  }

  // ---- SumBy ----

  lemma {:induction false} SumByConcat<T>(s: seq<T>, t: seq<T>, f: T -> int)
    ensures SumBy(s + t, f) == SumBy(s, f) + SumBy(t, f)
  {
    if t == [] {
      assert s + t == s;
    } else {
      assert (s + t)[..|s + t| - 1] == s + t[..|t| - 1];
      SumByConcat(s, t[..|t| - 1], f);
    }
  }

  lemma SumByExtract<T>(s: seq<T>, i: nat, f: T -> int)
    requires i < |s|
    ensures SumBy(s, f) == SumBy(s[..i] + s[i + 1..], f) + f(s[i])
  {
    assert s == s[..i + 1] + s[i + 1..];
    assert s[..i + 1][..i] == s[..i];
    SumByConcat(s[..i + 1], s[i + 1..], f);
    SumByConcat(s[..i], s[i + 1..], f);
  }

  lemma {:induction false} SumByPermutation<T>(s: seq<T>, t: seq<T>, f: T -> int)
    requires SamePermutation(s, t)
    ensures SumBy(s, f) == SumBy(t, f)
  {
    assert |s| == |multiset(s)| == |multiset(t)| == |t|;
    if s != [] {
      var i := RemoveLast(s, t);
      SumByPermutation(s[..|s| - 1], t[..i] + t[i + 1..], f);
      SumByExtract(t, i, f);
    }
  }

  lemma {:induction false} SumByAgrees<T>(s: seq<T>, f: T -> int, g: T -> int)
    requires forall x :: x in s ==> f(x) == g(x)
    ensures SumBy(s, f) == SumBy(s, g)
  {
    if s != [] {
      SumByAgrees(s[..|s| - 1], f, g);
    }
  }

  lemma {:induction false} SumByNonNegative<T>(s: seq<T>, w: T -> int)
    requires forall x :: x in s ==> w(x) >= 0
    ensures SumBy(s, w) >= 0
  {
    if s != [] {
      SumByNonNegative(s[..|s| - 1], w);
    }
  }

  /** A weaker filter keeps at least as much weight ... */
  lemma {:induction false} FilterSumMonotone<T>(s: seq<T>, f: T -> bool, g: T -> bool, w: T -> int)
    requires forall x :: x in s && f(x) ==> g(x)
    requires forall x :: x in s ==> w(x) >= 0
    ensures SumBy(Filter(s, f), w) <= SumBy(Filter(s, g), w)
  {
    if s != [] {
      FilterSumMonotone(s[..|s| - 1], f, g, w);
      SumByConcat(Filter(s[..|s| - 1], f), [s[|s| - 1]], w);
      SumByConcat(Filter(s[..|s| - 1], g), [s[|s| - 1]], w);
    }
  }

  /** ... and strictly more as soon as one positive element separates the two. */
  lemma {:induction false} FilterSumStrict<T>(s: seq<T>, f: T -> bool, g: T -> bool, w: T -> int, i: nat)
    requires i < |s| && !f(s[i]) && g(s[i]) && w(s[i]) > 0
    requires forall x :: x in s && f(x) ==> g(x)
    requires forall x :: x in s ==> w(x) >= 0
    ensures SumBy(Filter(s, f), w) < SumBy(Filter(s, g), w)
  {
    var init := s[..|s| - 1];
    SumByConcat(Filter(init, f), [s[|s| - 1]], w);
    SumByConcat(Filter(init, g), [s[|s| - 1]], w);
    if i < |s| - 1 {
      FilterSumStrict(init, f, g, w, i);
    } else {
      FilterSumMonotone(init, f, g, w);
    }
  }

  /** f where the filter lets through, 0 elsewhere. */
  function Masked<T>(f: T -> bool, w: T -> int): T -> int { (x: T) => if f(x) then w(x) else 0 }

  lemma {:induction false} FilterSum<T>(s: seq<T>, f: T -> bool, w: T -> int)
    ensures SumBy(Filter(s, f), w) == SumBy(s, Masked(f, w))
  {
    if s != [] {
      FilterSum(s[..|s| - 1], f, w);
      SumByConcat(Filter(s[..|s| - 1], f), [s[|s| - 1]], w);
    }
  }

  lemma {:induction false} SumByBalance<T>(s: seq<T>, a: T -> int, b: T -> int, c: T -> int, d: T -> int)
    requires forall x :: x in s ==> a(x) + b(x) == c(x) + d(x)
    ensures SumBy(s, a) + SumBy(s, b) == SumBy(s, c) + SumBy(s, d)
  {
    if s != [] {
      assert s[|s| - 1] in s;
      SumByBalance(s[..|s| - 1], a, b, c, d);
    }
  }

  lemma {:induction false} SumByPositive<T>(s: seq<T>, w: T -> int)
    requires forall x :: x in s ==> w(x) >= 0
    ensures SumBy(s, w) >= 0
    ensures SumBy(s, w) == 0 <==> forall i :: 0 <= i < |s| ==> w(s[i]) == 0
  {
    if s != [] {
      var init := s[..|s| - 1];
      SumByPositive(init, w);
      assert s[|s| - 1] in s;
      assert forall i :: 0 <= i < |init| ==> init[i] == s[i];
    }
  }

  function One<T>(): T -> int { (x: T) => 1 }

  lemma {:induction false} SumOfOnes<T>(s: seq<T>)
    ensures SumBy(s, One()) == |s|
  {
    if s != [] {
      SumOfOnes(s[..|s| - 1]);
    }
  }

  // ---- MaxBy ----

  lemma {:induction false} MaxByIsMaximum<T>(s: seq<T>, f: T -> int)
    requires s != []
    ensures forall x :: x in s ==> f(x) <= MaxBy(s, f)
    ensures exists x :: x in s && f(x) == MaxBy(s, f)
  {
    if |s| > 1 {
      var init, x := s[..|s| - 1], s[|s| - 1];
      MaxByIsMaximum(init, f);
      assert s == init + [x];
      if f(x) <= MaxBy(init, f) {
        var y :| y in init && f(y) == MaxBy(init, f);
        assert y in s;
      }
    } else {
      assert s[0] in s;
    }
  }

  lemma MaxByPermutation<T>(s: seq<T>, t: seq<T>, f: T -> int)
    requires s != [] && t != [] && SamePermutation(s, t)
    ensures MaxBy(s, f) == MaxBy(t, f)
  {
    MaxByIsMaximum(s, f);
    MaxByIsMaximum(t, f);
    var x :| x in s && f(x) == MaxBy(s, f);
    var y :| y in t && f(y) == MaxBy(t, f);
    assert x in multiset(t) && y in multiset(s);
  }

  // ---- Distinct keys ----

  ghost predicate DistinctBy<T, K>(s: seq<T>, key: T -> K) {
    forall i, j :: 0 <= i < j < |s| ==> key(s[i]) != key(s[j])
  }

  lemma {:induction false} FilterDistinctBy<T, K>(s: seq<T>, key: T -> K, f: T -> bool)
    requires DistinctBy(s, key)
    ensures DistinctBy(Filter(s, f), key)
  {
    if s != [] {
      var init, x := s[..|s| - 1], s[|s| - 1];
      FilterDistinctBy(init, key, f);
      var rows := Filter(init, f);
      forall i | 0 <= i < |rows|
        ensures key(rows[i]) != key(x)
      {
        FilterMember(init, f, rows[i]);
        var j :| 0 <= j < |init| && init[j] == rows[i];
        assert s[j] == rows[i];
      }
    }
  }

  lemma {:induction false} DistinctByPermutation<T, K>(a: seq<T>, b: seq<T>, key: T -> K)
    requires DistinctBy(a, key) && SamePermutation(a, b)
    ensures DistinctBy(b, key)
  {
    assert |a| == |multiset(a)| == |multiset(b)| == |b|;
    if a != [] {
      var i := RemoveLast(a, b);
      var rest := b[..i] + b[i + 1..];
      DistinctByPermutation(a[..|a| - 1], rest, key);
      forall j | 0 <= j < |rest|
        ensures key(rest[j]) != key(b[i])
      {
        assert rest[j] in multiset(a[..|a| - 1]);
        var k :| 0 <= k < |a| - 1 && a[k] == rest[j];
      }
      PutBackDistinct(b, rest, i, key);
    }
  }

  lemma PutBackDistinct<T, K>(b: seq<T>, rest: seq<T>, i: nat, key: T -> K)
    requires i < |b| && rest == b[..i] + b[i + 1..] && DistinctBy(rest, key)
    requires forall j :: 0 <= j < |rest| ==> key(rest[j]) != key(b[i])
    ensures DistinctBy(b, key)
  {
    forall j, k | 0 <= j < k < |b|
      ensures key(b[j]) != key(b[k])
    {
      var j', k' := if j < i then j else j - 1, if k < i then k else k - 1;
      if j == i {
        assert b[k] == rest[k'];
      } else if k == i {
        assert b[j] == rest[j'];
      } else {
        assert b[j] == rest[j'] && b[k] == rest[k'];
      }
    }
  }

  lemma {:induction false} DistinctCounts<T, K>(s: seq<T>, key: T -> K, x: T)
    requires DistinctBy(s, key)
    ensures multiset(s)[x] <= 1
  {
    if s != [] {
      var init, y := s[..|s| - 1], s[|s| - 1];
      assert s == init + [y];
      DistinctCounts(init, key, x);
      forall i | 0 <= i < |init|
        ensures init[i] != y
      {
        assert key(s[i]) != key(s[|s| - 1]);
      }
    }
  }

  lemma CountTwice<T>(s: seq<T>, i: nat, j: nat)
    requires i < j < |s| && s[i] == s[j]
    ensures multiset(s)[s[i]] >= 2
  {
    assert s == s[..j] + [s[j]] + s[j + 1..];
    assert s[..j][i] == s[i];
    assert s[i] in multiset(s[..j]);
  }

  /** Keys distinct in a list are distinct in any part of it. */
  lemma DistinctWithin<T, K>(a: seq<T>, b: seq<T>, key: T -> K)
    requires DistinctBy(a, key) && multiset(b) <= multiset(a)
    ensures DistinctBy(b, key)
  {
    forall i, j | 0 <= i < j < |b|
      ensures key(b[i]) != key(b[j])
    {
      DistinctCounts(a, key, b[i]);
      if b[i] == b[j] {
        CountTwice(b, i, j);
      } else {
        assert b[i] in multiset(b) && b[j] in multiset(b);
        assert b[i] in multiset(a) && b[j] in multiset(a);
        var k :| 0 <= k < |a| && a[k] == b[i];
        var l :| 0 <= l < |a| && a[l] == b[j];
      }
    }
  }

  // ---- Multisets ----

  lemma CancelLeft<T>(a: multiset<T>, x: multiset<T>, b: multiset<T>, y: multiset<T>)
    requires a + x == b + y
    ensures a == b <==> x == y
    ensures a <= b <==> y <= x
  {
    forall q
      ensures a[q] + x[q] == b[q] + y[q]
    {
      assert (a + x)[q] == (b + y)[q];
    }
  }

  lemma PutBack<T>(a: multiset<T>, b: multiset<T>)
    requires forall x :: b[x] <= a[x]
    ensures a == b + (a - b)
  {
  }

  lemma {:induction false} Listing<T>(m: multiset<T>) returns (s: seq<T>)
    ensures multiset(s) == m
    decreases |m|
  {
    if m == multiset{} {
      s := [];
    } else {
      var x :| x in m;
      s := Listing(m - multiset{x});
      s := s + [x];
    }
  }

  // ---- Tails ----

  /** The last n elements, or all of them when there are fewer. */
  function LastN<T>(s: seq<T>, n: nat): seq<T> {
    if |s| <= n then s else s[|s| - n..]
  }

  lemma LastNWithin<T>(s: seq<T>, n: nat, x: T)
    ensures x in LastN(s, n) ==> x in s
  {
    assert forall i :: 0 <= i < |LastN(s, n)| ==> LastN(s, n)[i] == s[|s| - |LastN(s, n)| + i];
  }
}
