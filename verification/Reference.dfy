/** internal/ingest/reference.go: the naive dedup and the order-independent
    digest both sides of the replay claim are run through. */
module Reference {
  import opened Bytes
  import opened IngestDedup
  import opened Sequences
  import opened Windows

  method ReferenceDedup(delivered: seq<Reading>) returns (out: seq<Reading>)
    ensures out == FirstOccurrences(ByDevice(), delivered)
  {
    var seen: set<(seq<byte>, uint64)> := {};
    out := [];
    for i := 0 to |delivered|
      invariant out == FirstOccurrences(ByDevice(), delivered[..i])
      invariant forall d, n :: (d, n) in seen <==>
        exists j :: 0 <= j < i && delivered[j].deviceId == d && delivered[j].sequence == n
    {
      var r := delivered[i];
      var k := (r.deviceId, r.sequence);
      assert delivered[..i + 1][..i] == delivered[..i];
      assert Occurs(ByDevice(), delivered[..i], r) <==> k in seen by {
        assert forall j :: 0 <= j < i ==> delivered[..i][j] == delivered[j];
      }
      if k in seen {
        continue;
      }
      seen := seen + {k};
      out := out + [r];
    }
    assert delivered[..|delivered|] == delivered;
  }

  // ---- Sorting ----

  predicate Less(a: Reading, b: Reading) {
    if a.deviceId != b.deviceId then LexLess(a.deviceId, b.deviceId) else a.sequence < b.sequence
  }

  ghost predicate Sorted(rs: seq<Reading>) {
    forall i, j :: 0 <= i < j < |rs| ==> !Less(rs[j], rs[i])
  }

  ghost predicate SortedPermutation(rs: seq<Reading>, t: seq<Reading>) {
    Sorted(t) && SamePermutation(rs, t)
  }

  lemma LessTotal(a: Reading, b: Reading)
    ensures Less(a, b) || Less(b, a) || SameKey(ByDevice(), a, b)
    ensures !(Less(a, b) && Less(b, a))
    ensures SameKey(ByDevice(), a, b) ==> !Less(a, b)
  {
    LexTotal(a.deviceId, b.deviceId);
    if LexLess(a.deviceId, b.deviceId) {
      LexAsymmetric(a.deviceId, b.deviceId);
    }
  }

  lemma NotLessTransitive(a: Reading, b: Reading, c: Reading)
    requires !Less(b, a) && !Less(c, b)
    ensures !Less(c, a)
  {
    LessTotal(a, b);
    LessTotal(b, c);
    LessTotal(a, c);
    LexTotal(a.deviceId, b.deviceId);
    LexTotal(b.deviceId, c.deviceId);
    if LexLess(a.deviceId, b.deviceId) && LexLess(b.deviceId, c.deviceId) {
      LexTransitive(a.deviceId, b.deviceId, c.deviceId);
      LexAsymmetric(a.deviceId, c.deviceId);
    }
  }

  function Insert(r: Reading, rs: seq<Reading>): seq<Reading> {
    if rs == [] then [r]
    else if Less(r, rs[|rs| - 1]) then Insert(r, rs[..|rs| - 1]) + [rs[|rs| - 1]]
    else rs + [r]
  }

  /** One realisation of sort.Slice; the theorems below hold of every sorted permutation. */
  function SortReadings(rs: seq<Reading>): seq<Reading> {
    if rs == [] then [] else Insert(rs[|rs| - 1], SortReadings(rs[..|rs| - 1]))
  }

  lemma {:induction false} InsertSorts(r: Reading, rs: seq<Reading>)
    requires Sorted(rs)
    ensures SortedPermutation(rs + [r], Insert(r, rs))
  {
    if rs != [] {
      var init, x := rs[..|rs| - 1], rs[|rs| - 1];
      assert rs == init + [x];
      if Less(r, x) {
        InsertSorts(r, init);
        LessTotal(r, x);
        forall i | 0 <= i < |Insert(r, init)|
          ensures !Less(x, Insert(r, init)[i])
        {
          assert Insert(r, init)[i] in multiset(Insert(r, init));
          assert Insert(r, init)[i] in multiset(init + [r]);
        }
      } else {
        forall i | 0 <= i < |rs|
          ensures !Less(r, rs[i])
        {
          if i < |init| {
            NotLessTransitive(rs[i], x, r);
          }
        }
      }
    }
  }

  lemma {:induction false} SortReadingsSorts(rs: seq<Reading>)
    ensures SortedPermutation(rs, SortReadings(rs))
  {
    if rs != [] {
      var init, x := rs[..|rs| - 1], rs[|rs| - 1];
      SortReadingsSorts(init);
      InsertSorts(x, SortReadings(init));
      assert rs == init + [x];
    }
  }

  /** The order the digest is taken in: by device id, byte by byte, and by
      ascending sequence within a device. */
  lemma SortedAscending(rs: seq<Reading>, i: nat, j: nat)
    requires i < j < |SortReadings(rs)|
    ensures var a, b := SortReadings(rs)[i], SortReadings(rs)[j];
            || (a.deviceId == b.deviceId && a.sequence <= b.sequence)
            || a.deviceId < b.deviceId
            || exists k :: 0 <= k < |a.deviceId| && k < |b.deviceId| &&
                 a.deviceId[..k] == b.deviceId[..k] && a.deviceId[k] < b.deviceId[k]
  {
    var a, b := SortReadings(rs)[i], SortReadings(rs)[j];
    SortReadingsSorts(rs);
    assert !Less(b, a);
    LexTotal(a.deviceId, b.deviceId);
    LexMeaning(a.deviceId, b.deviceId);
  }

  // ---- Serialization ----

  /** The bytes hashed for one reading: id, sequence, value, and the unused 17th buffer byte. */
  function Record(r: Reading): (b: seq<byte>)
    ensures |b| == |r.deviceId| + 17
  {
    r.deviceId + BigEndian(r.sequence, 8) + BigEndian(r.valueBits, 8) + [0]
  }

  function Serialize(rs: seq<Reading>): seq<byte> {
    if rs == [] then [] else Record(rs[0]) + Serialize(rs[1..])
  }

  function RecordSize(): Reading -> int { (r: Reading) => |r.deviceId| + 17 }

  /** The number of bytes hashed does not depend on the order of the readings. */
  lemma SerializedSize(t: seq<Reading>, rs: seq<Reading>)
    requires SamePermutation(rs, t)
    ensures |Serialize(t)| == SumBy(rs, RecordSize())
  {
    SizeOf(t);
    SumByPermutation(rs, t, RecordSize());
  }

  lemma {:induction false} SizeOf(t: seq<Reading>)
    ensures |Serialize(t)| == SumBy(t, RecordSize())
  {
    if t != [] {
      SizeOf(t[1..]);
      assert t == [t[0]] + t[1..];
      SumByConcat([t[0]], t[1..], RecordSize());
      assert SumBy([t[0]], RecordSize()) == SumBy([t[0]][..0], RecordSize()) + RecordSize()(t[0]);
    }
  }

  lemma RecordParts(r: Reading, buf: seq<byte>)
    requires buf == BigEndian(r.sequence, 8) + BigEndian(r.valueBits, 8) + [0]
    ensures Record(r) == r.deviceId + buf
  {
  }

  lemma SerializeFrom(rs: seq<Reading>, i: nat)
    requires i < |rs|
    ensures Serialize(rs[i..]) == Record(rs[i]) + Serialize(rs[i + 1..])
  {
    assert rs[i..][1..] == rs[i + 1..];
  }

  /** sha is the SHA-256 function, of which nothing is assumed. */
  method FinalStateDigest(readings: seq<Reading>, sha: seq<byte> -> seq<byte>) returns (digest: seq<byte>)
    ensures digest == sha(Serialize(SortReadings(readings)))
  {
    var sorted := SortReadings(readings);
    var written := [];
    for i := 0 to |sorted|
      invariant written + Serialize(sorted[i..]) == Serialize(sorted)
    {
      var r := sorted[i];
      var buf := BigEndian(r.sequence, 8) + BigEndian(r.valueBits, 8) + [0];
      RecordParts(r, buf);
      SerializeFrom(sorted, i);
      written := written + r.deviceId;
      written := written + buf;
    }
    assert written == Serialize(sorted);
    digest := sha(written);
  }

  /** What the digest sees of a reading: everything but the timestamp. */
  function Seen(r: Reading): Reading { r.(timestampMs := 0) }

  function AllSeen(rs: seq<Reading>): (t: seq<Reading>)
    ensures |t| == |rs| && forall i :: 0 <= i < |rs| ==> t[i] == Seen(rs[i])
  {
    seq(|rs|, i requires 0 <= i < |rs| => Seen(rs[i]))
  }

  /** Readings that share a key share their value. */
  ghost predicate Coherent(rs: seq<Reading>) {
    forall x, y :: x in rs && y in rs && SameKey(ByDevice(), x, y) ==> Seen(x) == Seen(y)
  }

  lemma {:induction false} SerializeIgnoresTimestamps(rs: seq<Reading>)
    ensures Serialize(AllSeen(rs)) == Serialize(rs)
  {
    if rs != [] {
      SerializeIgnoresTimestamps(rs[1..]);
      assert AllSeen(rs)[1..] == AllSeen(rs[1..]);
    }
  }

  lemma RecordInjective(a: Reading, b: Reading)
    requires |a.deviceId| == |b.deviceId| && Record(a) == Record(b)
    ensures Seen(a) == Seen(b)
  {
    var n := |a.deviceId|;
    assert Record(a)[..n] == a.deviceId && Record(b)[..n] == b.deviceId;
    assert Record(a)[n..n + 8] == BigEndian(a.sequence, 8) && Record(b)[n..n + 8] == BigEndian(b.sequence, 8);
    assert Record(a)[n + 8..n + 16] == BigEndian(a.valueBits, 8) && Record(b)[n + 8..n + 16] == BigEndian(b.valueBits, 8);
    Pow256Of8();
    BigEndianInjective(a.sequence, b.sequence, 8);
    BigEndianInjective(a.valueBits, b.valueBits, 8);
  }

  lemma Pow256Of8()
    ensures Pow256(8) == 0x1_0000_0000_0000_0000
  {
    assert Pow256(4) == 0x1_0000_0000;
    assert Pow256(6) == 256 * (256 * Pow256(4));
  }

  /** Equal bytes and equal id lengths position by position give equal readings. */
  lemma {:induction false} SerializeInjective(a: seq<Reading>, b: seq<Reading>)
    requires forall i :: 0 <= i < |a| && i < |b| ==> |a[i].deviceId| == |b[i].deviceId|
    requires Serialize(a) == Serialize(b)
    ensures AllSeen(a) == AllSeen(b)
  {
    if a != [] && b != [] {
      var k := |Record(a[0])|;
      assert Serialize(a)[..k] == Record(a[0]) && Serialize(b)[..k] == Record(b[0]);
      assert Serialize(a)[k..] == Serialize(a[1..]) && Serialize(b)[k..] == Serialize(b[1..]);
      RecordInjective(a[0], b[0]);
      SerializeInjective(a[1..], b[1..]);
      assert AllSeen(a)[1..] == AllSeen(a[1..]) && AllSeen(b)[1..] == AllSeen(b[1..]);
      assert AllSeen(a) == [Seen(a[0])] + AllSeen(a[1..]) && AllSeen(b) == [Seen(b[0])] + AllSeen(b[1..]);
    }
  }

  // ---- Order independence ----

  ghost predicate KeysDetermine(t: seq<Reading>) {
    forall x, y :: x in t && y in t && SameKey(ByDevice(), x, y) ==> x == y
  }

  lemma MaximaAgree(t: seq<Reading>, u: seq<Reading>)
    requires Sorted(t) && Sorted(u) && SamePermutation(t, u) && KeysDetermine(t)
    requires t != [] && u != []
    ensures t[|t| - 1] == u[|u| - 1]
  {
    var x, y := t[|t| - 1], u[|u| - 1];
    assert x in multiset(u) && y in multiset(t);
    var i :| 0 <= i < |u| && u[i] == x;
    var j :| 0 <= j < |t| && t[j] == y;
    LessTotal(x, y);
  }

  /** A sorted arrangement of readings determined by their keys is unique. */
  lemma {:induction false} SortedUnique(t: seq<Reading>, u: seq<Reading>)
    requires Sorted(t) && Sorted(u) && SamePermutation(t, u) && KeysDetermine(t)
    ensures t == u
  {
    assert |t| == |multiset(t)| == |multiset(u)| == |u|;
    if t != [] {
      MaximaAgree(t, u);
      DropSameLast(t, u);
      KeysDeterminePrefix(t);
      SortedUnique(t[..|t| - 1], u[..|u| - 1]);
      assert t == t[..|t| - 1] + [t[|t| - 1]] && u == u[..|u| - 1] + [u[|u| - 1]];
    }
  }

  lemma KeysDeterminePrefix(t: seq<Reading>)
    requires t != [] && KeysDetermine(t)
    ensures KeysDetermine(t[..|t| - 1])
  {
    assert forall y :: y in t[..|t| - 1] ==> y in t;
  }

  lemma SeenConcat(a: seq<Reading>, b: seq<Reading>)
    ensures AllSeen(a + b) == AllSeen(a) + AllSeen(b)
  {
  }

  lemma {:induction false} SeenPermutation(a: seq<Reading>, b: seq<Reading>)
    requires SamePermutation(a, b)
    ensures SamePermutation(AllSeen(a), AllSeen(b))
  {
    assert |a| == |multiset(a)| == |multiset(b)| == |b|;
    if a != [] {
      var i := RemoveLast(a, b);
      var init, pre, x, post := a[..|a| - 1], b[..i], b[i], b[i + 1..];
      SeenPermutation(init, pre + post);
      assert a == init + [x];
      SeenConcat(init, [x]);
      SeenConcat(pre + [x], post);
      SeenConcat(pre, [x]);
      SeenConcat(pre, post);
    }
  }

  lemma SeenSorted(t: seq<Reading>)
    ensures Sorted(AllSeen(t)) <==> Sorted(t)
  {
    assert forall i, j :: 0 <= i < j < |t| ==> Less(AllSeen(t)[j], AllSeen(t)[i]) == Less(t[j], t[i]);
    if Sorted(AllSeen(t)) {
      forall i, j | 0 <= i < j < |t|
        ensures !Less(t[j], t[i])
      {
        assert !Less(AllSeen(t)[j], AllSeen(t)[i]);
      }
    }
  }

  lemma CoherentSeen(t: seq<Reading>, rs: seq<Reading>)
    requires SamePermutation(rs, t) && Coherent(rs)
    ensures KeysDetermine(AllSeen(t))
  {
    forall x, y | x in AllSeen(t) && y in AllSeen(t) && SameKey(ByDevice(), x, y)
      ensures x == y
    {
      var i :| 0 <= i < |t| && AllSeen(t)[i] == x;
      var j :| 0 <= j < |t| && AllSeen(t)[j] == y;
      assert t[i] in multiset(rs) && t[j] in multiset(rs);
      assert SameKey(ByDevice(), t[i], t[j]);
    }
  }

  /** However sort.Slice orders ties, and in whatever order coherent readings
      came, the hashed bytes are the same. */
  lemma DigestOrderIndependent(rs: seq<Reading>, t: seq<Reading>, u: seq<Reading>)
    requires Coherent(rs) && SortedPermutation(rs, t) && SortedPermutation(rs, u)
    ensures Serialize(t) == Serialize(u)
  {
    SeenPermutation(t, u);
    SeenSorted(t);
    SeenSorted(u);
    CoherentSeen(t, rs);
    SortedUnique(AllSeen(t), AllSeen(u));
    SerializeIgnoresTimestamps(t);
    SerializeIgnoresTimestamps(u);
  }

  /** Coherence is exactly what order independence needs: a key with two values
      gives two sorted arrangements with different bytes. */
  lemma DigestDependsOnOrder(rs: seq<Reading>)
    ensures Coherent(rs) <==>
            forall t, u :: SortedPermutation(rs, t) && SortedPermutation(rs, u) ==> Serialize(t) == Serialize(u)
  {
    if Coherent(rs) {
      forall t, u | SortedPermutation(rs, t) && SortedPermutation(rs, u)
        ensures Serialize(t) == Serialize(u)
      {
        DigestOrderIndependent(rs, t, u);
      }
    } else {
      var t, u := IncoherentOrders(rs);
    }
  }

  lemma IncoherentOrders(rs: seq<Reading>) returns (t: seq<Reading>, u: seq<Reading>)
    requires !Coherent(rs)
    ensures SortedPermutation(rs, t) && SortedPermutation(rs, u) && Serialize(t) != Serialize(u)
  {
    var x, y :| x in rs && y in rs && SameKey(ByDevice(), x, y) && Seen(x) != Seen(y);
    t := SortReadings(rs);
    SortReadingsSorts(rs);
    var i := IndexIn(rs, t, x);
    var j := IndexIn(rs, t, y);
    u := t[i := t[j]][j := t[i]];
    SwapKeepsOrder(t, i, j);
    SwapChangesBytes(t, i, j);
  }

  lemma IndexIn(rs: seq<Reading>, t: seq<Reading>, x: Reading) returns (i: nat)
    requires SamePermutation(rs, t) && x in rs
    ensures i < |t| && t[i] == x
  {
    assert x in multiset(rs);
    assert x in multiset(t);
    i :| 0 <= i < |t| && t[i] == x;
  }

  lemma SwapChangesBytes(t: seq<Reading>, i: nat, j: nat)
    requires i < |t| && j < |t| && SameKey(ByDevice(), t[i], t[j]) && Seen(t[i]) != Seen(t[j])
    ensures Serialize(t) != Serialize(t[i := t[j]][j := t[i]])
  {
    var u := t[i := t[j]][j := t[i]];
    assert AllSeen(t)[i] != AllSeen(u)[i];
    if Serialize(t) == Serialize(u) {
      SerializeInjective(t, u);
    }
  }

  lemma SwapKeepsOrder(t: seq<Reading>, i: nat, j: nat)
    requires i < |t| && j < |t| && Sorted(t) && SameKey(ByDevice(), t[i], t[j])
    ensures SortedPermutation(t, t[i := t[j]][j := t[i]])
  {
    var u := t[i := t[j]][j := t[i]];
    forall a, b | 0 <= a < b < |u|
      ensures !Less(u[b], u[a])
    {
      assert SameKey(ByDevice(), u[a], t[a]) && SameKey(ByDevice(), u[b], t[b]);
    }
    assert multiset(u) == multiset(t);
  }

  ghost predicate UniformIds(rs: seq<Reading>, n: nat) {
    forall r :: r in rs ==> |r.deviceId| == n
  }

  lemma SameReadingsSameBytes(t: seq<Reading>, u: seq<Reading>)
    requires Sorted(t) && Sorted(u) && KeysDetermine(AllSeen(t)) && SamePermutation(AllSeen(t), AllSeen(u))
    ensures Serialize(t) == Serialize(u)
  {
    SeenSorted(t);
    SeenSorted(u);
    SortedUnique(AllSeen(t), AllSeen(u));
    SerializeIgnoresTimestamps(t);
    SerializeIgnoresTimestamps(u);
  }

  lemma UniformPermutation(a: seq<Reading>, t: seq<Reading>, n: nat)
    requires UniformIds(a, n) && SamePermutation(a, t)
    ensures UniformIds(t, n)
  {
    assert forall r :: r in t ==> r in multiset(a);
  }

  /** The same readings up to order and timestamps, seen through sorted arrangements. */
  lemma SeenThroughSorting(a: seq<Reading>, b: seq<Reading>, t: seq<Reading>, u: seq<Reading>)
    requires SamePermutation(a, t) && SamePermutation(b, u)
    ensures SamePermutation(AllSeen(a), AllSeen(b)) <==> SamePermutation(AllSeen(t), AllSeen(u))
  {
    SeenPermutation(a, t);
    SeenPermutation(b, u);
  }

  lemma SameBytesSameReadings(a: seq<Reading>, b: seq<Reading>, t: seq<Reading>, u: seq<Reading>, n: nat)
    requires UniformIds(a, n) && UniformIds(b, n) && SamePermutation(a, t) && SamePermutation(b, u)
    requires Serialize(t) == Serialize(u)
    ensures AllSeen(t) == AllSeen(u)
  {
    UniformPermutation(a, t, n);
    UniformPermutation(b, u, n);
    SerializeInjective(t, u);
  }

  /** On coherent readings whose device ids share one length, equal digest input
      means the same readings up to order and timestamps, and conversely. */
  lemma DigestIdentifiesReadings(a: seq<Reading>, b: seq<Reading>, n: nat)
    requires Coherent(a) && Coherent(b) && UniformIds(a, n) && UniformIds(b, n)
    ensures Serialize(SortReadings(a)) == Serialize(SortReadings(b)) <==> SamePermutation(AllSeen(a), AllSeen(b))
  {
    var t, u := SortReadings(a), SortReadings(b);
    SortReadingsSorts(a);
    SortReadingsSorts(b);
    SeenThroughSorting(a, b, t, u);
    CoherentSeen(t, a);
    if SamePermutation(AllSeen(t), AllSeen(u)) {
      SameReadingsSameBytes(t, u);
    }
    if Serialize(t) == Serialize(u) {
      SameBytesSameReadings(a, b, t, u, n);
    }
  }

  lemma SortTwo(x: Reading, y: Reading)
    requires !Less(y, x)
    ensures SortReadings([x, y]) == [x, y]
  {
    assert [x, y][..1] == [x];
    assert SortReadings([x]) == [x];
  }

  lemma SerializeTwo(x: Reading, y: Reading)
    ensures Serialize([x, y]) == Record(x) + Record(y)
  {
    assert [x, y][1..] == [y];
    assert Serialize([y]) == Record(y);
  }

  // ---- Mixed id lengths ----

  function Fill<T>(x: T, n: nat): (s: seq<T>)
    ensures |s| == n && forall i :: 0 <= i < n ==> s[i] == x
  {
    seq(n, _ => x)
  }

  lemma {:induction false} ZeroBytes(width: nat)
    ensures BigEndian(0, width) == Fill<byte>(0, width)
  {
    if width > 0 {
      ZeroBytes(width - 1);
      assert Fill<byte>(0, width) == Fill<byte>(0, width - 1) + [0];
    }
  }

  /** A reading of sequence 0 and value 0. */
  function Zero(id: seq<byte>): Reading { Reading(id, 0, 0, 0) }

  lemma ZeroRecord(id: seq<byte>)
    ensures Record(Zero(id)) == id + Fill<byte>(0, 17)
  {
    ZeroBytes(8);
    assert Record(Zero(id)) == id + Fill<byte>(0, 8) + Fill<byte>(0, 8) + [0];
  }

  lemma {:induction false} NothingBelowZeros(s: seq<byte>, n: nat)
    requires |s| >= n
    ensures !LexLess(s, Fill<byte>(0, n))
  {
    if n > 0 {
      assert Fill<byte>(0, n)[1..] == Fill<byte>(0, n - 1);
      NothingBelowZeros(s[1..], n - 1);
    }
  }

  lemma SameBytes(n: nat, m: nat)
    requires n < m
    ensures Record(Zero(Fill<byte>(0, n))) + Record(Zero(Fill<byte>(0, m - n) + Fill<byte>(1, n))) ==
            Record(Zero(Fill<byte>(0, m))) + Record(Zero(Fill<byte>(1, n)))
  {
    ZeroRecord(Fill<byte>(0, n));
    ZeroRecord(Fill<byte>(0, m - n) + Fill<byte>(1, n));
    ZeroRecord(Fill<byte>(0, m));
    ZeroRecord(Fill<byte>(1, n));
    var z := Fill<byte>(0, 17);
    assert (Fill<byte>(0, n) + z) + ((Fill<byte>(0, m - n) + Fill<byte>(1, n)) + z) ==
          ((Fill<byte>(0, n) + z) + Fill<byte>(0, m - n)) + Fill<byte>(1, n) + z;
    assert (Fill<byte>(0, n) + z) + Fill<byte>(0, m - n) == Fill<byte>(0, m) + z;
    assert (Fill<byte>(0, m) + z) + Fill<byte>(1, n) + z == (Fill<byte>(0, m) + z) + (Fill<byte>(1, n) + z);
  }

  lemma DifferentReadings(a0: Reading, a1: Reading, b0: Reading, b1: Reading)
    requires Seen(a0) == a0 && Seen(a1) == a1 && Seen(b0) == b0 && Seen(b1) == b1
    requires a0 != b0 && a0 != b1
    ensures !SamePermutation(AllSeen([a0, a1]), AllSeen([b0, b1]))
  {
    assert AllSeen([a0, a1]) == [a0, a1] && AllSeen([b0, b1]) == [b0, b1];
    assert a0 in multiset([a0, a1]) && a0 !in multiset([b0, b1]);
  }

  ghost predicate IdLengths(rs: seq<Reading>, lengths: set<nat>) {
    forall i :: 0 <= i < |rs| ==> |rs[i].deviceId| in lengths
  }

  /** Two different sets of coherent readings, with ids of these lengths, that hash the same bytes. */
  ghost predicate Collision(lengths: set<nat>, a: seq<Reading>, b: seq<Reading>) {
    && Coherent(a) && Coherent(b) && IdLengths(a, lengths) && IdLengths(b, lengths)
    && Serialize(SortReadings(a)) == Serialize(SortReadings(b)) && !SamePermutation(AllSeen(a), AllSeen(b))
  }

  lemma DistinctIsCoherent(rs: seq<Reading>)
    requires DistinctKeys(ByDevice(), rs)
    ensures Coherent(rs)
  {
    forall x, y | x in rs && y in rs && SameKey(ByDevice(), x, y)
      ensures x == y
    {
      var i :| 0 <= i < |rs| && rs[i] == x;
      var j :| 0 <= j < |rs| && rs[j] == y;
    }
  }

  /** Any two positive id lengths collide: no length is hashed, so a boundary
      can move between an id and the numbers after it. Neither side repeats a key. */
  lemma MixedIdLengthsCollide(n: nat, m: nat) returns (a: seq<Reading>, b: seq<Reading>)
    requires 0 < n < m
    ensures DistinctKeys(ByDevice(), a) && DistinctKeys(ByDevice(), b)
    ensures Collision({n, m}, a, b)
  {
    var a0, a1 := Zero(Fill<byte>(0, n)), Zero(Fill<byte>(0, m - n) + Fill<byte>(1, n));
    var b0, b1 := Zero(Fill<byte>(0, m)), Zero(Fill<byte>(1, n));
    a, b := [a0, a1], [b0, b1];
    assert |a0.deviceId| == |b1.deviceId| == n && |a1.deviceId| == |b0.deviceId| == m;
    assert !Less(a1, a0) by { NothingBelowZeros(a1.deviceId, n); }
    assert !Less(b1, b0) by { assert b1.deviceId[0] > b0.deviceId[0]; }
    SortTwo(a0, a1);
    SortTwo(b0, b1);
    SerializeTwo(a0, a1);
    SerializeTwo(b0, b1);
    SameBytes(n, m);
    assert a0.deviceId[0] != b1.deviceId[0];
    DifferentReadings(a0, a1, b0, b1);
    DistinctIsCoherent(a);
    DistinctIsCoherent(b);
  }

  // An empty id leaves only the sequence to tell readings apart, so the
  // collision with it repeats one reading.

  lemma {:induction false} CopiesSerialize(n: nat, k: nat)
    ensures Serialize(Fill(Zero(Fill<byte>(0, n)), k)) == Fill<byte>(0, k * (n + 17))
  {
    if k > 0 {
      var rs := Fill(Zero(Fill<byte>(0, n)), k);
      CopiesSerialize(n, k - 1);
      ZeroRecord(Fill<byte>(0, n));
      assert rs[1..] == Fill(Zero(Fill<byte>(0, n)), k - 1);
      OneMoreCopy(k, n + 17);
      assert Fill<byte>(0, n) + Fill<byte>(0, 17) + Fill<byte>(0, (k - 1) * (n + 17)) == Fill<byte>(0, k * (n + 17));
    }
  }

  lemma OneMoreCopy(k: nat, size: nat)
    requires k > 0
    ensures k * size == (k - 1) * size + size
  {
  }

  lemma CopiesSorted(r: Reading, k: nat)
    ensures SortReadings(Fill(r, k)) == Fill(r, k)
  {
    var rs, t := Fill(r, k), SortReadings(Fill(r, k));
    SortReadingsSorts(rs);
    assert |t| == |multiset(t)| == |multiset(rs)| == k;
    forall i | 0 <= i < |t|
      ensures t[i] == r
    {
      assert t[i] in multiset(rs);
    }
  }

  lemma CopiesDiffer(x: Reading, j: nat, y: Reading, k: nat)
    requires Seen(x) == x && Seen(y) == y && x != y && j > 0
    ensures !SamePermutation(AllSeen(Fill(x, j)), AllSeen(Fill(y, k)))
  {
    var a, b := AllSeen(Fill(x, j)), AllSeen(Fill(y, k));
    assert a[0] == x;
    assert x in multiset(a) && x !in multiset(b);
  }

  lemma CopiesCoherent(r: Reading, k: nat)
    ensures Coherent(Fill(r, k))
  {
    assert forall x :: x in Fill(r, k) ==> x == r;
  }

  /** j zero readings of id length n and k of id length m give the same bytes as soon as they give as many. */
  lemma CopiesCollide(n: nat, j: nat, m: nat, k: nat)
    requires j * (n + 17) == k * (m + 17) && n != m && j > 0
    ensures var a, b := Fill(Zero(Fill<byte>(0, n)), j), Fill(Zero(Fill<byte>(0, m)), k);
            Serialize(SortReadings(a)) == Serialize(SortReadings(b)) && !SamePermutation(AllSeen(a), AllSeen(b))
  {
    var x, y := Zero(Fill<byte>(0, n)), Zero(Fill<byte>(0, m));
    CopiesSorted(x, j);
    CopiesSorted(y, k);
    CopiesSerialize(n, j);
    CopiesSerialize(m, k);
    assert |x.deviceId| != |y.deviceId|;
    CopiesDiffer(x, j, y, k);
  }

  lemma EmptyIdCollides(m: nat) returns (a: seq<Reading>, b: seq<Reading>)
    requires 0 < m
    ensures Collision({0, m}, a, b)
  {
    var k := 17;
    a, b := Fill(Zero(Fill<byte>(0, 0)), m + k), Fill(Zero(Fill<byte>(0, m)), k);
    CopiesCoherent(Zero(Fill<byte>(0, 0)), m + k);
    CopiesCoherent(Zero(Fill<byte>(0, m)), k);
    CopiesCollide(0, m + k, m, k);
  }

  /** Among coherent readings with ids of these lengths, the hashed bytes tell
      the readings apart, up to order and timestamps. */
  ghost predicate Identifies(lengths: set<nat>) {
    forall a, b :: !Collision(lengths, a, b)
  }

  lemma TwoLengthsCollide(lengths: set<nat>, n: nat, m: nat)
    requires n in lengths && m in lengths && n < m
    ensures !Identifies(lengths)
  {
    var a, b;
    if n == 0 {
      a, b := EmptyIdCollides(m);
    } else {
      a, b := MixedIdLengthsCollide(n, m);
    }
    CollisionWidens({n, m}, lengths, a, b);
  }

  lemma CollisionWidens(small: set<nat>, large: set<nat>, a: seq<Reading>, b: seq<Reading>)
    requires small <= large && Collision(small, a, b)
    ensures Collision(large, a, b)
  {
  }

  lemma OneLengthIdentifies(lengths: set<nat>, n: nat)
    requires forall m :: m in lengths ==> m == n
    ensures Identifies(lengths)
  {
    forall a, b | IdLengths(a, lengths) && IdLengths(b, lengths) && Coherent(a) && Coherent(b)
      ensures !Collision(lengths, a, b)
    {
      DigestIdentifiesReadings(a, b, n);
    }
  }

  /** A set of id lengths is safe for the digest if and only if it holds at most one. */
  lemma DigestSafeForOneLength(lengths: set<nat>)
    ensures Identifies(lengths) <==> forall n, m :: n in lengths && m in lengths ==> n == m
  {
    if n, m :| n in lengths && m in lengths && n < m {
      TwoLengthsCollide(lengths, n, m);
    } else {
      OneLengthIdentifies(lengths, if n :| n in lengths then n else 0);
    }
  }
}
