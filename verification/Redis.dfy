/** The Redis commands the engine issues, over string sets and sorted sets. An
    empty set has no key, as in Redis. */
module Redis {

  type Sets = map<string, set<string>>

  function SMembers(m: Sets, k: string): set<string> { if k in m then m[k] else {} }

  function Put(m: Sets, k: string, s: set<string>): Sets { if s == {} then m - {k} else m[k := s] }

  function SAdd(m: Sets, k: string, v: string): Sets { Put(m, k, SMembers(m, k) + {v}) }

  function SRem(m: Sets, k: string, v: string): Sets { Put(m, k, SMembers(m, k) - {v}) }

  ghost predicate Canonical(m: Sets) { forall k :: k in m ==> m[k] != {} }

  /** id is listed under p on one side exactly when p is listed under id on the other. */
  ghost predicate Converse(f: Sets, g: Sets) {
    forall p, id :: id in SMembers(f, p) <==> p in SMembers(g, id)
  }

  lemma SameMembersSameKeys(a: Sets, b: Sets)
    requires Canonical(a) && Canonical(b)
    requires forall k :: SMembers(a, k) == SMembers(b, k)
    ensures a == b
  {
    assert forall k :: k in a <==> SMembers(a, k) != {};
    assert forall k :: k in b <==> SMembers(b, k) != {};
    assert a.Keys == b.Keys;
    assert forall k :: k in a ==> a[k] == SMembers(a, k) == SMembers(b, k) == b[k];
  }

  /** One index determines the other. */
  lemma ConverseUnique(f: Sets, g: Sets, h: Sets)
    requires Canonical(g) && Canonical(h) && Converse(f, g) && Converse(f, h)
    ensures g == h
  {
    forall id
      ensures SMembers(g, id) == SMembers(h, id)
    {
      assert forall p :: p in SMembers(g, id) <==> id in SMembers(f, p);
      assert forall p :: p in SMembers(h, id) <==> id in SMembers(f, p);
    }
    SameMembersSameKeys(g, h);
  }

  function Listed(f: Sets): set<string> { set p, id | p in f && id in f[p] :: id }

  function HoldersOf(f: Sets, id: string): set<string> { set p | p in f && id in f[p] }

  function Invert(f: Sets): Sets { map id | id in Listed(f) :: HoldersOf(f, id) }

  lemma InvertIsConverse(f: Sets)
    ensures Canonical(Invert(f)) && Converse(f, Invert(f))
  {
    forall p, id
      ensures id in SMembers(f, p) <==> p in SMembers(Invert(f), id)
    {
    }
    forall id | id in Invert(f)
      ensures Invert(f)[id] != {}
    {
      var p :| p in f && id in f[p];
      assert p in HoldersOf(f, id);
    }
  }

  lemma PutMembers(m: Sets, k: string, s: set<string>)
    requires Canonical(m)
    ensures Canonical(Put(m, k, s))
    ensures forall j :: SMembers(Put(m, k, s), j) == if j == k then s else SMembers(m, j)
  {
  }

  predicate Has(m: Sets, k: string, v: string) { v in SMembers(m, k) }

  lemma SAddHas(m: Sets, k: string, v: string)
    requires Canonical(m)
    ensures Canonical(SAdd(m, k, v))
    ensures forall j, w :: Has(SAdd(m, k, v), j, w) <==> Has(m, j, w) || (j == k && w == v)
  {
    PutMembers(m, k, SMembers(m, k) + {v});
  }

  lemma SRemHas(m: Sets, k: string, v: string)
    requires Canonical(m)
    ensures Canonical(SRem(m, k, v))
    ensures forall j, w :: Has(SRem(m, k, v), j, w) <==> Has(m, j, w) && !(j == k && w == v)
  {
    PutMembers(m, k, SMembers(m, k) - {v});
  }

  /** f and g are f0 and g0 after the pairs (p, id) with id in ids have been added to both. */
  ghost predicate Entered(f0: Sets, g0: Sets, f: Sets, g: Sets, p: string, ids: set<string>) {
    && Canonical(f) && Canonical(g)
    && (forall q, id :: Has(f, q, id) <==> Has(f0, q, id) || (q == p && id in ids))
    && (forall q, id :: Has(g, id, q) <==> Has(g0, id, q) || (q == p && id in ids))
  }

  /** ... or removed from both. */
  ghost predicate Departed(f0: Sets, g0: Sets, f: Sets, g: Sets, p: string, ids: set<string>) {
    && Canonical(f) && Canonical(g)
    && (forall q, id :: Has(f, q, id) <==> Has(f0, q, id) && !(q == p && id in ids))
    && (forall q, id :: Has(g, id, q) <==> Has(g0, id, q) && !(q == p && id in ids))
  }

  // ---- Sorted sets: member to score ----

  type ZSet = map<string, int>

  function ZAdd(z: ZSet, score: int, member: string): ZSet { z[member := score] }

  /** ZREMRANGEBYSCORE -inf .. max. */
  function ZRemUpTo(z: ZSet, max: int): ZSet { map m | m in z && z[m] > max :: z[m] }

  /** The members ZCOUNT counts and ZRANGEBYSCORE returns; both ends inclusive. */
  function ZRange(z: ZSet, min: int, max: int): set<string> { set m | m in z && min <= z[m] <= max }
}
