/** internal/segment/diff.go: comparing two profile-id sets. */
module Diff {

  datatype SegmentDiff = SegmentDiff(segmentId: string, incrementalSize: nat, recomputeSize: nat,
                                     onlyIncremental: nat, onlyRecompute: nat)
  {
    predicate Exact() { onlyIncremental == 0 && onlyRecompute == 0 }
  }

  lemma MissingStep(a: set<string>, b: set<string>, left: set<string>, id: string)
    requires left <= a && id in left
    ensures |(a - (left - {id})) - b| == |(a - left) - b| + if id in b then 0 else 1
  {
    var done := (a - left) - b;
    if id in b {
      assert (a - (left - {id})) - b == done;
    } else {
      assert (a - (left - {id})) - b == done + {id};
    }
  }

  /** How many of a are not in b. */
  method CountMissing(a: set<string>, b: set<string>) returns (n: nat)
    ensures n == |a - b|
  {
    n := 0;
    var left := a;
    while left != {}
      invariant left <= a
      invariant n == |(a - left) - b|
      decreases |left|
    {
      var id :| id in left;
      MissingStep(a, b, left, id);
      if id !in b {
        n := n + 1;
      }
      left := left - {id};
    }
    assert a - left == a;
  }

  method DiffSets(segmentId: string, incremental: set<string>, recompute: set<string>) returns (d: SegmentDiff)
    ensures d.segmentId == segmentId
    ensures d.incrementalSize == |incremental| && d.recomputeSize == |recompute|
    ensures d.onlyIncremental == |incremental - recompute| && d.onlyRecompute == |recompute - incremental|
    ensures d.Exact() <==> incremental == recompute
  {
    var onlyIncremental := CountMissing(incremental, recompute);
    var onlyRecompute := CountMissing(recompute, incremental);
    d := SegmentDiff(segmentId, |incremental|, |recompute|, onlyIncremental, onlyRecompute);
    if d.Exact() {
      assert incremental - recompute == {} && recompute - incremental == {};
    }
  }
}
