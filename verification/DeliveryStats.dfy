/** internal/deliverystats/clickhouse.go: per-minute rollups of the delivery log,
    and the queries answered from the rollup and from the log. */
module DeliveryStats {
  import opened Sequences

  datatype Webhook = Webhook(webhookId: string, messageId: string, channel: string, status: string,
                             timestampMs: int, provider: string)

  /** A bucket: minutes since the epoch, channel, status. */
  datatype Bucket = Bucket(minute: int, channel: string, status: string)

  datatype RollupRow = RollupRow(bucket: Bucket, count: int)

  const MINUTE_MS := 60_000

  function BucketOf(w: Webhook): Bucket { Bucket(w.timestampMs / MINUTE_MS, w.channel, w.status) }

  function In(b: Bucket): Webhook -> bool { (w: Webhook) => BucketOf(w) == b }

  // ---- GROUP BY minute, channel, status ----

  function Bump(rollup: seq<RollupRow>, b: Bucket): seq<RollupRow> {
    if rollup == [] then [RollupRow(b, 1)]
    else if rollup[|rollup| - 1].bucket == b then
      rollup[..|rollup| - 1] + [RollupRow(b, rollup[|rollup| - 1].count + 1)]
    else Bump(rollup[..|rollup| - 1], b) + [rollup[|rollup| - 1]]
  }

  /** The rebuilt rollup: one row a non-empty bucket. */
  function Rollup(raw: seq<Webhook>): seq<RollupRow> {
    if raw == [] then [] else Bump(Rollup(raw[..|raw| - 1]), BucketOf(raw[|raw| - 1]))
  }

  function CountIn(b: Bucket): RollupRow -> int { (r: RollupRow) => if r.bucket == b then r.count else 0 }

  /** sum(event_count) over the rows of one bucket. */
  function BucketSum(rollup: seq<RollupRow>, b: Bucket): int { SumBy(rollup, CountIn(b)) }

  /** A measure of rollup rows that adds up over rows of one bucket. */
  ghost predicate Additive(f: RollupRow -> int) {
    forall b, m: int, n: int :: f(RollupRow(b, m + n)) == f(RollupRow(b, m)) + f(RollupRow(b, n))
  }

  lemma {:induction false} BumpAdds(rollup: seq<RollupRow>, b: Bucket, f: RollupRow -> int)
    requires Additive(f)
    ensures SumBy(Bump(rollup, b), f) == SumBy(rollup, f) + f(RollupRow(b, 1))
  {
    if rollup != [] {
      var init, last := rollup[..|rollup| - 1], rollup[|rollup| - 1];
      if last.bucket == b {
        assert last == RollupRow(b, last.count);
        assert f(RollupRow(b, last.count + 1)) == f(last) + f(RollupRow(b, 1));
      } else {
        BumpAdds(init, b, f);
      }
    }
  }

  /** Each rollup bucket holds exactly the number of log rows in it. */
  lemma {:induction false} RollupCountsBuckets(raw: seq<Webhook>, b: Bucket)
    ensures BucketSum(Rollup(raw), b) == |Filter(raw, In(b))|
  {
    if raw != [] {
      var init, x := raw[..|raw| - 1], raw[|raw| - 1];
      RollupCountsBuckets(init, b);
      BumpAdds(Rollup(init), BucketOf(x), CountIn(b));
    }
  }

  ghost predicate BucketsDistinct(rollup: seq<RollupRow>) {
    forall i, j :: 0 <= i < j < |rollup| ==> rollup[i].bucket != rollup[j].bucket
  }

  lemma {:induction false} BumpKeepsDistinct(rollup: seq<RollupRow>, b: Bucket)
    requires BucketsDistinct(rollup)
    ensures BucketsDistinct(Bump(rollup, b))
    ensures forall i :: 0 <= i < |Bump(rollup, b)| ==>
              Bump(rollup, b)[i].bucket == b || exists j :: 0 <= j < |rollup| && rollup[j].bucket == Bump(rollup, b)[i].bucket
  {
    if rollup != [] {
      var init, last := rollup[..|rollup| - 1], rollup[|rollup| - 1];
      assert BucketsDistinct(init);
      if last.bucket != b {
        BumpKeepsDistinct(init, b);
        forall i | 0 <= i < |Bump(init, b)|
          ensures Bump(init, b)[i].bucket != last.bucket
        {
          if Bump(init, b)[i].bucket != b {
            var j :| 0 <= j < |init| && init[j].bucket == Bump(init, b)[i].bucket;
            assert rollup[j].bucket != rollup[|rollup| - 1].bucket;
          }
        }
      }
    }
  }

  /** GROUP BY gives one row a bucket. */
  lemma {:induction false} RollupBucketsDistinct(raw: seq<Webhook>)
    ensures BucketsDistinct(Rollup(raw))
  {
    if raw != [] {
      RollupBucketsDistinct(raw[..|raw| - 1]);
      BumpKeepsDistinct(Rollup(raw[..|raw| - 1]), BucketOf(raw[|raw| - 1]));
    }
  }

  ghost predicate NoEmptyRow(rollup: seq<RollupRow>) {
    forall i :: 0 <= i < |rollup| ==> rollup[i].count >= 1
  }

  lemma {:induction false} BumpKeepsPositive(rollup: seq<RollupRow>, b: Bucket)
    requires NoEmptyRow(rollup)
    ensures NoEmptyRow(Bump(rollup, b))
  {
    if rollup != [] {
      BumpKeepsPositive(rollup[..|rollup| - 1], b);
    }
  }

  /** No rollup row is empty, so a query row is present exactly when its count is not 0. */
  lemma {:induction false} RollupRowsPositive(raw: seq<Webhook>)
    ensures NoEmptyRow(Rollup(raw))
  {
    if raw != [] {
      RollupRowsPositive(raw[..|raw| - 1]);
      BumpKeepsPositive(Rollup(raw[..|raw| - 1]), BucketOf(raw[|raw| - 1]));
    }
  }

  // ---- Totals by channel and status ----

  function OfPair(channel: string, status: string): Webhook -> bool {
    (w: Webhook) => w.channel == channel && w.status == status
  }

  function CountOfPair(channel: string, status: string): RollupRow -> int {
    (r: RollupRow) => if r.bucket.channel == channel && r.bucket.status == status then r.count else 0
  }

  /** RecomputeChannelStatusCounts at one pair. */
  function RawTotal(raw: seq<Webhook>, channel: string, status: string): int { |Filter(raw, OfPair(channel, status))| }

  /** RollupChannelStatusCounts at one pair. */
  function RollupTotal(rollup: seq<RollupRow>, channel: string, status: string): int {
    SumBy(rollup, CountOfPair(channel, status))
  }

  /** Counts exact against a recompute, for any log. */
  lemma {:induction false} RollupMatchesRecompute(raw: seq<Webhook>, channel: string, status: string)
    ensures RollupTotal(Rollup(raw), channel, status) == RawTotal(raw, channel, status)
  {
    if raw != [] {
      var init, x := raw[..|raw| - 1], raw[|raw| - 1];
      RollupMatchesRecompute(init, channel, status);
      BumpAdds(Rollup(init), BucketOf(x), CountOfPair(channel, status));
    }
  }

  // ---- SummingMergeTree ----

  /** A background merge: two rows of one bucket become one. */
  ghost predicate Merged(before: seq<RollupRow>, after: seq<RollupRow>) {
    exists i, j :: 0 <= i < j < |before| && MergedAt(before, after, i, j)
  }

  predicate MergedAt(before: seq<RollupRow>, after: seq<RollupRow>, i: nat, j: nat)
    requires i < j < |before|
  {
    && before[i].bucket == before[j].bucket
    && after == before[..i] + [RollupRow(before[i].bucket, before[i].count + before[j].count)]
                + before[i + 1..j] + before[j + 1..]
  }

  /** after is reached from before by n merges, one after another. */
  ghost predicate MergedInto(before: seq<RollupRow>, after: seq<RollupRow>, n: nat)
    decreases n
  {
    if n == 0 then before == after
    else exists mid :: MergedInto(before, mid, n - 1) && Merged(mid, after)
  }

  lemma MergeTwo(a: seq<RollupRow>, x: RollupRow, mid: seq<RollupRow>, y: RollupRow, tail: seq<RollupRow>,
                 f: RollupRow -> int)
    requires x.bucket == y.bucket && Additive(f)
    ensures SumBy(a + [RollupRow(x.bucket, x.count + y.count)] + mid + tail, f) == SumBy(a + [x] + mid + [y] + tail, f)
  {
    var sum := RollupRow(x.bucket, x.count + y.count);
    SumByConcat(a + [sum] + mid, tail, f);
    SumByConcat(a + [sum], mid, f);
    SumByConcat(a, [sum], f);
    SumByConcat(a + [x] + mid + [y], tail, f);
    SumByConcat(a + [x] + mid, [y], f);
    SumByConcat(a + [x], mid, f);
    SumByConcat(a, [x], f);
    assert f(sum) == f(RollupRow(x.bucket, x.count)) + f(RollupRow(x.bucket, y.count));
    assert RollupRow(x.bucket, x.count) == x && RollupRow(x.bucket, y.count) == y;
  }

  lemma MergeKeepsSums(before: seq<RollupRow>, after: seq<RollupRow>, f: RollupRow -> int)
    requires Merged(before, after) && Additive(f)
    ensures SumBy(after, f) == SumBy(before, f)
  {
    var i, j :| 0 <= i < j < |before| && MergedAt(before, after, i, j);
    MergeAtKeepsSums(before, after, i, j, f);
  }

  lemma MergeAtKeepsSums(before: seq<RollupRow>, after: seq<RollupRow>, i: nat, j: nat, f: RollupRow -> int)
    requires i < j < |before| && MergedAt(before, after, i, j) && Additive(f)
    ensures SumBy(after, f) == SumBy(before, f)
  {
    SplitAtTwo(before, i, j);
    MergeTwo(before[..i], before[i], before[i + 1..j], before[j], before[j + 1..], f);
  }

  lemma SplitAtTwo<T>(s: seq<T>, i: nat, j: nat)
    requires i < j < |s|
    ensures s == s[..i] + [s[i]] + s[i + 1..j] + [s[j]] + s[j + 1..]
  {
  }

  /** No sequence of merges changes any sum read from the rollup. */
  lemma {:induction false} MergesKeepSums(before: seq<RollupRow>, after: seq<RollupRow>, n: nat, f: RollupRow -> int)
    requires MergedInto(before, after, n) && Additive(f)
    ensures SumBy(after, f) == SumBy(before, f)
    decreases n
  {
    if n > 0 {
      var mid :| MergedInto(before, mid, n - 1) && Merged(mid, after);
      MergesKeepSums(before, mid, n - 1, f);
      MergeKeepsSums(mid, after, f);
    }
  }

  // ---- Several inserts, merged ----

  function Flat(parts: seq<seq<Webhook>>): seq<Webhook> {
    if parts == [] then [] else Flat(parts[..|parts| - 1]) + parts[|parts| - 1]
  }

  /** The table when each part of the log is rolled up by an insert of its own. */
  function InParts(parts: seq<seq<Webhook>>): seq<RollupRow> {
    if parts == [] then [] else InParts(parts[..|parts| - 1]) + Rollup(parts[|parts| - 1])
  }

  lemma {:induction false} RollupConcat(a: seq<Webhook>, b: seq<Webhook>, f: RollupRow -> int)
    requires Additive(f)
    ensures SumBy(Rollup(a + b), f) == SumBy(Rollup(a), f) + SumBy(Rollup(b), f)
  {
    if b == [] {
      assert a + b == a;
    } else {
      var init, x := b[..|b| - 1], b[|b| - 1];
      assert (a + b)[..|a + b| - 1] == a + init && (a + b)[|a + b| - 1] == x;
      RollupConcat(a, init, f);
      BumpAdds(Rollup(a + init), BucketOf(x), f);
      BumpAdds(Rollup(init), BucketOf(x), f);
    }
  }

  lemma {:induction false} PartsAddUp(parts: seq<seq<Webhook>>, f: RollupRow -> int)
    requires Additive(f)
    ensures SumBy(InParts(parts), f) == SumBy(Rollup(Flat(parts)), f)
  {
    if parts != [] {
      var init, last := parts[..|parts| - 1], parts[|parts| - 1];
      PartsAddUp(init, f);
      RollupConcat(Flat(init), last, f);
      SumByConcat(InParts(init), Rollup(last), f);
    }
  }

  /** The totals equal a recompute whatever inserts the log was rolled up in and
      however far the table has been merged since. */
  lemma MergedRollupMatchesRecompute(parts: seq<seq<Webhook>>, rollup: seq<RollupRow>, n: nat, channel: string,
                                     status: string)
    requires MergedInto(InParts(parts), rollup, n)
    ensures RollupTotal(rollup, channel, status) == RawTotal(Flat(parts), channel, status)
  {
    MergesKeepSums(InParts(parts), rollup, n, CountOfPair(channel, status));
    PartsAddUp(parts, CountOfPair(channel, status));
    RollupMatchesRecompute(Flat(parts), channel, status);
  }

  lemma {:induction false} PartsPositive(parts: seq<seq<Webhook>>)
    ensures NoEmptyRow(InParts(parts))
  {
    if parts != [] {
      PartsPositive(parts[..|parts| - 1]);
      RollupRowsPositive(parts[|parts| - 1]);
    }
  }

  lemma MergeKeepsPositive(before: seq<RollupRow>, after: seq<RollupRow>)
    requires Merged(before, after) && NoEmptyRow(before)
    ensures NoEmptyRow(after)
  {
    var i, j :| 0 <= i < j < |before| && MergedAt(before, after, i, j);
    var sum := RollupRow(before[i].bucket, before[i].count + before[j].count);
    forall k | 0 <= k < |after|
      ensures after[k].count >= 1
    {
      assert after[k] == if k == i then sum else if k < j then before[k] else before[k + 1];
    }
  }

  lemma {:induction false} MergesKeepPositive(before: seq<RollupRow>, after: seq<RollupRow>, n: nat)
    requires MergedInto(before, after, n) && NoEmptyRow(before)
    ensures NoEmptyRow(after)
    decreases n
  {
    if n > 0 {
      var mid :| MergedInto(before, mid, n - 1) && Merged(mid, after);
      MergesKeepPositive(before, mid, n - 1);
      MergeKeepsPositive(mid, after);
    }
  }

  lemma {:induction false} AbsentBucket(rollup: seq<RollupRow>, b: Bucket)
    requires forall i :: 0 <= i < |rollup| ==> rollup[i].bucket != b
    ensures BucketSum(rollup, b) == 0
  {
    if rollup != [] {
      AbsentBucket(rollup[..|rollup| - 1], b);
    }
  }

  /** With one row a bucket, the sums say which rows there are. */
  lemma {:induction false} RowsFromSums(rollup: seq<RollupRow>, r: RollupRow)
    requires BucketsDistinct(rollup) && NoEmptyRow(rollup)
    ensures multiset(rollup)[r] == if r.count >= 1 && BucketSum(rollup, r.bucket) == r.count then 1 else 0
  {
    if rollup != [] {
      var init, last := rollup[..|rollup| - 1], rollup[|rollup| - 1];
      assert rollup == init + [last];
      RowsFromSums(init, r);
      if last.bucket == r.bucket {
        AbsentBucket(init, r.bucket);
      }
    }
  }

  lemma SameSumsSameRows(a: seq<RollupRow>, b: seq<RollupRow>)
    requires BucketsDistinct(a) && NoEmptyRow(a) && BucketsDistinct(b) && NoEmptyRow(b)
    requires forall k :: BucketSum(a, k) == BucketSum(b, k)
    ensures SamePermutation(a, b)
  {
    forall r: RollupRow
      ensures multiset(a)[r] == multiset(b)[r]
    {
      RowsFromSums(a, r);
      RowsFromSums(b, r);
    }
  }

  lemma TwiceIn(rollup: seq<RollupRow>, i: nat, j: nat)
    requires i < j < |rollup| && rollup[i] == rollup[j]
    ensures multiset(rollup)[rollup[i]] >= 2
  {
    SplitAtTwo(rollup, i, j);
    assert multiset(rollup) == multiset(rollup[..i]) + multiset{rollup[i]} + multiset(rollup[i + 1..j]) + multiset{rollup[j]}
                               + multiset(rollup[j + 1..]);
  }

  lemma RearrangedStaysDistinct(rollup: seq<RollupRow>, other: seq<RollupRow>)
    requires BucketsDistinct(other) && NoEmptyRow(other) && SamePermutation(rollup, other)
    ensures BucketsDistinct(rollup)
  {
    forall i, j | 0 <= i < j < |rollup|
      ensures rollup[i].bucket != rollup[j].bucket
    {
      assert rollup[i] in multiset(rollup) && rollup[j] in multiset(rollup);
      RowsFromSums(other, rollup[i]);
      RowsFromSums(other, rollup[j]);
      if rollup[i] == rollup[j] {
        TwiceIn(rollup, i, j);
      }
    }
  }

  /** A merge is left exactly while two rows share a bucket. */
  lemma SettledExactly(rollup: seq<RollupRow>)
    ensures (forall after :: !Merged(rollup, after)) <==> BucketsDistinct(rollup)
  {
    forall i, j | 0 <= i < j < |rollup| && rollup[i].bucket == rollup[j].bucket
      ensures exists after :: Merged(rollup, after)
    {
      var after := OneMerge(rollup, i, j);
    }
  }

  lemma OneMerge(rollup: seq<RollupRow>, i: nat, j: nat) returns (after: seq<RollupRow>)
    requires i < j < |rollup| && rollup[i].bucket == rollup[j].bucket
    ensures Merged(rollup, after) && |after| < |rollup|
  {
    after := rollup[..i] + [RollupRow(rollup[i].bucket, rollup[i].count + rollup[j].count)]
             + rollup[i + 1..j] + rollup[j + 1..];
    assert MergedAt(rollup, after, i, j);
  }

  /** Separate inserts come to the rebuilt rollup, up to order, exactly when no merge is left. */
  lemma SettledIsRebuilt(parts: seq<seq<Webhook>>, rollup: seq<RollupRow>, n: nat)
    requires MergedInto(InParts(parts), rollup, n)
    ensures (forall after :: !Merged(rollup, after)) <==> SamePermutation(rollup, Rollup(Flat(parts)))
  {
    var rebuilt := Rollup(Flat(parts));
    PartsPositive(parts);
    MergesKeepPositive(InParts(parts), rollup, n);
    RollupRowsPositive(Flat(parts));
    RollupBucketsDistinct(Flat(parts));
    SettledExactly(rollup);
    if BucketsDistinct(rollup) {
      forall b
        ensures BucketSum(rollup, b) == BucketSum(rebuilt, b)
      {
        MergesKeepSums(InParts(parts), rollup, n, CountIn(b));
        PartsAddUp(parts, CountIn(b));
      }
      SameSumsSameRows(rollup, rebuilt);
    } else if SamePermutation(rollup, rebuilt) {
      RearrangedStaysDistinct(rollup, rebuilt);
    }
  }

  lemma {:induction false} MergeFirst(before: seq<RollupRow>, mid: seq<RollupRow>, after: seq<RollupRow>, n: nat)
    requires Merged(before, mid) && MergedInto(mid, after, n)
    ensures MergedInto(before, after, n + 1)
    decreases n
  {
    if n == 0 {
      assert MergedInto(before, before, 0);
    } else {
      var last :| MergedInto(mid, last, n - 1) && Merged(last, after);
      MergeFirst(before, mid, last, n - 1);
    }
  }

  /** Merging gets there. */
  lemma {:induction false} MergesSettle(rollup: seq<RollupRow>) returns (after: seq<RollupRow>, n: nat)
    ensures MergedInto(rollup, after, n) && BucketsDistinct(after)
    decreases |rollup|
  {
    if BucketsDistinct(rollup) {
      after, n := rollup, 0;
    } else {
      var i, j :| 0 <= i < j < |rollup| && rollup[i].bucket == rollup[j].bucket;
      var mid := OneMerge(rollup, i, j);
      after, n := MergesSettle(mid);
      MergeFirst(rollup, mid, after, n);
      n := n + 1;
    }
  }

  // ---- Dashboard queries ----

  function InSince(b: Bucket, start: int): Webhook -> bool {
    (w: Webhook) => BucketOf(w) == b && w.timestampMs >= start
  }

  function WebhookIds(rows: seq<Webhook>): set<string> { set i | 0 <= i < |rows| :: rows[i].webhookId }

  /** DashboardRawQuery at one bucket: distinct webhook ids at or after the start; 0 stands for no row. */
  function DashboardRaw(raw: seq<Webhook>, b: Bucket, start: int): int {
    |WebhookIds(Filter(raw, InSince(b, start)))|
  }

  /** DashboardRollupQuery at one bucket: the start is formatted to whole
      seconds, and the whole bucket counts or none of it. */
  function DashboardRollup(rollup: seq<RollupRow>, b: Bucket, start: int): int {
    if b.minute * 60 >= start / 1000 then BucketSum(rollup, b) else 0
  }

  function WebhookIdOf(): Webhook -> string { (w: Webhook) => w.webhookId }

  ghost predicate IdsUnique(raw: seq<Webhook>) { DistinctBy(raw, WebhookIdOf()) }

  lemma WebhookIdsSnoc(rows: seq<Webhook>)
    requires rows != []
    ensures var init, x := rows[..|rows| - 1], rows[|rows| - 1];
            && WebhookIds(rows) == WebhookIds(init) + {x.webhookId}
            && (IdsUnique(rows) <==> IdsUnique(init) && x.webhookId !in WebhookIds(init))
  {
    var init, x := rows[..|rows| - 1], rows[|rows| - 1];
    assert forall i :: 0 <= i < |init| ==> init[i] == rows[i];
    assert WebhookIds(rows) == WebhookIds(init) + {x.webhookId};
    if IdsUnique(init) && x.webhookId !in WebhookIds(init) {
      forall i, j | 0 <= i < j < |rows|
        ensures WebhookIdOf()(rows[i]) != WebhookIdOf()(rows[j])
      {
        assert j < |init| ==> WebhookIdOf()(init[i]) != WebhookIdOf()(init[j]);
      }
    }
    if IdsUnique(rows) {
      forall i | 0 <= i < |init|
        ensures init[i].webhookId != x.webhookId
      {
        assert WebhookIdOf()(rows[i]) != WebhookIdOf()(rows[|rows| - 1]);
      }
    }
  }

  /** uniqExact counts the rows exactly when no id repeats, and fewer otherwise. */
  lemma {:induction false} DistinctIdsCount(rows: seq<Webhook>)
    ensures |WebhookIds(rows)| <= |rows|
    ensures |WebhookIds(rows)| == |rows| <==> IdsUnique(rows)
    ensures |WebhookIds(rows)| == 0 <==> rows == []
  {
    if rows != [] {
      DistinctIdsCount(rows[..|rows| - 1]);
      WebhookIdsSnoc(rows);
    }
  }

  /** The bucket the window start cuts in two. */
  predicate Straddles(b: Bucket, start: int) { b.minute * MINUTE_MS < start < (b.minute + 1) * MINUTE_MS }

  /** Which side of the cut the rollup cannot see: less than a second into the
      minute it serves the whole bucket, later it serves none of it. */
  predicate ServedWhole(b: Bucket, start: int) { b.minute * 60 >= start / 1000 }

  /** No log row of the straddled bucket lies on the side the rollup gets wrong. */
  ghost predicate CutClear(raw: seq<Webhook>, b: Bucket, start: int) {
    Straddles(b, start) ==>
      forall i :: 0 <= i < |raw| && BucketOf(raw[i]) == b ==>
        (raw[i].timestampMs < start <==> !ServedWhole(b, start))
  }

  /** Over a rebuilt rollup, merged or not, the two dashboards agree at a bucket
      exactly when the cut is clear and, in a bucket the rollup serves, no
      webhook id repeats. */
  lemma DashboardsAgreeExactly(raw: seq<Webhook>, rollup: seq<RollupRow>, n: nat, b: Bucket, start: int)
    requires MergedInto(Rollup(raw), rollup, n)
    ensures DashboardRaw(raw, b, start) == DashboardRollup(rollup, b, start) <==>
            CutClear(raw, b, start) && (ServedWhole(b, start) ==> IdsUnique(Filter(raw, In(b))))
  {
    RollupServes(raw, rollup, n, b, start);
    RawMatchesServed(raw, b, start);
  }

  /** The rows the rollup counts at a bucket: all of them or none. */
  function Served(raw: seq<Webhook>, b: Bucket, start: int): int {
    if ServedWhole(b, start) then |Filter(raw, In(b))| else 0
  }

  lemma RollupServes(raw: seq<Webhook>, rollup: seq<RollupRow>, n: nat, b: Bucket, start: int)
    requires MergedInto(Rollup(raw), rollup, n)
    ensures DashboardRollup(rollup, b, start) == Served(raw, b, start)
  {
    MergesKeepSums(Rollup(raw), rollup, n, CountIn(b));
    RollupCountsBuckets(raw, b);
  }

  lemma RawMatchesServed(raw: seq<Webhook>, b: Bucket, start: int)
    ensures DashboardRaw(raw, b, start) == Served(raw, b, start) <==>
            CutClear(raw, b, start) && (ServedWhole(b, start) ==> IdsUnique(Filter(raw, In(b))))
  {
    DistinctIdsCount(Filter(raw, InSince(b, start)));
    CutCounts(raw, b, start);
    NoMoreSince(raw, b, start);
    if ServedWhole(b, start) && CutClear(raw, b, start) {
      ServedRows(raw, b, start);
    }
  }

  lemma NoMoreSince(raw: seq<Webhook>, b: Bucket, start: int)
    ensures |Filter(raw, InSince(b, start))| <= |Filter(raw, In(b))|
  {
    SumOfOnes(Filter(raw, InSince(b, start)));
    SumOfOnes(Filter(raw, In(b)));
    FilterSumMonotone(raw, InSince(b, start), In(b), One());
  }

  lemma ServedRows(raw: seq<Webhook>, b: Bucket, start: int)
    requires ServedWhole(b, start) && CutClear(raw, b, start)
    ensures Filter(raw, InSince(b, start)) == Filter(raw, In(b))
  {
    forall w | w in raw
      ensures InSince(b, start)(w) == In(b)(w)
    {
      var i :| 0 <= i < |raw| && raw[i] == w;
      assert Straddles(b, start) && BucketOf(raw[i]) == b ==> (raw[i].timestampMs < start <==> !ServedWhole(b, start));
    }
    FilterAgrees(raw, InSince(b, start), In(b));
  }

  lemma CutCounts(raw: seq<Webhook>, b: Bucket, start: int)
    ensures |Filter(raw, InSince(b, start))| == Served(raw, b, start) <==> CutClear(raw, b, start)
  {
    SumOfOnes(Filter(raw, InSince(b, start)));
    SumOfOnes(Filter(raw, In(b)));
    if i :| 0 <= i < |raw| && In(b)(raw[i]) && InSince(b, start)(raw[i]) != ServedWhole(b, start) {
      if ServedWhole(b, start) {
        FilterSumStrict(raw, InSince(b, start), In(b), One(), i);
      } else {
        FilterMember(raw, InSince(b, start), raw[i]);
      }
    } else {
      if ServedWhole(b, start) {
        FilterAgrees(raw, InSince(b, start), In(b));
      } else if Filter(raw, InSince(b, start)) != [] {
        FilterMember(raw, InSince(b, start), Filter(raw, InSince(b, start))[0]);
      }
    }
  }

  /** Without a straddled bucket repeated ids are all that is left: buckets that
      start at or after the window start agree exactly when none repeats, and
      when the start is on a minute every earlier bucket agrees. */
  lemma DashboardsAgree(raw: seq<Webhook>, rollup: seq<RollupRow>, n: nat, b: Bucket, start: int)
    requires MergedInto(Rollup(raw), rollup, n)
    requires b.minute * MINUTE_MS >= start || start % MINUTE_MS == 0
    ensures DashboardRaw(raw, b, start) == DashboardRollup(rollup, b, start) <==>
            (b.minute * MINUTE_MS >= start ==> IdsUnique(Filter(raw, In(b))))
  {
    DashboardsAgreeExactly(raw, rollup, n, b, start);
    NotStraddled(b, start);
  }

  lemma NotStraddled(b: Bucket, start: int)
    requires b.minute * MINUTE_MS >= start || start % MINUTE_MS == 0
    ensures !Straddles(b, start) && (ServedWhole(b, start) <==> b.minute * MINUTE_MS >= start)
  {
  }

  // ---- The store ----

  class DeliveryStore {
    var raw: seq<Webhook>
    var rollup: seq<RollupRow>

    constructor ()
      ensures raw == [] && rollup == []
    {
      raw, rollup := [], [];
    }

    method InsertBatch(webhooks: seq<Webhook>)
      modifies this`raw
      ensures raw == old(raw) + webhooks
    {
      if |webhooks| == 0 {
        return;
      }
      raw := raw + webhooks;
    }

    method TruncateAll()
      modifies this
      ensures raw == [] && rollup == []
    {
      raw := [];
      rollup := [];
    }

    /** Truncate, then one grouped scan; whatever the rollup held before is gone. */
    method RefreshRollup()
      modifies this`rollup
      ensures rollup == Rollup(raw)
      ensures forall channel, status :: RollupTotal(rollup, channel, status) == RawTotal(raw, channel, status)
    {
      rollup := [];
      rollup := rollup + Rollup(raw);
      assert rollup == Rollup(raw);
      forall channel, status
        ensures RollupTotal(rollup, channel, status) == RawTotal(raw, channel, status)
      {
        RollupMatchesRecompute(raw, channel, status);
      }
    }
  }
}
