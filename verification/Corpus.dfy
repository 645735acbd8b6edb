/** internal/simstorefront/corpus.go: the insertion sort that puts one profile's
    events in chronological order before they are sent. */
module Corpus {
  import opened Events
  import opened Sequences

  function AtTime(t: int): Event -> bool { (e: Event) => e.timestampMs == t }

  /** The same events, with equal timestamps still in their original order. */
  ghost predicate StableRearrangement(before: seq<Event>, after: seq<Event>) {
    forall t :: Filter(after, AtTime(t)) == Filter(before, AtTime(t))
  }

  /** Swapping two neighbours with different timestamps disturbs no timestamp's own order. */
  lemma SwapIsStable(s: seq<Event>, j: nat, t: int)
    requires 0 < j < |s| && s[j].timestampMs != s[j - 1].timestampMs
    ensures Filter(s[j - 1 := s[j]][j := s[j - 1]], AtTime(t)) == Filter(s, AtTime(t))
  {
    var f := AtTime(t);
    var a, b := s[j - 1], s[j];
    var pre, post := s[..j - 1], s[j + 1..];
    assert s == pre + [a] + [b] + post;
    assert s[j - 1 := b][j := a] == pre + [b] + [a] + post;
    FilterConcat(pre + [a] + [b], post, f);
    FilterConcat(pre + [b] + [a], post, f);
    FilterSnoc(pre + [a], b, f);
    FilterSnoc(pre, a, f);
    FilterSnoc(pre + [b], a, f);
    FilterSnoc(pre, b, f);
  }

  /** A stable rearrangement loses and invents nothing. */
  lemma StableIsPermutation(before: seq<Event>, after: seq<Event>, q: Event)
    requires StableRearrangement(before, after)
    ensures multiset(before)[q] == multiset(after)[q]
  {
    FilterCount(before, AtTime(q.timestampMs), q);
    FilterCount(after, AtTime(q.timestampMs), q);
    assert Filter(after, AtTime(q.timestampMs)) == Filter(before, AtTime(q.timestampMs));
  }

  method SortChronologically(events: array<Event>)
    modifies events
    ensures Chronological(events[..])
    ensures StableRearrangement(old(events[..]), events[..])
  {
    var i := 1;
    while i < events.Length
      invariant 1 <= i && (i <= events.Length ==> Chronological(events[..i]))
      invariant i > events.Length ==> events.Length == 0
      invariant StableRearrangement(old(events[..]), events[..])
    {
      ghost var s := events[..];
      InsertBackwards(events, i);
      RearrangeAgain(old(events[..]), s, events[..]);
      i := i + 1;
    }
    assert events[..events.Length] == events[..];
  }

  /** Sorted up to i, but for the element now sinking at j. */
  ghost predicate SortedBut(s: seq<Event>, i: nat, j: nat) {
    i < |s| && forall a, b :: 0 <= a < b <= i && b != j ==> s[a].timestampMs <= s[b].timestampMs
  }

  /** What one swap of the sinking element keeps. */
  lemma SinkStep(original: seq<Event>, s: seq<Event>, i: nat, j: nat)
    requires SortedBut(s, i, j) && 0 < j <= i && s[j].timestampMs < s[j - 1].timestampMs
    requires StableRearrangement(original, s)
    ensures var t := s[j - 1 := s[j]][j := s[j - 1]]; SortedBut(t, i, j - 1) && StableRearrangement(original, t)
  {
    SinkOne(s, i, j);
    SwapAllTimes(s, j);
    RearrangeAgain(original, s, s[j - 1 := s[j]][j := s[j - 1]]);
  }

  lemma SinkOne(s: seq<Event>, i: nat, j: nat)
    requires SortedBut(s, i, j) && 0 < j <= i && s[j].timestampMs < s[j - 1].timestampMs
    ensures SortedBut(s[j - 1 := s[j]][j := s[j - 1]], i, j - 1)
  {
  }

  lemma SwapAllTimes(s: seq<Event>, j: nat)
    requires 0 < j < |s| && s[j].timestampMs != s[j - 1].timestampMs
    ensures StableRearrangement(s, s[j - 1 := s[j]][j := s[j - 1]])
  {
    forall t
      ensures Filter(s[j - 1 := s[j]][j := s[j - 1]], AtTime(t)) == Filter(s, AtTime(t))
    {
      SwapIsStable(s, j, t);
    }
  }

  lemma RearrangeAgain(a: seq<Event>, b: seq<Event>, c: seq<Event>)
    requires StableRearrangement(a, b) && StableRearrangement(b, c)
    ensures StableRearrangement(a, c)
  {
  }

  /** The inner loop: sink events[i] to its place among the sorted events before it. */
  method InsertBackwards(events: array<Event>, i: nat)
    requires 0 < i < events.Length && Chronological(events[..i])
    modifies events
    ensures Chronological(events[..i + 1])
    ensures StableRearrangement(old(events[..]), events[..])
  {
    var j := i;
    while j > 0 && events[j].timestampMs < events[j - 1].timestampMs
      invariant 0 <= j <= i
      invariant SortedBut(events[..], i, j)
      invariant StableRearrangement(old(events[..]), events[..])
    {
      ghost var s := events[..];
      events[j], events[j - 1] := events[j - 1], events[j];
      assert events[..] == s[j - 1 := s[j]][j := s[j - 1]];
      SinkStep(old(events[..]), s, i, j);
      j := j - 1;
    }
  }
}
