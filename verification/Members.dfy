/** The sorted-set member of a purchase: the event id, a bar, the price with two
    decimals; and what EvaluateProfile reads back out of it. */
module Members {

  predicate IsDigit(c: char) { '0' <= c <= '9' }

  function Digit(n: nat): (c: char)
    requires n < 10
    ensures IsDigit(c)
  {
    ('0' as int + n) as char
  }

  function Decimal(n: nat): (s: string)
    ensures |s| > 0 && forall i :: 0 <= i < |s| ==> IsDigit(s[i])
  {
    if n < 10 then [Digit(n)] else Decimal(n / 10) + [Digit(n % 10)]
  }

  predicate AllDigits(s: string) { forall i :: 0 <= i < |s| ==> IsDigit(s[i]) }

  function FromDecimal(s: string): nat
    requires AllDigits(s)
  {
    if s == "" then 0 else 10 * FromDecimal(s[..|s| - 1]) + (s[|s| - 1] as int - '0' as int)
  }

  /** "%.2f" of an amount in cents. */
  function FormatCents(cents: int): string {
    if cents < 0 then "-" + FormatUnsigned(-cents) else FormatUnsigned(cents)
  }

  function FormatUnsigned(cents: nat): string {
    Decimal(cents / 100) + "." + [Digit(cents / 10 % 10), Digit(cents % 10)]
  }

  /** ParseFloat on the strings the engine writes; anything else is a syntax error, read as 0. */
  function ParseCents(s: string): int {
    if |s| > 0 && s[0] == '-' then -(ParseUnsigned(s[1..]) as int) else ParseUnsigned(s) as int
  }

  function ParseUnsigned(s: string): nat {
    if |s| >= 4 && s[|s| - 3] == '.' && AllDigits(s[..|s| - 3]) && AllDigits(s[|s| - 2..])
    then 100 * FromDecimal(s[..|s| - 3]) + FromDecimal(s[|s| - 2..])
    else 0
  }

  function Member(eventId: string, cents: int): string { eventId + "|" + FormatCents(cents) }

  datatype Split = NoBar | AfterBar(rest: string)

  /** SplitN(m, "|", 2): what follows the first bar. */
  function SplitAtBar(m: string): Split {
    if m == "" then NoBar
    else if m[0] == '|' then AfterBar(m[1..])
    else SplitAtBar(m[1..])
  }

  /** The amount a purchase contributes to the window sum. */
  function MemberCents(m: string): int {
    match SplitAtBar(m)
    case NoBar => 0
    case AfterBar(rest) => ParseCents(rest)
  }

  /** The format, by example. */
  lemma MemberByExample()
    ensures Member("evt-1", 50005) == "evt-1|500.05" && Member("", -7) == "|-0.07"
  {
    assert Decimal(5) == "5" && Decimal(50) == "50" && Decimal(500) == "500" && Decimal(0) == "0";
  }

  /** ... and digit by digit. */
  lemma {:induction false} DecimalDigits(n: nat)
    ensures Decimal(n)[|Decimal(n)| - 1] == "0123456789"[n % 10]
    ensures n >= 10 ==> Decimal(n)[..|Decimal(n)| - 1] == Decimal(n / 10)
    ensures n < 10 ==> |Decimal(n)| == 1
  {
  }

  lemma {:induction false} DecimalRoundTrip(n: nat)
    ensures FromDecimal(Decimal(n)) == n
  {
    if n >= 10 {
      DecimalRoundTrip(n / 10);
      assert Decimal(n)[..|Decimal(n)| - 1] == Decimal(n / 10);
    } else {
      assert Decimal(n)[..0] == "";
    }
  }

  lemma UnsignedRoundTrip(cents: nat)
    ensures ParseUnsigned(FormatUnsigned(cents)) == cents
  {
    var s := FormatUnsigned(cents);
    var tail := [Digit(cents / 10 % 10), Digit(cents % 10)];
    DecimalRoundTrip(cents / 100);
    assert s[..|s| - 3] == Decimal(cents / 100);
    assert s[|s| - 2..] == tail;
    assert tail[..1][..0] == "";
    assert FromDecimal(tail[..1]) == cents / 10 % 10;
  }

  lemma CentsRoundTrip(cents: int)
    ensures ParseCents(FormatCents(cents)) == cents
  {
    if cents < 0 {
      UnsignedRoundTrip(-cents);
      assert FormatCents(cents)[1..] == FormatUnsigned(-cents);
    } else {
      UnsignedRoundTrip(cents);
      assert FormatCents(cents)[0] == Decimal(cents / 100)[0];
    }
  }

  lemma FormatHasNoBar(cents: int)
    ensures '|' !in FormatCents(cents)
  {
    var n := if cents < 0 then -cents else cents;
    assert forall i :: 0 <= i < |Decimal(n / 100)| ==> IsDigit(Decimal(n / 100)[i]);
    assert '|' !in Decimal(n / 100);
  }

  lemma {:induction false} SplitPlainId(eventId: string, rest: string)
    requires '|' !in eventId
    ensures SplitAtBar(eventId + "|" + rest) == AfterBar(rest)
  {
    if eventId == "" {
      assert ("" + "|" + rest)[1..] == rest;
    } else {
      assert (eventId + "|" + rest)[1..] == eventId[1..] + "|" + rest;
      SplitPlainId(eventId[1..], rest);
    }
  }

  lemma {:induction false} SplitBarredId(eventId: string, rest: string)
    requires '|' in eventId
    ensures SplitAtBar(eventId + "|" + rest).AfterBar? && '|' in SplitAtBar(eventId + "|" + rest).rest
  {
    var m := eventId + "|" + rest;
    if eventId[0] == '|' {
      assert m[1..][|eventId| - 1] == '|';
    } else {
      assert m[1..] == eventId[1..] + "|" + rest;
      SplitBarredId(eventId[1..], rest);
    }
  }

  lemma BarredIsZero(s: string)
    requires '|' in s
    ensures ParseCents(s) == 0
  {
    var i :| 0 <= i < |s| && s[i] == '|';
    if s[0] == '-' {
      BarredUnsignedIsZero(s[1..], i - 1);
    } else {
      BarredUnsignedIsZero(s, i);
    }
  }

  lemma BarredUnsignedIsZero(s: string, i: nat)
    requires i < |s| && s[i] == '|'
    ensures ParseUnsigned(s) == 0
  {
    if |s| >= 4 && s[|s| - 3] == '.' {
      if i < |s| - 3 {
        assert s[..|s| - 3][i] == '|';
      } else {
        assert s[|s| - 2..][i - (|s| - 2)] == '|';
      }
    }
  }

  /** The price comes back exactly when the event id holds no bar; otherwise the purchase counts as nothing. */
  lemma MemberCentsExact(eventId: string, cents: int)
    ensures MemberCents(Member(eventId, cents)) == if '|' in eventId then 0 else cents
  {
    if '|' in eventId {
      SplitBarredId(eventId, FormatCents(cents));
      BarredIsZero(SplitAtBar(Member(eventId, cents)).rest);
    } else {
      SplitPlainId(eventId, FormatCents(cents));
      CentsRoundTrip(cents);
    }
  }

  /** A string without a bar is no member, and adds nothing. */
  lemma {:induction false} NoBarNoCents(m: string)
    requires '|' !in m
    ensures SplitAtBar(m) == NoBar && MemberCents(m) == 0
  {
    if m != "" {
      NoBarNoCents(m[1..]);
    }
  }

  /** Different purchases have different members, bars in ids or not: the last bar separates. */
  lemma MemberInjective(a: string, x: int, b: string, y: int)
    requires Member(a, x) == Member(b, y)
    ensures a == b && x == y
  {
    LastBar(a, x);
    LastBar(b, y);
    assert |a| == |b|;
    assert Member(a, x)[..|a|] == a && Member(b, y)[..|b|] == b;
    assert Member(a, x)[|a| + 1..] == FormatCents(x) && Member(b, y)[|b| + 1..] == FormatCents(y);
    CentsRoundTrip(x);
    CentsRoundTrip(y);
  }

  lemma LastBar(eventId: string, cents: int)
    ensures var m := Member(eventId, cents);
            m[|eventId|] == '|' && forall i :: |eventId| < i < |m| ==> m[i] != '|'
  {
    FormatHasNoBar(cents);
    var m := Member(eventId, cents);
    assert forall i :: |eventId| < i < |m| ==> m[i] == FormatCents(cents)[i - |eventId| - 1];
  }
}
