/** Storefront events, the segment definitions both engines read, and clock arithmetic. */
module Events {
  import opened Sequences

  datatype Kind = PageView | AddToCart | Purchase | OtherKind(name: string)

  /** attributes["category"] ("" when absent) and attributes["price"] in cents
      (0 when absent or unparsable) are the only attributes either side reads. */
  datatype Event = Event(eventId: string, profileId: string, kind: Kind, timestampMs: int, category: string, priceCents: int)

  datatype Family =
    | PurchaseCountMin
    | CartAbandonDays
    | CategoryViewMin
    | PurchaseValueMin
    | RecentlyActiveHours
    | NeverPurchased
    | ChurnRiskDays
    | MultiCategoryMin
    | UnknownFamily(name: string)

  datatype Segment = Segment(id: string, family: Family, minCount: int, windowDays: int, category: string,
                             minValueCents: int, minHours: int, minDays: int, minDistinct: int)

  const DAY_MS := 86_400_000
  const HOUR_MS := 3_600_000
  const DAY_SEC := 86_400
  const TRIM_DAYS := 90

  /** time.Time.Unix: whole seconds, rounded down. */
  function Sec(ms: int): int { ms / 1000 }

  // ---- Histories ----

  function OfProfile(p: string): Event -> bool { (e: Event) => e.profileId == p }

  /** One profile's events, in log order. */
  function History(log: seq<Event>, p: string): seq<Event> { Filter(log, OfProfile(p)) }

  ghost predicate Chronological(h: seq<Event>) {
    forall i, j :: 0 <= i < j < |h| ==> h[i].timestampMs <= h[j].timestampMs
  }

  ghost predicate Positive(h: seq<Event>) {
    forall i :: 0 <= i < |h| ==> h[i].timestampMs > 0
  }

  ghost predicate NoneAfter(h: seq<Event>, asOf: int) {
    forall i :: 0 <= i < |h| ==> h[i].timestampMs <= asOf
  }

  ghost predicate PurchaseIdsDistinct(h: seq<Event>) {
    forall i, j :: 0 <= i < j < |h| && h[i].kind.Purchase? && h[j].kind.Purchase? ==> h[i].eventId != h[j].eventId
  }

  ghost predicate PurchaseIdsPlain(h: seq<Event>) {
    forall i :: 0 <= i < |h| && h[i].kind.Purchase? ==> '|' !in h[i].eventId
  }

  ghost predicate ViewsCategorised(h: seq<Event>) {
    forall i :: 0 <= i < |h| && h[i].kind.PageView? ==> h[i].category != ""
  }

  /** What the engine's state needs to stand for a history ... */
  ghost predicate Orderly(h: seq<Event>) {
    Chronological(h) && Positive(h) && PurchaseIdsDistinct(h)
  }

  /** ... and what the equality of the two engines rests on, profile by profile. */
  ghost predicate WellFormed(h: seq<Event>) {
    Orderly(h) && PurchaseIdsPlain(h) && ViewsCategorised(h)
  }

  ghost predicate PricesNonNegative(h: seq<Event>) {
    forall i :: 0 <= i < |h| ==> h[i].priceCents >= 0
  }

  /** Thresholds at least 1, purchase windows no longer than the trim. */
  predicate Sane(seg: Segment) {
    match seg.family
    case PurchaseCountMin => seg.minCount >= 1 && 0 <= seg.windowDays <= 90
    case PurchaseValueMin => seg.minValueCents >= 1 && 0 <= seg.windowDays <= 90
    case CategoryViewMin => seg.minCount >= 1
    case MultiCategoryMin => seg.minDistinct >= 1
    case _ => true
  }
}
