/** `check_if_link_expired`: whether a resolved download URL is too old to reuse. */
module Freshness {
  import opened Opt

  /** A timestamp string as the parser sees it. `At(t)` is a string that
      `datetime.fromisoformat` accepts, denoting the UTC instant `t` in
      seconds; `Unparseable` is one it rejects (the empty string included). */
  datatype Stamp = Unparseable | At(instant: int)

  const SecondsPerDay: int := 86400

  /** Links this many whole days old are regenerated. */
  const ExpiryDays: int := 6

  /** `(now - t).days`: whole days elapsed, rounded down as `timedelta.days` is. */
  function DaysOld(t: int, now: int): int {
    (now - t) / SecondsPerDay
  }

  /** `check_if_link_expired(generated, cached)` at clock reading `now`. A
      parseable generation date decides; otherwise a parseable cache date
      decides; otherwise the link counts as expired. */
  function CheckIfLinkExpired(generated: Option<Stamp>, cached: Option<Stamp>, now: int): bool {
    match generated
    case Some(At(t)) => DaysOld(t, now) >= ExpiryDays
    case _ =>
      match cached
      case Some(At(t)) => DaysOld(t, now) >= ExpiryDays
      case _ => true
  }

  /** The stamp parses to an instant. */
  predicate Parses(s: Option<Stamp>) {
    s.Some? && s.value.At?
  }

  /** A parseable generation date alone decides, whatever the cache date is:
      the link is expired exactly when at least six full days have elapsed. */
  lemma GeneratedDecides(t: int, cached: Option<Stamp>, now: int)
    ensures CheckIfLinkExpired(Some(At(t)), cached, now) <==> now - t >= ExpiryDays * SecondsPerDay
  {
  }

  /** The cache date is consulted only when the generation date is absent or
      does not parse, and then it decides in the same way. */
  lemma CachedIsFallback(generated: Option<Stamp>, c: int, now: int)
    requires !Parses(generated)
    ensures CheckIfLinkExpired(generated, Some(At(c)), now) <==> now - c >= ExpiryDays * SecondsPerDay
  {
  }

  /** When neither date parses the link is treated as expired. */
  lemma FailSafe(generated: Option<Stamp>, cached: Option<Stamp>, now: int)
    requires !Parses(generated) && !Parses(cached)
    ensures CheckIfLinkExpired(generated, cached, now)
  {
  }

  /** A link never expires earlier: if it is expired now, it is expired later too. */
  lemma ExpiryIsMonotone(generated: Option<Stamp>, cached: Option<Stamp>, now: int, later: int)
    requires now <= later && CheckIfLinkExpired(generated, cached, now)
    ensures CheckIfLinkExpired(generated, cached, later)
  {
    match generated
    case Some(At(t)) =>
      assert (now - t) / SecondsPerDay <= (later - t) / SecondsPerDay;
    case _ =>
      match cached
      case Some(At(t)) =>
        assert (now - t) / SecondsPerDay <= (later - t) / SecondsPerDay;
      case _ =>
  }
}
