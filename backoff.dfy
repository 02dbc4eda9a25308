/** `RealDebridClient.api_request_with_backoff`: one rate-limited request with
    retries. The HTTP session is an oracle giving the outcome of each attempt;
    the limiter and `time.sleep` are recorded as events. */
module Backoff {

  /** The `Retry-After` header of a response: absent, an integer, or text
      that `int()` rejects. */
  datatype RetryAfter = NoHeader | Seconds(n: int) | NotANumber

  /** What one attempt produced: a response with its status code and
      `Retry-After` header, or a transport failure (`requests.RequestException`
      other than `HTTPError`: connection refused, timeout, ...). */
  datatype Attempt = Responded(status: int, retryAfter: RetryAfter) | Transient

  datatype Limiter = General | Torrents

  /** Observable effects of a call, in order. */
  datatype Event = Acquire(limiter: Limiter) | Send | Sleep(seconds: int)

  /** How the call ends: a response returned to the caller, an `HTTPError`
      re-raised, the `ValueError` that an unusable `Retry-After` value causes
      (from `int()` or from `time.sleep` of a negative number), or
      `Exception("Maximum retries exceeded")`. */
  datatype ApiResult = Response(status: int) | HttpError(status: int) | InvalidRetryAfter | MaxRetriesExceeded

  /** `response.raise_for_status()` raises for 4xx and 5xx codes. */
  predicate RaisesForStatus(status: int) {
    400 <= status < 600
  }

  function Pow2(n: nat): (r: nat)
    ensures r >= 1
  {
    if n == 0 then 1 else 2 * Pow2(n - 1)
  }

  predicate UsableRetryAfter(h: RetryAfter) {
    h.NoHeader? || (h.Seconds? && h.n >= 0)
  }

  /** The attempt is followed by a sleep and another attempt: a transport
      failure, or a 429 whose `Retry-After` can be slept on. */
  predicate Retried(a: Attempt) {
    a.Transient? || (RaisesForStatus(a.status) && a.status == 429 && UsableRetryAfter(a.retryAfter))
  }

  /** The sleep after retried attempt number `i` (counting from 0):
      `Retry-After` (default 1) for a 429, `2 ** i` for a transport failure. */
  function WaitFor(a: Attempt, i: nat): int
    requires Retried(a)
  {
    if a.Transient? then Pow2(i)
    else if a.retryAfter.NoHeader? then 1
    else a.retryAfter.n
  }

  /** How a call ends on an attempt that is not retried. */
  function Final(a: Attempt): ApiResult
    requires !Retried(a)
  {
    if !RaisesForStatus(a.status) then Response(a.status)
    else if a.status == 429 then InvalidRetryAfter
    else HttpError(a.status)
  }

  /** The loop from `retry_count == count` on: its result and its events. */
  function Attempts(outcome: nat -> Attempt, maxRetries: int, count: nat): (ApiResult, seq<Event>)
    decreases if count < maxRetries then maxRetries - count else 0
  {
    if count >= maxRetries then (MaxRetriesExceeded, [])
    else
      var a := outcome(count);
      if Retried(a) then
        var rest := Attempts(outcome, maxRetries, count + 1);
        (rest.0, [Send, Sleep(WaitFor(a, count))] + rest.1)
      else (Final(a), [Send])
  }

  function LimiterFor(useTorrentsLimiter: bool): Limiter {
    if useTorrentsLimiter then Torrents else General
  }

  /** The whole call: one limiter acquisition, then the retry loop. */
  function RequestWithBackoff(useTorrentsLimiter: bool, outcome: nat -> Attempt, maxRetries: int): (ApiResult, seq<Event>) {
    var run := Attempts(outcome, maxRetries, 0);
    (run.0, [Acquire(LimiterFor(useTorrentsLimiter))] + run.1)
  }

  /** `api_request_with_backoff(url, ..., max_retries, use_torrents_limiter)`
      where `outcome(i)` is what the session returns on attempt `i`. */
  method ApiRequestWithBackoff(useTorrentsLimiter: bool, outcome: nat -> Attempt, maxRetries: int)
    returns (r: ApiResult, trace: seq<Event>)
    ensures (r, trace) == RequestWithBackoff(useTorrentsLimiter, outcome, maxRetries)
    ensures |trace| >= 1 && trace[0] == Acquire(LimiterFor(useTorrentsLimiter))
  {
    trace := [Acquire(LimiterFor(useTorrentsLimiter))];
    var retryCount: nat := 0;
    while retryCount < maxRetries
      invariant trace + Attempts(outcome, maxRetries, retryCount).1 == RequestWithBackoff(useTorrentsLimiter, outcome, maxRetries).1
      invariant Attempts(outcome, maxRetries, retryCount).0 == RequestWithBackoff(useTorrentsLimiter, outcome, maxRetries).0
      invariant |trace| >= 1 && trace[0] == Acquire(LimiterFor(useTorrentsLimiter))
      decreases maxRetries - retryCount
    {
      var a := outcome(retryCount);
      trace := trace + [Send];
      if a.Transient? {
        trace := trace + [Sleep(Pow2(retryCount))];
        retryCount := retryCount + 1;
      } else if !RaisesForStatus(a.status) {
        return Response(a.status), trace;
      } else if a.status == 429 {
        var wait: int;
        match a.retryAfter {
          case NoHeader => wait := 1;
          case Seconds(n) => wait := n;
          case NotANumber => return InvalidRetryAfter, trace;
        }
        if wait < 0 {
          return InvalidRetryAfter, trace;
        }
        trace := trace + [Sleep(wait)];
        retryCount := retryCount + 1;
      } else {
        return HttpError(a.status), trace;
      }
    }
    assert trace + [] == trace;
    r := MaxRetriesExceeded;
  }

  /** `[Send, Sleep(w)]` for each retried attempt `from <= i < to`. */
  function Rounds(outcome: nat -> Attempt, lo: nat, hi: nat): seq<Event>
    requires forall i | lo <= i < hi :: Retried(outcome(i))
    decreases if lo < hi then hi - lo else 0
  {
    if lo >= hi then [] else [Send, Sleep(WaitFor(outcome(lo), lo))] + Rounds(outcome, lo + 1, hi)
  }

  function CountAcquires(trace: seq<Event>): nat {
    if trace == [] then 0 else (if trace[0].Acquire? then 1 else 0) + CountAcquires(trace[1..])
  }

  lemma {:induction false} AttemptsStop(outcome: nat -> Attempt, maxRetries: int, count: nat, k: nat)
    requires count <= k < maxRetries
    requires forall i | count <= i < k :: Retried(outcome(i))
    requires !Retried(outcome(k))
    ensures Attempts(outcome, maxRetries, count) == (Final(outcome(k)), Rounds(outcome, count, k) + [Send])
    decreases k - count
  {
    if count < k {
      AttemptsStop(outcome, maxRetries, count + 1, k);
      var head := [Send, Sleep(WaitFor(outcome(count), count))];
      var r := Rounds(outcome, count + 1, k);
      assert head + (r + [Send]) == (head + r) + [Send];
    } else {
      assert Rounds(outcome, count, k) + [Send] == [Send];
    }
  }

  lemma {:induction false} AttemptsExhaust(outcome: nat -> Attempt, maxRetries: nat, count: nat)
    requires count <= maxRetries
    requires forall i | count <= i < maxRetries :: Retried(outcome(i))
    ensures Attempts(outcome, maxRetries, count) == (MaxRetriesExceeded, Rounds(outcome, count, maxRetries))
    decreases maxRetries - count
  {
    if count < maxRetries {
      AttemptsExhaust(outcome, maxRetries, count + 1);
    }
  }

  /** The first attempt that is not retried ends the call: a success returns
      its response, a 503 or any other HTTP error (except 429) propagates at
      once, and every earlier attempt cost exactly one send and one sleep of
      `Retry-After` (default 1) or `2 ** i` seconds. */
  lemma FirstUnretriedDecides(useTorrentsLimiter: bool, outcome: nat -> Attempt, maxRetries: int, k: nat)
    requires k < maxRetries
    requires forall i | 0 <= i < k :: Retried(outcome(i))
    requires !Retried(outcome(k))
    ensures RequestWithBackoff(useTorrentsLimiter, outcome, maxRetries) ==
      (Final(outcome(k)), [Acquire(LimiterFor(useTorrentsLimiter))] + Rounds(outcome, 0, k) + [Send])
  {
    AttemptsStop(outcome, maxRetries, 0, k);
    var acquire := [Acquire(LimiterFor(useTorrentsLimiter))];
    var r := Rounds(outcome, 0, k);
    assert acquire + (r + [Send]) == acquire + r + [Send];
  }

  /** After `max_retries` retried failures the call raises "Maximum retries
      exceeded", having sent `max_retries` requests and slept after each. */
  lemma ExhaustionRaises(useTorrentsLimiter: bool, outcome: nat -> Attempt, maxRetries: nat)
    requires forall i | 0 <= i < maxRetries :: Retried(outcome(i))
    ensures RequestWithBackoff(useTorrentsLimiter, outcome, maxRetries) ==
      (MaxRetriesExceeded, [Acquire(LimiterFor(useTorrentsLimiter))] + Rounds(outcome, 0, maxRetries))
  {
    AttemptsExhaust(outcome, maxRetries, 0);
  }

  /** A 503 (or any HTTP error other than 429) on the first attempt is raised
      with no retry and no sleep. */
  lemma ServiceUnavailableNotRetried(useTorrentsLimiter: bool, outcome: nat -> Attempt, maxRetries: int)
    requires maxRetries > 0
    requires outcome(0).Responded? && RaisesForStatus(outcome(0).status) && outcome(0).status != 429
    ensures RequestWithBackoff(useTorrentsLimiter, outcome, maxRetries) ==
      (HttpError(outcome(0).status), [Acquire(LimiterFor(useTorrentsLimiter)), Send])
  {
    assert Attempts(outcome, maxRetries, 0) == (HttpError(outcome(0).status), [Send]);
    assert [Acquire(LimiterFor(useTorrentsLimiter))] + [Send] == [Acquire(LimiterFor(useTorrentsLimiter)), Send];
  }

  lemma {:induction false} AttemptsNoAcquire(outcome: nat -> Attempt, maxRetries: int, count: nat)
    ensures CountAcquires(Attempts(outcome, maxRetries, count).1) == 0
    decreases if count < maxRetries then maxRetries - count else 0
  {
    if count < maxRetries {
      var a := outcome(count);
      if Retried(a) {
        AttemptsNoAcquire(outcome, maxRetries, count + 1);
        var rest := Attempts(outcome, maxRetries, count + 1).1;
        var s := [Send, Sleep(WaitFor(a, count))] + rest;
        assert s[1..][1..] == rest;
      } else {
        assert [Send][1..] == [];
      }
    }
  }

  /** The limiter is acquired exactly once per call, before any request. */
  lemma AcquiresOnce(useTorrentsLimiter: bool, outcome: nat -> Attempt, maxRetries: int)
    ensures var trace := RequestWithBackoff(useTorrentsLimiter, outcome, maxRetries).1;
      trace[0] == Acquire(LimiterFor(useTorrentsLimiter)) && CountAcquires(trace) == 1
  {
    AttemptsNoAcquire(outcome, maxRetries, 0);
    var run := Attempts(outcome, maxRetries, 0).1;
    var trace := [Acquire(LimiterFor(useTorrentsLimiter))] + run;
    assert trace[1..] == run;
  }
}
