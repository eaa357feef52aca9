/**
 * The bounded retry with exponential backoff of `SorobanService.withRetry` and
 * `EmailService.deliverEmailWithRetry`, and the health signal the former keeps.
 * Delays are real numbers of milliseconds; `draws` are the results of `Math.random()`.
 */
module Retry {
  import opened Prelude

  const JITTER_FACTOR := 0.2
  const UNHEALTHY_THRESHOLD := 3

  /** What one attempt came to. */
  datatype Attempt = Success | Transient | Permanent

  datatype Outcome = Succeeded | Rejected | Exhausted

  // ---- delays --------------------------------------------------------------

  function Pow4(n: nat): (r: real)
    ensures r >= 1.0
  {
    if n == 0 then 1.0 else 4.0 * Pow4(n - 1)
  }

  /** `Math.round`: the nearest integer, halves upward. */
  function Round(x: real): (r: real)
    ensures x - 0.5 < r <= x + 0.5
  {
    (x + 0.5).Floor as real
  }

  type Draw = d: real | 0.0 <= d < 1.0

  function Jittered(exponential: real, u: real): real {
    var jitter := exponential * JITTER_FACTOR * u;
    exponential + jitter
  }

  function BackoffDelay(base: real, attempt: nat, draw: Draw): (d: real)
    ensures d >= 0.0
  {
    var rounded := Round(Jittered(base * Pow4(attempt), draw * 2.0 - 1.0));
    if rounded > 0.0 then rounded else 0.0
  }

  /** A delay is within 20% of base * 4^attempt, up to rounding. */
  lemma {:induction false} DelayWithinJitter(base: real, attempt: nat, draw: Draw)
    requires base >= 0.0
    ensures 0.8 * base * Pow4(attempt) - 0.5 <= BackoffDelay(base, attempt, draw) <= 1.2 * base * Pow4(attempt) + 0.5
  {
    var e := base * Pow4(attempt);
    assert e >= 0.0;
    JitteredBounds(e, draw * 2.0 - 1.0);
    hide Jittered;
    assert 1.2 * base * Pow4(attempt) == 1.2 * e;
    assert 0.8 * base * Pow4(attempt) == 0.8 * e;
  }

  lemma {:induction false} JitteredBounds(e: real, u: real)
    requires e >= 0.0 && -1.0 <= u <= 1.0
    ensures 0.8 * e <= Jittered(e, u) <= 1.2 * e
  {
    var p := e * u;
    assert p <= e by {
      ProductGrows(e, u, 1.0);
    }
    assert -e <= p by {
      ProductGrows(e, -1.0, u);
    }
    assert Jittered(e, u) == e + 0.2 * p;
  }

  // ---- the loop ------------------------------------------------------------

  /** The attempt that decides a call: the first that is not a transient failure. */
  ghost predicate DecidedAt(outcomes: seq<Attempt>, k: nat) {
    k < |outcomes| && !outcomes[k].Transient? && forall i | 0 <= i < k :: outcomes[i].Transient?
  }

  /** The waits between the first `n` + 1 attempts. */
  function TotalDelay(base: real, draws: seq<Draw>, n: nat): real
    requires n <= |draws|
  {
    if n == 0 then 0.0 else TotalDelay(base, draws, n - 1) + BackoffDelay(base, n - 1, draws[n - 1])
  }

  /**
   * What a call does, given how each attempt it may make would end. It makes `made`
   * attempts and waits between them, never after the last.
   */
  ghost predicate RetryResult(max: nat, base: real, outcomes: seq<Attempt>, draws: seq<Draw>,
                              outcome: Outcome, made: nat, slept: real)
    requires |outcomes| == max && |draws| == max
  {
    && made <= max
    && slept == TotalDelay(base, draws, if made == 0 then 0 else made - 1)
    && (outcome.Exhausted? ==> made == max && forall i | 0 <= i < max :: outcomes[i].Transient?)
    && (!outcome.Exhausted? ==> && 1 <= made && DecidedAt(outcomes, made - 1)
                                && (outcome.Succeeded? <==> outcomes[made - 1].Success?))
  }

  method WithRetry(max: nat, base: real, outcomes: seq<Attempt>, draws: seq<Draw>)
    returns (outcome: Outcome, made: nat, slept: real)
    requires |outcomes| == max && |draws| == max
    ensures RetryResult(max, base, outcomes, draws, outcome, made, slept)
  {
    hide BackoffDelay;
    slept := 0.0;
    for attempt := 0 to max
      invariant attempt < max ==> slept == TotalDelay(base, draws, attempt)
      invariant attempt == max ==> slept == TotalDelay(base, draws, if max == 0 then 0 else max - 1)
      invariant forall i | 0 <= i < attempt :: outcomes[i].Transient?
    {
      if outcomes[attempt].Success? {
        return Succeeded, attempt + 1, slept;
      }
      if outcomes[attempt].Permanent? {
        return Rejected, attempt + 1, slept;
      }
      var attemptsRemaining := max - attempt - 1;
      if attemptsRemaining == 0 {
        return Exhausted, max, slept;
      }
      slept := slept + BackoffDelay(base, attempt, draws[attempt]);
    }
    outcome, made := Exhausted, max;
  }

  /** The outcome of a call is determined by its attempts. */
  lemma {:induction false} ResultIsDetermined(max: nat, base: real, outcomes: seq<Attempt>, draws: seq<Draw>,
                           o: Outcome, m: nat, t: real, o': Outcome, m': nat, t': real)
    requires |outcomes| == max && |draws| == max
    requires RetryResult(max, base, outcomes, draws, o, m, t) && RetryResult(max, base, outcomes, draws, o', m', t')
    ensures o == o' && m == m' && t == t'
  {
    hide TotalDelay;
  }

  /** The sum of n waits: at most 1.2 * base * (4^n - 1) / 3 plus half a millisecond each. */
  lemma {:induction false} TotalDelayBound(base: real, draws: seq<Draw>, n: nat)
    requires base >= 0.0 && n <= |draws|
    ensures 3.0 * TotalDelay(base, draws, n) <= 1.2 * base * (Pow4(n) - 1.0) + 1.5 * n as real
    ensures TotalDelay(base, draws, n) >= 0.0
  {
    hide BackoffDelay;
    if n > 0 {
      TotalDelayBound(base, draws, n - 1);
      DelayWithinJitter(base, n - 1, draws[n - 1]);
      var p := Pow4(n - 1);
      var e := 1.2 * base;
      assert e * (4.0 * p - 1.0) == e * (p - 1.0) + 3.0 * (e * p);
    }
  }

  /** However a call ends, it makes at most `max` attempts and its waits are bounded. */
  lemma {:induction false} CallIsBounded(max: nat, base: real, outcomes: seq<Attempt>, draws: seq<Draw>,
                      outcome: Outcome, made: nat, slept: real)
    requires |outcomes| == max && |draws| == max && base >= 0.0 && max > 0
    requires RetryResult(max, base, outcomes, draws, outcome, made, slept)
    ensures 0.0 <= 3.0 * slept <= 1.2 * base * (Pow4(max - 1) - 1.0) + 1.5 * (max - 1) as real
  {
    hide TotalDelay, BackoffDelay;
    TotalDelayBound(base, draws, made - 1);
    Pow4Grows(made - 1, max - 1);
    var e := 1.2 * base;
    ProductGrows(e, Pow4(made - 1) - 1.0, Pow4(max - 1) - 1.0);
  }

  lemma {:induction false} ProductGrows(e: real, a: real, b: real)
    requires e >= 0.0 && a <= b
    ensures e * a <= e * b
  {
    assert e * (b - a) >= 0.0;
  }

  lemma {:induction false} Pow4Grows(a: nat, b: nat)
    requires a <= b
    ensures Pow4(a) <= Pow4(b)
  {
    if a < b {
      Pow4Grows(a, b - 1);
    }
  }

  // ---- health --------------------------------------------------------------

  function AfterCall(failures: nat, outcome: Outcome): nat {
    match outcome
    case Succeeded => 0
    case Rejected => failures
    case Exhausted => failures + 1
  }

  /** The counter after a sequence of calls. */
  function Failures(start: nat, calls: seq<Outcome>): nat {
    if calls == [] then start else AfterCall(Failures(start, calls[..|calls| - 1]), calls[|calls| - 1])
  }

  function CountExhausted(calls: seq<Outcome>): nat {
    if calls == [] then 0
    else CountExhausted(calls[..|calls| - 1]) + (if calls[|calls| - 1].Exhausted? then 1 else 0)
  }

  /** The calls after the last success. */
  function SinceSuccess(calls: seq<Outcome>): (r: seq<Outcome>)
    ensures |r| <= |calls| && r == calls[|calls| - |r|..]
    ensures Succeeded !in r
    ensures |r| < |calls| ==> calls[|calls| - |r| - 1].Succeeded?
  {
    if calls == [] || calls[|calls| - 1].Succeeded? then []
    else
      var r := SinceSuccess(calls[..|calls| - 1]);
      assert r + [calls[|calls| - 1]] == calls[|calls| - 1 - |r|..];
      r + [calls[|calls| - 1]]
  }

  /** The counter is the number of exhausted calls since the last success; rejected calls do not count. */
  lemma {:induction false} CounterCountsExhausted(calls: seq<Outcome>)
    ensures Failures(0, calls) == CountExhausted(SinceSuccess(calls))
  {
    if calls != [] {
      var n := |calls| - 1;
      CounterCountsExhausted(calls[..n]);
      if !calls[n].Succeeded? {
        var r := SinceSuccess(calls[..n]);
        assert (r + [calls[n]])[..|r|] == r;
      }
    }
  }

  class RpcClient {
    const maxAttempts: nat
    const baseDelay: real
    var consecutiveRpcFailures: nat
    ghost var calls: seq<Outcome>

    /** The counter is what the calls made so far come to. */
    ghost predicate Valid()
      reads this
    {
      consecutiveRpcFailures == Failures(0, calls)
    }

    constructor (maxAttempts: nat, baseDelay: real)
      ensures Valid() && calls == [] && this.maxAttempts == maxAttempts && this.baseDelay == baseDelay
    {
      this.maxAttempts, this.baseDelay, consecutiveRpcFailures, calls := maxAttempts, baseDelay, 0, [];
    }

    method Call(outcomes: seq<Attempt>, draws: seq<Draw>) returns (outcome: Outcome, made: nat, slept: real)
      requires Valid() && |outcomes| == maxAttempts && |draws| == maxAttempts
      modifies this
      ensures Valid() && calls == old(calls) + [outcome]
      ensures RetryResult(maxAttempts, baseDelay, outcomes, draws, outcome, made, slept)
      ensures consecutiveRpcFailures == AfterCall(old(consecutiveRpcFailures), outcome)
    {
      outcome, made, slept := WithRetry(maxAttempts, baseDelay, outcomes, draws);
      hide RetryResult;
      if outcome.Succeeded? {
        consecutiveRpcFailures := 0;
      } else if outcome.Exhausted? {
        consecutiveRpcFailures := consecutiveRpcFailures + 1;
      }
      calls := calls + [outcome];
      assert calls[..|calls| - 1] == old(calls);
    }

    /** Healthy unless three calls were exhausted since the last one that succeeded. */
    method IsRpcHealthy() returns (healthy: bool)
      requires Valid()
      ensures healthy <==> CountExhausted(SinceSuccess(calls)) < UNHEALTHY_THRESHOLD
    {
      CounterCountsExhausted(calls);
      healthy := consecutiveRpcFailures < UNHEALTHY_THRESHOLD;
    }
  }

  /** With no attempts configured a call makes none, and still counts as an outage. */
  lemma {:induction false} NoAttemptsCountsAsOutage(base: real, outcome: Outcome, made: nat, slept: real)
    requires RetryResult(0, base, [], [], outcome, made, slept)
    ensures outcome.Exhausted? && made == 0 && slept == 0.0
    ensures forall failures: nat :: AfterCall(failures, outcome) == failures + 1
  {
  }
}
