/** `with_retry`: exponential backoff with jitter around a call that may
    raise. The wrapped function is given as the outcome of each attempt and
    `random.random()` as the jitter fraction drawn before each sleep; the
    sleeps and the `on_retry` callbacks are recorded instead of performed. */
module Retry {
  import opened Wrappers

  /** A raised exception, as the set of its class and base-class names, so
      that `except retryable_exceptions` is an `isinstance` test. */
  datatype Failure = Failure(classes: set<string>)

  /** What one call of the wrapped function did. */
  datatype Attempt<T> = Returned(value: T) | Raised(error: Failure)

  /** How the wrapper ended: a value, a re-raised exception, or the
      `RuntimeError` left for the case where no attempt ran at all. */
  datatype Outcome<T> = Value(value: T) | Thrown(error: Failure) | Unexpected

  datatype Policy = Policy(maxRetries: int, baseDelay: real, maxDelay: real, retryable: set<string>)

  /** The calls made, the sleeps taken and the `on_retry(e, attempt + 1)`
      callbacks, in order. */
  datatype Run<T> = Run(outcome: Outcome<T>, calls: nat, sleeps: seq<real>, retried: seq<(Failure, nat)>)

  /** `RETRYABLE_EXCEPTIONS`. */
  const NetworkErrors: set<string> := {"TimeoutException", "NetworkError", "ConnectError"}

  /** `with_retry()` with its defaults, as `retry_on_network_error` uses it. */
  const DefaultPolicy: Policy := Policy(3, 0.5, 10.0, NetworkErrors)

  predicate Retryable(p: Policy, e: Failure) {
    e.classes * p.retryable != {}
  }

  function Pow2(n: nat): (r: nat)
    ensures r >= 1
  {
    if n == 0 then 1 else 2 * Pow2(n - 1)
  }

  /** `min(base_delay * 2 ** attempt, max_delay)`. */
  function Backoff(p: Policy, attempt: nat): (r: real)
    ensures r <= p.maxDelay
    ensures r == p.maxDelay || r == p.baseDelay * Pow2(attempt) as real
  {
    var d := p.baseDelay * Pow2(attempt) as real;
    if d < p.maxDelay then d else p.maxDelay
  }

  /** The delay plus `random.uniform(0, delay * 0.1)`, drawn as
      `0 + (delay * 0.1) * u`. */
  function Delay(p: Policy, attempt: nat, u: real): real {
    Jittered(Backoff(p, attempt), u)
  }

  function Jittered(d: real, u: real): real {
    d + (d * 0.1) * u
  }

  /** The wrapper from attempt `attempt` on, `last` being the exception the
      previous attempt raised. */
  function From<T>(p: Policy, f: nat -> Attempt<T>, jitter: nat -> real, attempt: nat, last: Option<Failure>)
    : Run<T>
    decreases if attempt <= p.maxRetries then p.maxRetries + 1 - attempt else 0
  {
    if attempt > p.maxRetries then
      Run(if last.Some? then Thrown(last.value) else Unexpected, 0, [], [])
    else
      match f(attempt)
      case Returned(v) => Run(Value(v), 1, [], [])
      case Raised(e) =>
        if !Retryable(p, e) then Run(Thrown(e), 1, [], [])
        else
          var rest := From(p, f, jitter, attempt + 1, Some(e));
          if attempt < p.maxRetries then
            Run(rest.outcome, rest.calls + 1, [Delay(p, attempt, jitter(attempt))] + rest.sleeps,
                [(e, attempt + 1)] + rest.retried)
          else Run(rest.outcome, rest.calls + 1, rest.sleeps, rest.retried)
  }

  /** One call of the decorated function. */
  function WithRetry<T>(p: Policy, f: nat -> Attempt<T>, jitter: nat -> real): Run<T> {
    From(p, f, jitter, 0, None)
  }

  /** A run made of `n` earlier calls, their sleeps and callbacks, followed
      by `r`. */
  function Glue<T>(n: nat, sleeps: seq<real>, retried: seq<(Failure, nat)>, r: Run<T>): Run<T> {
    Run(r.outcome, r.calls + n, sleeps + r.sleeps, retried + r.retried)
  }

  /** The `for attempt in range(max_retries + 1)` loop of `wrapper`. */
  method Wrapper<T>(p: Policy, f: nat -> Attempt<T>, jitter: nat -> real) returns (run: Run<T>)
    ensures run == WithRetry(p, f, jitter)
  {
    var attempt: nat := 0;
    var sleeps: seq<real> := [];
    var retried: seq<(Failure, nat)> := [];
    var last: Option<Failure> := None;
    while attempt <= p.maxRetries
      invariant WithRetry(p, f, jitter) == Glue(attempt, sleeps, retried, From(p, f, jitter, attempt, last))
      decreases p.maxRetries + 1 - attempt
    {
      match f(attempt)
      case Returned(v) =>
        return Glue(attempt, sleeps, retried, Run(Value(v), 1, [], []));
      case Raised(e) =>
        if !Retryable(p, e) {
          return Glue(attempt, sleeps, retried, Run(Thrown(e), 1, [], []));
        }
        var rest := From(p, f, jitter, attempt + 1, Some(e));
        if attempt < p.maxRetries {
          var d := Delay(p, attempt, jitter(attempt));
          assert sleeps + ([d] + rest.sleeps) == (sleeps + [d]) + rest.sleeps;
          assert retried + ([(e, attempt + 1)] + rest.retried) == (retried + [(e, attempt + 1)]) + rest.retried;
          sleeps := sleeps + [d];
          retried := retried + [(e, attempt + 1)];
        }
        last := Some(e);
        attempt := attempt + 1;
    }
    run := Glue(attempt, sleeps, retried, Run(if last.Some? then Thrown(last.value) else Unexpected, 0, [], []));
  }

  /** The wrapped function runs at most `max_retries + 1` times, and at least
      once unless `max_retries` is negative; it sleeps once between every two
      calls and never after the last, so at most `max_retries` times. */
  lemma {:induction false} CallsAndSleeps<T>(p: Policy, f: nat -> Attempt<T>, jitter: nat -> real, attempt: nat,
                                            last: Option<Failure>)
    ensures var r := From(p, f, jitter, attempt, last);
      && (attempt > p.maxRetries ==> r.calls == 0)
      && (attempt <= p.maxRetries ==> 1 <= r.calls <= p.maxRetries + 1 - attempt)
      && |r.sleeps| == |r.retried| == (if r.calls == 0 then 0 else r.calls - 1)
    decreases if attempt <= p.maxRetries then p.maxRetries + 1 - attempt else 0
  {
    if attempt <= p.maxRetries && f(attempt).Raised? && Retryable(p, f(attempt).error) {
      CallsAndSleeps(p, f, jitter, attempt + 1, Some(f(attempt).error));
    }
  }

  /** The bounds for a whole call of the decorated function. */
  lemma RetryBounds<T>(p: Policy, f: nat -> Attempt<T>, jitter: nat -> real)
    ensures var r := WithRetry(p, f, jitter);
      && r.calls <= (if p.maxRetries < 0 then 0 else p.maxRetries + 1)
      && (p.maxRetries >= 0 ==> r.calls >= 1)
      && |r.sleeps| == |r.retried| <= (if p.maxRetries < 0 then 0 else p.maxRetries)
      && (r.calls > 0 ==> |r.sleeps| == r.calls - 1)
  {
    CallsAndSleeps(p, f, jitter, 0, None);
  }

  /** Every call before the last raised a retryable exception; a value is
      the last call's, returned at once; a re-raised exception is the last
      call's, either not retryable or raised by the final allowed attempt;
      and the `RuntimeError` only happens when no attempt ran. */
  lemma {:induction false} OutcomeFrom<T>(p: Policy, f: nat -> Attempt<T>, jitter: nat -> real, attempt: nat,
                                              last: Option<Failure>)
    requires attempt <= p.maxRetries
    ensures var r := From(p, f, jitter, attempt, last);
      && r.calls >= 1
      && (forall i :: attempt <= i < attempt + r.calls - 1 ==> f(i).Raised? && Retryable(p, f(i).error))
      && (r.outcome.Value? ==> f(attempt + r.calls - 1) == Returned(r.outcome.value))
      && (r.outcome.Thrown? ==>
            && f(attempt + r.calls - 1) == Raised(r.outcome.error)
            && (!Retryable(p, r.outcome.error) || attempt + r.calls - 1 == p.maxRetries))
      && !r.outcome.Unexpected?
    decreases p.maxRetries + 1 - attempt
  {
    var r := From(p, f, jitter, attempt, last);
    if f(attempt).Raised? && Retryable(p, f(attempt).error) {
      var e := f(attempt).error;
      if attempt < p.maxRetries {
        OutcomeFrom(p, f, jitter, attempt + 1, Some(e));
        var rest := From(p, f, jitter, attempt + 1, Some(e));
        assert r.calls == rest.calls + 1;
        forall i | attempt <= i < attempt + r.calls - 1
          ensures f(i).Raised? && Retryable(p, f(i).error)
        {
          if i > attempt {
            assert attempt + 1 <= i < attempt + 1 + rest.calls - 1;
          }
        }
      } else {
        assert r.calls == 1;
      }
    }
  }

  /** The outcome of a whole call of the decorated function. */
  lemma RetryOutcome<T>(p: Policy, f: nat -> Attempt<T>, jitter: nat -> real)
    ensures var r := WithRetry(p, f, jitter);
      && (r.outcome.Unexpected? <==> p.maxRetries < 0)
      && (p.maxRetries >= 0 ==>
            && (forall i :: 0 <= i < r.calls - 1 ==> f(i).Raised? && Retryable(p, f(i).error))
            && (r.outcome.Value? ==> f(r.calls - 1) == Returned(r.outcome.value))
            && (r.outcome.Thrown? ==>
                  && f(r.calls - 1) == Raised(r.outcome.error)
                  && (!Retryable(p, r.outcome.error) || r.calls == p.maxRetries + 1)))
  {
    if p.maxRetries >= 0 {
      OutcomeFrom(p, f, jitter, 0, None);
    }
  }

  /** A first call that returns is the whole run: one call, no sleep. */
  lemma FirstSuccess<T>(p: Policy, f: nat -> Attempt<T>, jitter: nat -> real)
    requires p.maxRetries >= 0 && f(0).Returned?
    ensures WithRetry(p, f, jitter) == Run(Value(f(0).value), 1, [], [])
  {
  }

  /** An exception that is not retryable propagates after a single call. */
  lemma NotRetried<T>(p: Policy, f: nat -> Attempt<T>, jitter: nat -> real)
    requires p.maxRetries >= 0 && f(0).Raised? && !Retryable(p, f(0).error)
    ensures WithRetry(p, f, jitter) == Run(Thrown(f(0).error), 1, [], [])
  {
  }

  /** Sleep number `k` follows attempt `k` and lasts `Delay(attempt k)`. */
  lemma {:induction false} SleepsFrom<T>(p: Policy, f: nat -> Attempt<T>, jitter: nat -> real, attempt: nat,
                                        last: Option<Failure>)
    ensures forall k :: 0 <= k < |From(p, f, jitter, attempt, last).sleeps| ==>
      From(p, f, jitter, attempt, last).sleeps[k] == Delay(p, attempt + k, jitter(attempt + k))
    decreases if attempt <= p.maxRetries then p.maxRetries + 1 - attempt else 0
  {
    if attempt <= p.maxRetries && f(attempt).Raised? && Retryable(p, f(attempt).error) {
      var e := f(attempt).error;
      SleepsFrom(p, f, jitter, attempt + 1, Some(e));
      var rest := From(p, f, jitter, attempt + 1, Some(e));
      var r := From(p, f, jitter, attempt, last);
      if attempt < p.maxRetries {
        assert r.sleeps == [Delay(p, attempt, jitter(attempt))] + rest.sleeps;
        forall k | 0 <= k < |r.sleeps|
          ensures r.sleeps[k] == Delay(p, attempt + k, jitter(attempt + k))
        {
          if k > 0 {
            var j := k - 1;
            assert r.sleeps[k] == rest.sleeps[j];
            assert rest.sleeps[j] == Delay(p, attempt + 1 + j, jitter(attempt + 1 + j));
            assert attempt + 1 + j == attempt + k;
          } else {
            assert r.sleeps[0] == Delay(p, attempt, jitter(attempt));
            assert attempt + k == attempt;
          }
        }
      } else {
        CallsAndSleeps(p, f, jitter, attempt + 1, Some(e));
      }
    }
  }

  /** The callback before sleep number `k` reports the exception attempt `k`
      raised and the attempt number `k + 1`. */
  lemma {:induction false} CallbacksFrom<T>(p: Policy, f: nat -> Attempt<T>, jitter: nat -> real, attempt: nat,
                                           last: Option<Failure>)
    ensures forall k :: 0 <= k < |From(p, f, jitter, attempt, last).retried| ==>
      && From(p, f, jitter, attempt, last).retried[k].1 == attempt + k + 1
      && f(attempt + k) == Raised(From(p, f, jitter, attempt, last).retried[k].0)
    decreases if attempt <= p.maxRetries then p.maxRetries + 1 - attempt else 0
  {
    if attempt <= p.maxRetries && f(attempt).Raised? && Retryable(p, f(attempt).error) {
      var e := f(attempt).error;
      CallbacksFrom(p, f, jitter, attempt + 1, Some(e));
      var rest := From(p, f, jitter, attempt + 1, Some(e));
      var r := From(p, f, jitter, attempt, last);
      if attempt < p.maxRetries {
        assert r.retried == [(e, attempt + 1)] + rest.retried;
        forall k | 0 <= k < |r.retried|
          ensures r.retried[k].1 == attempt + k + 1 && f(attempt + k) == Raised(r.retried[k].0)
        {
          if k > 0 {
            var j := k - 1;
            assert r.retried[k] == rest.retried[j];
            assert rest.retried[j].1 == attempt + 1 + j + 1 && f(attempt + 1 + j) == Raised(rest.retried[j].0);
            assert attempt + 1 + j == attempt + k;
          } else {
            assert r.retried[0] == (e, attempt + 1);
            assert attempt + k == attempt;
          }
        }
      } else {
        CallsAndSleeps(p, f, jitter, attempt + 1, Some(e));
      }
    } else {
      assert From(p, f, jitter, attempt, last).retried == [];
    }
  }

  /** A jittered delay is the backoff plus at most a tenth of it. */
  lemma DelayBound(p: Policy, attempt: nat, u: real)
    requires 0.0 <= u <= 1.0
    requires p.maxDelay >= 0.0
    ensures Delay(p, attempt, u) <= 1.1 * p.maxDelay
    ensures Backoff(p, attempt) >= 0.0 ==> Backoff(p, attempt) <= Delay(p, attempt, u)
  {
    JitterBound(Backoff(p, attempt), u, p.maxDelay);
  }

  lemma JitterBound(d: real, u: real, cap: real)
    requires 0.0 <= u <= 1.0 && 0.0 <= cap && d <= cap
    ensures Jittered(d, u) <= 1.1 * cap
    ensures d >= 0.0 ==> d <= Jittered(d, u)
  {
    var t := d * 0.1;
    if t >= 0.0 {
      Scaled(t, u);
    } else {
      Scaled(-t, u);
      assert (-t) * u == -(t * u);
    }
  }

  /** A fraction of a non-negative amount is at most that amount. */
  lemma Scaled(t: real, u: real)
    requires t >= 0.0 && 0.0 <= u <= 1.0
    ensures 0.0 <= t * u <= t
  {
    assert t - t * u == t * (1.0 - u);
  }

  /** With jitter fractions in [0, 1] and a non-negative cap, every sleep is
      at most 1.1 times `max_delay`. */
  lemma SleepsBounded<T>(p: Policy, f: nat -> Attempt<T>, jitter: nat -> real)
    requires forall i :: 0.0 <= jitter(i) <= 1.0
    requires p.maxDelay >= 0.0
    ensures forall k :: 0 <= k < |WithRetry(p, f, jitter).sleeps| ==>
      WithRetry(p, f, jitter).sleeps[k] <= 1.1 * p.maxDelay
  {
    SleepsFrom(p, f, jitter, 0, None);
    forall k | 0 <= k < |WithRetry(p, f, jitter).sleeps|
      ensures WithRetry(p, f, jitter).sleeps[k] <= 1.1 * p.maxDelay
    {
      assert WithRetry(p, f, jitter).sleeps[k] == Delay(p, 0 + k, jitter(0 + k));
      assert 0 + k == k;
      DelayBound(p, k, jitter(k));
    }
  }

  // ---- RetryConfig ----

  datatype RetryConfig = RetryConfig(maxRetries: int, baseDelay: real, maxDelay: real, enabled: bool)

  /** `RetryConfig()` with its defaults, `default_retry_config`. */
  const DefaultConfig: RetryConfig := RetryConfig(3, 0.5, 10.0, true)

  /** The function `create_decorator` returns, applied: the undecorated
      function when retry is disabled, `with_retry` with the configured
      numbers otherwise. */
  function Decorated<T>(cfg: RetryConfig, retryable: set<string>, f: nat -> Attempt<T>, jitter: nat -> real)
    : (r: Run<T>)
    ensures !cfg.enabled ==> r.calls == 1 && r.sleeps == [] && r.retried == []
    ensures !cfg.enabled ==> (r.outcome.Value? <==> f(0).Returned?)
    ensures !cfg.enabled && f(0).Raised? ==> r.outcome == Thrown(f(0).error)
  {
    if !cfg.enabled then
      match f(0)
      case Returned(v) => Run(Value(v), 1, [], [])
      case Raised(e) => Run(Thrown(e), 1, [], [])
    else WithRetry(Policy(cfg.maxRetries, cfg.baseDelay, cfg.maxDelay, retryable), f, jitter)
  }

  /** The default configuration decorates exactly as `with_retry()` does. */
  lemma DefaultsAgree<T>(f: nat -> Attempt<T>, jitter: nat -> real)
    ensures Decorated(DefaultConfig, NetworkErrors, f, jitter) == WithRetry(DefaultPolicy, f, jitter)
  {
  }
}
