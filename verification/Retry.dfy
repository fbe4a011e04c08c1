/**
 Bounded retries with capped exponential backoff and jitter.
 */
module Retry {
  import opened Text

  datatype RetryConfig = RetryConfig(
    maxRetries: int, initialDelayMs: real, maxDelayMs: real, backoffMultiplier: real, jitterMs: real)

  datatype Outcome<+V, +E> = Returned(value: V) | Threw(error: E)

  // ----- the delay before the next attempt -----

  function Pow(base: real, exponent: nat): real {
    if exponent == 0 then 1.0 else base * Pow(base, exponent - 1)
  }

  function Min(a: real, b: real): real { if a <= b then a else b }

  function ExponentialDelay(attempt: nat, config: RetryConfig): real {
    config.initialDelayMs * Pow(config.backoffMultiplier, attempt)
  }

  function Jitter(random: real, jitterMs: real): real { random * jitterMs }

  /** `random` is what `Math.random()` gave: at least zero and less than one. */
  function CalculateDelay(attempt: nat, config: RetryConfig, random: real): int {
    (Min(ExponentialDelay(attempt, config), config.maxDelayMs)
     + Jitter(random, config.jitterMs)).Floor
  }

  predicate IsRandom(random: real) { 0.0 <= random < 1.0 }

  lemma JitterIsBounded(random: real, jitterMs: real)
    requires IsRandom(random) && jitterMs >= 0.0
    ensures 0.0 <= Jitter(random, jitterMs) <= jitterMs
  {
    ProductIsNonNegative(random, jitterMs);
    ProductIsNonNegative(1.0 - random, jitterMs);
    assert jitterMs == random * jitterMs + (1.0 - random) * jitterMs;
  }

  /** No delay exceeds the cap and the jitter; none is negative when the configuration is not. */
  lemma DelayIsBounded(attempt: nat, config: RetryConfig, random: real)
    requires IsRandom(random) && config.jitterMs >= 0.0
    ensures CalculateDelay(attempt, config, random) as real <= config.maxDelayMs + config.jitterMs
    ensures config.initialDelayMs >= 0.0 && config.backoffMultiplier >= 0.0 && config.maxDelayMs >= 0.0 ==>
      CalculateDelay(attempt, config, random) >= 0
  {
    var exponential := ExponentialDelay(attempt, config);
    if config.initialDelayMs >= 0.0 && config.backoffMultiplier >= 0.0 {
      PowIsNonNegative(config.backoffMultiplier, attempt);
      ProductIsNonNegative(config.initialDelayMs, Pow(config.backoffMultiplier, attempt));
    }
    JitterIsBounded(random, config.jitterMs);
    var base, extra := Min(exponential, config.maxDelayMs), Jitter(random, config.jitterMs);
    assert CalculateDelay(attempt, config, random) == (base + extra).Floor;
    assert base <= config.maxDelayMs && extra <= config.jitterMs;
    FloorIsBounded(base, extra);
  }

  /** Nor is any more than a millisecond short of the exponential delay, or of the cap once that is reached. */
  lemma DelayIsAtLeast(attempt: nat, config: RetryConfig, random: real)
    requires IsRandom(random) && config.jitterMs >= 0.0
    ensures var exponential := ExponentialDelay(attempt, config);
      && (exponential <= config.maxDelayMs ==> CalculateDelay(attempt, config, random) as real > exponential - 1.0)
      && (exponential >= config.maxDelayMs ==> CalculateDelay(attempt, config, random) as real > config.maxDelayMs - 1.0)
      && CalculateDelay(attempt, config, random) as real <= exponential + config.jitterMs
  {
    hide ExponentialDelay, Jitter;
    JitterIsBounded(random, config.jitterMs);
    var base, extra := Min(ExponentialDelay(attempt, config), config.maxDelayMs), Jitter(random, config.jitterMs);
    assert CalculateDelay(attempt, config, random) == (base + extra).Floor;
    hide CalculateDelay;
    FloorIsBounded(base, extra);
  }

  /** With a multiplier of one or more, delays do not shrink from one attempt to the next. */
  lemma DelaysGrow(attempt: nat, config: RetryConfig, random: real)
    requires config.initialDelayMs >= 0.0 && config.backoffMultiplier >= 1.0
    ensures CalculateDelay(attempt, config, random) <= CalculateDelay(attempt + 1, config, random)
  {
    var e := ExponentialDelay(attempt, config);
    PowIsNonNegative(config.backoffMultiplier, attempt);
    ProductIsNonNegative(config.initialDelayMs, Pow(config.backoffMultiplier, attempt));
    ProductIsNonNegative(config.backoffMultiplier - 1.0, e);
    assert ExponentialDelay(attempt + 1, config) == e * config.backoffMultiplier by {
      Rearranged(config.initialDelayMs, config.backoffMultiplier, Pow(config.backoffMultiplier, attempt));
    }
    assert e * config.backoffMultiplier == e + (config.backoffMultiplier - 1.0) * e;
    var extra := Jitter(random, config.jitterMs);
    var next := ExponentialDelay(attempt + 1, config);
    assert Min(e, config.maxDelayMs) + extra <= Min(next, config.maxDelayMs) + extra;
    FloorGrows(Min(e, config.maxDelayMs) + extra, Min(next, config.maxDelayMs) + extra);
  }

  lemma Rearranged(a: real, b: real, c: real)
    ensures a * (b * c) == a * c * b
  {
  }

  lemma FloorGrows(x: real, y: real)
    requires x <= y
    ensures x.Floor <= y.Floor
  {
  }

  lemma FloorIsBounded(base: real, extra: real)
    ensures base + extra - 1.0 < (base + extra).Floor as real <= base + extra
    ensures base >= 0.0 && extra >= 0.0 ==> (base + extra).Floor >= 0
  {
  }

  lemma {:induction false} PowIsNonNegative(base: real, exponent: nat)
    requires base >= 0.0
    ensures Pow(base, exponent) >= 0.0
  {
    if exponent > 0 {
      PowIsNonNegative(base, exponent - 1);
      ProductIsNonNegative(base, Pow(base, exponent - 1));
    }
  }

  lemma ProductIsNonNegative(a: real, b: real)
    requires a >= 0.0 && b >= 0.0
    ensures a * b >= 0.0
  {
  }

  // ----- the loop -----

  function Sum(delays: seq<int>): int {
    if delays == [] then 0 else Sum(delays[..|delays| - 1]) + delays[|delays| - 1]
  }

  /**
   What a caller observes of `attempts` attempts: every attempt but the last threw an error worth
   retrying, and the last returned, or threw with no retry left or not worth one.
   */
  ghost predicate IsRetryRun<V, E>(config: RetryConfig, call: nat -> Outcome<V, E>, shouldRetry: (E, nat) -> bool,
                                   attempts: nat)
  {
    && 1 <= attempts <= config.maxRetries + 1
    && (forall k :: 0 <= k < attempts - 1 ==> call(k).Threw? && shouldRetry(call(k).error, k))
    && var last := attempts - 1;
       (call(last).Returned? || last == config.maxRetries || !shouldRetry(call(last).error, last))
  }

  /** `call(k)` is what attempt `k` does; `None` is the undefined error of a loop that never ran. */
  method Execute<V, E>(config: RetryConfig, call: nat -> Outcome<V, E>, shouldRetry: (E, nat) -> bool,
                       random: nat -> real)
    returns (result: Outcome<V, Option<E>>, attempts: nat, delays: seq<int>)
    ensures config.maxRetries < 0 ==> attempts == 0 && delays == [] && result == Threw(None)
    ensures config.maxRetries >= 0 ==> IsRetryRun(config, call, shouldRetry, attempts)
    ensures config.maxRetries >= 0 ==>
      result == match call(attempts - 1)
                case Returned(value) => Returned(value)
                case Threw(error) => Threw(Some(error))
    ensures attempts > 0 ==> |delays| == attempts - 1
    ensures forall k :: 0 <= k < |delays| ==> delays[k] == CalculateDelay(k, config, random(k))
  {
    hide CalculateDelay;
    var lastError: Option<E> := None;
    attempts, delays := 0, [];
    var attempt := 0;
    while attempt <= config.maxRetries
      invariant attempt == attempts == |delays|
      invariant if config.maxRetries >= 0 then attempt <= config.maxRetries else attempt == 0
      invariant forall k :: 0 <= k < attempt ==> call(k).Threw? && shouldRetry(call(k).error, k)
      invariant forall k :: 0 <= k < |delays| ==> delays[k] == CalculateDelay(k, config, random(k))
      invariant attempt == 0 ==> lastError == None
      decreases config.maxRetries + 1 - attempt
    {
      var outcome := call(attempt);
      attempts := attempts + 1;
      if outcome.Returned? {
        return Returned(outcome.value), attempts, delays;
      }
      lastError := Some(outcome.error);
      if attempt == config.maxRetries { break; }
      if !shouldRetry(outcome.error, attempt) { break; }
      delays := delays + [CalculateDelay(attempt, config, random(attempt))];
      attempt := attempt + 1;
    }
    return Threw(lastError), attempts, delays;
  }

  /** There is one number of attempts: the loop has no other way to end. */
  lemma RetryRunIsUnique<V, E>(config: RetryConfig, call: nat -> Outcome<V, E>, shouldRetry: (E, nat) -> bool,
                               a: nat, b: nat)
    requires IsRetryRun(config, call, shouldRetry, a) && IsRetryRun(config, call, shouldRetry, b)
    ensures a == b
  {
    var k := (if a < b then a else b) - 1;
    assert call(k) == call(k);
  }

  /** One cap and one jitter for each of `retries` retries. */
  function DelayBudget(retries: int, config: RetryConfig): real {
    retries as real * (config.maxDelayMs + config.jitterMs)
  }

  /** The delays of a whole run are bounded by one cap and one jitter for each retry allowed. */
  lemma {:induction false} TotalDelayIsBounded(config: RetryConfig, random: nat -> real, delays: seq<int>)
    requires config.jitterMs >= 0.0 && forall k :: IsRandom(random(k))
    requires forall k :: 0 <= k < |delays| ==> delays[k] == CalculateDelay(k, config, random(k))
    ensures Sum(delays) as real <= DelayBudget(|delays|, config)
  {
    hide CalculateDelay;
    if delays != [] {
      var last := |delays| - 1;
      TotalDelayIsBounded(config, random, delays[..last]);
      DelayIsBounded(last, config, random(last));
      var bound := config.maxDelayMs + config.jitterMs;
      assert |delays| as real * bound == last as real * bound + bound;
    }
  }

  lemma BudgetGrows(a: nat, b: nat, config: RetryConfig)
    requires a <= b && config.jitterMs >= 0.0 && config.maxDelayMs >= 0.0
    ensures DelayBudget(a, config) <= DelayBudget(b, config)
  {
    var d, x := (b - a) as real, config.maxDelayMs + config.jitterMs;
    ProductIsNonNegative(d, x);
    assert b as real == a as real + d;
    assert (a as real + d) * x == a as real * x + d * x;
  }

  lemma RetriesAreBounded(config: RetryConfig, random: nat -> real, delays: seq<int>)
    requires config.maxRetries >= 0 && config.jitterMs >= 0.0 && config.maxDelayMs >= 0.0
    requires |delays| <= config.maxRetries && forall k :: IsRandom(random(k))
    requires forall k :: 0 <= k < |delays| ==> delays[k] == CalculateDelay(k, config, random(k))
    ensures Sum(delays) as real <= DelayBudget(config.maxRetries, config)
  {
    TotalDelayIsBounded(config, random, delays);
    BudgetGrows(|delays|, config.maxRetries, config);
    hide DelayBudget;
  }
}
