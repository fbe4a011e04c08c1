/**
 A request of the resilient client: retries around the circuit breaker around the call, then the
 stale cache, then the fallback. One caller, and a store that answers.
 */
module ResilientClient {
  import opened Text
  import opened CircuitBreaker
  import opened Retry

  /** What an attempt can throw: the breaker's refusal, or the error of the call (a timeout included). */
  datatype Failure<+E> = CircuitOpen | Upstream(error: E)

  /** What the underlying call would do at an attempt, and how long that attempt takes. */
  datatype Call<+V, +E> = Call(outcome: Outcome<V, E>, duration: nat)

  /** One attempt: whether it reached the underlying call, its outcome, and the record it leaves. */
  datatype Attempt<+V, +E> = Attempt(reached: bool, outcome: Outcome<V, Failure<E>>, record: Record,
                                     enteredAt: nat, endedAt: nat)

  /** `circuitBreaker.execute(name, attempt)`, entered at `now`. */
  function Try<V, E>(r: Record, config: Config, now: nat, call: Call<V, E>): Attempt<V, E> {
    var end := now + call.duration;
    match VerdictOf(r, config, now)
    case Rejected => Attempt(false, Threw(CircuitOpen), Entered(r, config, now), now, end)
    case verdict =>
      var begun := if verdict == Probe then Begun(Entered(r, config, now)) else Entered(r, config, now);
      match call.outcome
      case Returned(value) => Attempt(true, Returned(value), Succeeded(begun, config, end), now, end)
      case Threw(error) => Attempt(true, Threw(Upstream(error)), CircuitBreaker.Failed(begun, config, end), now, end)
  }

  /** Everything a request is given besides the record of its breaker; `random` is what `Math.random()` gives. */
  datatype Setting<!V, !E> = Setting(
    config: Config, retry: RetryConfig,
    calls: nat -> Call<V, E>, shouldRetry: (Failure<E>, nat) -> bool, random: nat -> real)

  /** How long the retry loop sleeps after attempt `k`; a timer takes a negative delay for none. */
  function DelayAfter<V, E>(s: Setting<V, E>, k: nat): nat {
    var delay := CalculateDelay(k, s.retry, s.random(k));
    if delay < 0 then 0 else delay
  }

  /** `withRetries()` from attempt `k` on: the attempts in order. */
  function Attempts<V, E>(s: Setting<V, E>, k: nat, r: Record, now: nat): (trace: seq<Attempt<V, E>>)
    requires k <= s.retry.maxRetries
    ensures 1 <= |trace| <= s.retry.maxRetries - k + 1
    decreases s.retry.maxRetries - k
  {
    var a := Try(r, s.config, now, s.calls(k));
    if a.outcome.Returned? || k == s.retry.maxRetries || !s.shouldRetry(a.outcome.error, k) then [a]
    else [a] + Attempts(s, k + 1, a.record, a.endedAt + DelayAfter(s, k))
  }

  /** The whole request: the value served, or the error rethrown (`None` when no attempt was made). */
  function Request<V, E>(s: Setting<V, E>, r: Record, now: nat, stale: Option<V>, fallback: Option<V>)
    : Outcome<V, Option<Failure<E>>>
  {
    var result :=
      if s.retry.maxRetries < 0 then Threw(None)
      else
        var trace := Attempts(s, 0, r, now);
        match trace[|trace| - 1].outcome
        case Returned(value) => Returned(value)
        case Threw(error) => Threw(Some(error));
    if result.Returned? then result
    else if stale.Some? then Returned(stale.value)
    else if fallback.Some? then Returned(fallback.value)
    else result
  }

  // ----- the attempts of a request are a run of the retry loop -----

  lemma {:induction false} AttemptsFollow<V, E>(s: Setting<V, E>, k: nat, r: Record, now: nat, i: nat)
    requires k <= s.retry.maxRetries && i < |Attempts(s, k, r, now)|
    ensures var trace := Attempts(s, k, r, now);
      && (i == 0 ==> trace[0] == Try(r, s.config, now, s.calls(k)))
      && (i > 0 ==> trace[i] == Try(trace[i - 1].record, s.config, trace[i - 1].endedAt + DelayAfter(s, k + i - 1), s.calls(k + i)))
      && (i < |trace| - 1 ==> trace[i].outcome.Threw? && s.shouldRetry(trace[i].outcome.error, k + i))
      && (i == |trace| - 1 ==>
            || trace[i].outcome.Returned? || k + i == s.retry.maxRetries
            || !s.shouldRetry(trace[i].outcome.error, k + i))
    decreases s.retry.maxRetries - k
  {
    hide Try, DelayAfter;
    var trace := Attempts(s, k, r, now);
    if i > 0 {
      var a := trace[0];
      var rest := Attempts(s, k + 1, a.record, a.endedAt + DelayAfter(s, k));
      assert trace == [a] + rest;
      hide Attempts;
      AttemptsFollow(s, k + 1, a.record, a.endedAt + DelayAfter(s, k), i - 1);
      assert trace[i] == rest[i - 1] && (i > 1 ==> trace[i - 1] == rest[i - 2]);
    }
  }

  /** What attempt `k` of a trace did, as the retry loop sees it. */
  function OutcomeAt<V, E>(trace: seq<Attempt<V, E>>, k: nat): Outcome<V, Failure<E>> {
    if k < |trace| then trace[k].outcome else Threw(CircuitOpen)
  }

  /** The attempts of a request are exactly as many as the retry loop makes of their outcomes. */
  lemma AttemptsAreRetryRun<V, E>(s: Setting<V, E>, r: Record, now: nat)
    requires s.retry.maxRetries >= 0
    ensures var trace := Attempts(s, 0, r, now);
      IsRetryRun(s.retry, k => OutcomeAt(trace, k), s.shouldRetry, |trace|)
  {
    var trace := Attempts(s, 0, r, now);
    forall i: nat | i < |trace|
      ensures i < |trace| - 1 ==> trace[i].outcome.Threw? && s.shouldRetry(trace[i].outcome.error, i)
      ensures i == |trace| - 1 ==>
        trace[i].outcome.Returned? || i == s.retry.maxRetries || !s.shouldRetry(trace[i].outcome.error, i)
    {
      AttemptsFollow(s, 0, r, now, i);
    }
  }

  // ----- an open breaker ends the calls of a request -----

  lemma RejectedWhileOpen<V, E>(r: Record, config: Config, now: nat, call: Call<V, E>)
    requires r.mode == Open && r.lastFailureTime.Some?
    requires now - r.lastFailureTime.value < config.recoveryTimeoutMs
    ensures var a := Try(r, config, now, call);
      !a.reached && a.outcome == Threw(CircuitOpen) && a.record == r.(rejectedCalls := r.rejectedCalls + 1)
  {
  }

  /**
   Once the breaker is open after attempt `i`, no later attempt that starts before the recovery
   timeout has passed since the last failure reaches the call: each only adds a rejection.
   */
  lemma {:induction false} OpenBreakerEndsCalls<V, E>(s: Setting<V, E>, r: Record, now: nat, i: nat, j: nat)
    requires s.retry.maxRetries >= 0 && i < j < |Attempts(s, 0, r, now)|
    requires var trace := Attempts(s, 0, r, now);
      var tripped := trace[i].record;
      && tripped.mode == Open && tripped.lastFailureTime.Some?
      && trace[j].enteredAt - tripped.lastFailureTime.value < s.config.recoveryTimeoutMs
    ensures var trace := Attempts(s, 0, r, now);
      && !trace[j].reached && trace[j].outcome == Threw(CircuitOpen)
      && trace[j].record == trace[i].record.(rejectedCalls := trace[i].record.rejectedCalls + (j - i))
    decreases j
  {
    hide Attempts;
    var trace := Attempts(s, 0, r, now);
    AttemptsFollow(s, 0, r, now, j);
    AttemptsFollow(s, 0, r, now, j - 1);
    var before := trace[j - 1];
    TimesGrow(s, j, before, trace[j]);
    if i < j - 1 {
      AttemptsFollow(s, 0, r, now, j - 2);
      assert before.enteredAt <= trace[j].enteredAt;
      OpenBreakerEndsCalls(s, r, now, i, j - 1);
    }
    RejectedWhileOpen(before.record, s.config, trace[j].enteredAt, s.calls(j));
  }

  lemma TimesGrow<V, E>(s: Setting<V, E>, j: nat, before: Attempt<V, E>, a: Attempt<V, E>)
    requires j > 0 && a == Try(before.record, s.config, before.endedAt + DelayAfter(s, j - 1), s.calls(j))
    requires before.enteredAt <= before.endedAt
    ensures a.enteredAt == before.endedAt + DelayAfter(s, j - 1) && before.enteredAt <= a.enteredAt <= a.endedAt
    ensures a == Try(before.record, s.config, a.enteredAt, s.calls(j))
  {
  }

  // ----- what the configuration says of it -----

  /** What lies between the end of attempt `i` and the entry of attempt `j`: delays, and the attempts between. */
  function Between<V, E>(s: Setting<V, E>, i: nat, j: nat): nat
    requires i < j
    decreases j
  {
    if j == i + 1 then DelayAfter(s, i) else Between(s, i, j - 1) + s.calls(j - 1).duration + DelayAfter(s, j - 1)
  }

  lemma {:induction false} EntryTime<V, E>(s: Setting<V, E>, r: Record, now: nat, i: nat, j: nat)
    requires s.retry.maxRetries >= 0 && i < j < |Attempts(s, 0, r, now)|
    ensures var trace := Attempts(s, 0, r, now);
      trace[j].enteredAt == trace[i].endedAt + Between(s, i, j)
    decreases j
  {
    hide Attempts, DelayAfter;
    AttemptsFollow(s, 0, r, now, j);
    AttemptsFollow(s, 0, r, now, j - 1);
    if j > i + 1 {
      EntryTime(s, r, now, i, j - 1);
    }
  }

  /** A breaker that an attempt leaves open was tripped by the failure of that attempt. */
  lemma TrippedByFailure<V, E>(r: Record, config: Config, now: nat, call: Call<V, E>)
    ensures var a := Try(r, config, now, call);
      a.reached && a.record.mode == Open ==> a.outcome.Threw? && a.record.lastFailureTime == Some(a.endedAt)
  {
  }

  /** Once an attempt has opened the breaker, no attempt within the recovery timeout of it reaches the call. */
  lemma CallsEndWithinRecovery<V, E>(s: Setting<V, E>, r: Record, now: nat, i: nat, j: nat)
    requires s.retry.maxRetries >= 0 && i < j < |Attempts(s, 0, r, now)|
    requires Attempts(s, 0, r, now)[i].reached && Attempts(s, 0, r, now)[i].record.mode == Open
    requires Between(s, i, j) < s.config.recoveryTimeoutMs
    ensures var trace := Attempts(s, 0, r, now);
      !trace[j].reached && trace[j].outcome == Threw(CircuitOpen)
  {
    AttemptsFollow(s, 0, r, now, i);
    hide Attempts, Between, DelayAfter;
    var trace := Attempts(s, 0, r, now);
    if i == 0 {
      TrippedByFailure(r, s.config, now, s.calls(0));
    } else {
      TrippedByFailure(trace[i - 1].record, s.config, trace[i - 1].endedAt + DelayAfter(s, i - 1), s.calls(i));
    }
    hide Try;
    EntryTime(s, r, now, i, j);
    OpenBreakerEndsCalls(s, r, now, i, j);
  }

  /** `retries` delays at their longest, and the attempts between them. */
  function LongestWait<V, E>(s: Setting<V, E>, retries: nat, longestAttempt: nat): real {
    DelayBudget(retries, s.retry) + (retries * longestAttempt) as real
  }

  lemma LongestWaitGrows<V, E>(s: Setting<V, E>, a: nat, b: nat, longestAttempt: nat)
    requires a <= b && s.retry.jitterMs >= 0.0 && s.retry.maxDelayMs >= 0.0
    ensures LongestWait(s, a, longestAttempt) <= LongestWait(s, b, longestAttempt)
  {
    BudgetGrows(a, b, s.retry);
    hide DelayBudget;
    assert b * longestAttempt == a * longestAttempt + (b - a) * longestAttempt;
  }

  lemma LongestWaitStep<V, E>(s: Setting<V, E>, n: nat, longestAttempt: nat)
    ensures LongestWait(s, n + 1, longestAttempt)
         == LongestWait(s, n, longestAttempt) + (s.retry.maxDelayMs + s.retry.jitterMs) + longestAttempt as real
  {
    var bound := s.retry.maxDelayMs + s.retry.jitterMs;
    assert (n + 1) as real * bound == n as real * bound + bound;
    assert (n + 1) * longestAttempt == n * longestAttempt + longestAttempt;
  }

  lemma {:induction false} BetweenIsBounded<V, E>(s: Setting<V, E>, i: nat, j: nat, longestAttempt: nat)
    requires i < j && s.retry.jitterMs >= 0.0 && s.retry.maxDelayMs >= 0.0
    requires forall k :: IsRandom(s.random(k)) && s.calls(k).duration <= longestAttempt
    ensures Between(s, i, j) as real <= LongestWait(s, j - i, longestAttempt)
    decreases j
  {
    hide CalculateDelay, LongestWait;
    DelayIsBounded(j - 1, s.retry, s.random(j - 1));
    LongestWaitStep(s, j - i - 1, longestAttempt);
    if j > i + 1 {
      BetweenIsBounded(s, i, j - 1, longestAttempt);
    } else {
      NoWait(s, longestAttempt);
    }
  }

  lemma NoWait<V, E>(s: Setting<V, E>, longestAttempt: nat)
    ensures LongestWait(s, 0, longestAttempt) == 0.0
  {
  }

  /**
   The composition: when the retries that are left, delayed as long as the configuration allows, are over
   before the recovery timeout, then once an attempt has opened the breaker none after it reaches the call.
   */
  lemma OpenBreakerEndsRequest<V, E>(s: Setting<V, E>, r: Record, now: nat, i: nat, longestAttempt: nat)
    requires s.retry.maxRetries >= 0 && i < |Attempts(s, 0, r, now)|
    requires Attempts(s, 0, r, now)[i].reached && Attempts(s, 0, r, now)[i].record.mode == Open
    requires s.retry.jitterMs >= 0.0 && s.retry.maxDelayMs >= 0.0
    requires forall k :: IsRandom(s.random(k)) && s.calls(k).duration <= longestAttempt
    requires LongestWait(s, s.retry.maxRetries - i, longestAttempt) < s.config.recoveryTimeoutMs as real
    ensures var trace := Attempts(s, 0, r, now);
      forall j :: i < j < |trace| ==> !trace[j].reached && trace[j].outcome == Threw(CircuitOpen)
  {
    var trace := Attempts(s, 0, r, now);
    hide Attempts, LongestWait, Between, IsRandom;
    forall j | i < j < |trace|
      ensures !trace[j].reached && trace[j].outcome == Threw(CircuitOpen)
    {
      BetweenIsBounded(s, i, j, longestAttempt);
      LongestWaitGrows(s, j - i, s.retry.maxRetries - i, longestAttempt);
      CallsEndWithinRecovery(s, r, now, i, j);
    }
  }

  // ----- which errors are worth retrying -----

  /** What a fetch can throw; `Unknown` is any error that is not one of its own. */
  datatype FetchError = ResponseError(status: int) | ParseError | TimeoutError | ValidationError | Unknown

  /** `isRetryableFetchError`; the refusal of the breaker is an error it does not know. */
  predicate IsRetryableFetchError(error: Failure<FetchError>) {
    match error
    case Upstream(ResponseError(status)) => status == 408 || status == 425 || status == 429 || status >= 500
    case Upstream(TimeoutError) => true
    case Upstream(ParseError) => true
    case _ => false
  }

  /**
   Unless the caller says otherwise, a refusal is the last attempt of its request, and every attempt
   before the last one reached the call and failed with an error worth retrying.
   */
  lemma RefusalEndsRequest<V>(s: Setting<V, FetchError>, r: Record, now: nat, i: nat)
    requires s.retry.maxRetries >= 0 && i < |Attempts(s, 0, r, now)|
    requires forall e, k :: s.shouldRetry(e, k) == IsRetryableFetchError(e)
    ensures var trace := Attempts(s, 0, r, now);
      && (!trace[i].reached ==> i == |trace| - 1)
      && (i < |trace| - 1 ==>
            && trace[i].reached && trace[i].outcome.Threw? && trace[i].outcome.error.Upstream?
            && IsRetryableFetchError(trace[i].outcome.error))
  {
    AttemptsFollow(s, 0, r, now, i);
    hide Attempts, DelayAfter;
  }

  // ----- what a request gives -----

  /**
   A request serves the value of the attempt that succeeded; failing that the stale entry, failing
   that the fallback; it rethrows only without any of these, and then the error of its last attempt.
   */
  lemma RequestDegradesInOrder<V, E>(s: Setting<V, E>, r: Record, now: nat, stale: Option<V>, fallback: Option<V>)
    requires s.retry.maxRetries >= 0
    ensures var trace := Attempts(s, 0, r, now);
      var result := Request(s, r, now, stale, fallback);
      if exists k :: 0 <= k < |trace| && trace[k].outcome.Returned? then
        trace[|trace| - 1].outcome.Returned? && result == Returned(trace[|trace| - 1].outcome.value)
      else if stale.Some? then result == Returned(stale.value)
      else if fallback.Some? then result == Returned(fallback.value)
      else trace[|trace| - 1].outcome.Threw? && result == Threw(Some(trace[|trace| - 1].outcome.error))
  {
    var trace := Attempts(s, 0, r, now);
    forall i: nat | i < |trace| - 1
      ensures trace[i].outcome.Threw?
    {
      AttemptsFollow(s, 0, r, now, i);
    }
  }
}
