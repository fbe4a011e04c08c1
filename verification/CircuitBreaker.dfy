/**
 The circuit breaker: one record shared by overlapping calls, each admitted in one step and completed in another.
 */
module CircuitBreaker {
  import opened Text

  datatype Mode = Closed | Open | HalfOpen

  datatype Config = Config(failureThreshold: int, recoveryTimeoutMs: int, successThreshold: int)

  datatype Record = Record(
    mode: Mode, failures: int, successes: int,
    lastFailureTime: Option<nat>, lastSuccessTime: Option<nat>,
    totalCalls: nat, totalFailures: nat, totalSuccesses: nat, rejectedCalls: nat)

  const INITIAL := Record(Closed, 0, 0, None, None, 0, 0, 0, 0)

  // ----- what each stretch of `execute` between two awaits does to the record -----

  /** What the entry of `execute` decides. A probe still has to store the transition before it runs. */
  datatype Verdict = Rejected | Probe | Admitted

  /** A time of zero is falsy, like no time. */
  predicate RecoveryDue(r: Record, config: Config, now: nat) {
    r.lastFailureTime.Some? && r.lastFailureTime.value != 0
    && now - r.lastFailureTime.value >= config.recoveryTimeoutMs
  }

  function VerdictOf(r: Record, config: Config, now: nat): Verdict {
    if r.mode != Open then Admitted
    else if RecoveryDue(r, config, now) then Probe
    else Rejected
  }

  function Entered(r: Record, config: Config, now: nat): Record {
    match VerdictOf(r, config, now)
    case Admitted => r.(totalCalls := r.totalCalls + 1)
    case Probe => r.(mode := HalfOpen, failures := 0, successes := 0)
    case Rejected => r.(rejectedCalls := r.rejectedCalls + 1)
  }

  function Begun(r: Record): Record { r.(totalCalls := r.totalCalls + 1) }

  function Succeeded(r: Record, config: Config, now: nat): Record {
    var r := r.(totalSuccesses := r.totalSuccesses + 1, lastSuccessTime := Some(now));
    if r.mode == HalfOpen then
      var r := r.(successes := r.successes + 1);
      if r.successes >= config.successThreshold then r.(mode := Closed, failures := 0, successes := 0) else r
    else r.(failures := 0)
  }

  function Failed(r: Record, config: Config, now: nat): Record {
    var r := r.(totalFailures := r.totalFailures + 1, lastFailureTime := Some(now));
    match r.mode
    case HalfOpen => r.(mode := Open, failures := 0, successes := 0)
    case Closed =>
      var r := r.(failures := r.failures + 1);
      if r.failures >= config.failureThreshold then r.(mode := Open) else r
    case Open => r
  }

  // ----- the service -----

  class CircuitBreakerService {
    const config: Config
    var mode: Mode
    var failures: int
    var successes: int
    var lastFailureTime: Option<nat>
    var lastSuccessTime: Option<nat>
    var totalCalls: nat
    var totalFailures: nat
    var totalSuccesses: nat
    var rejectedCalls: nat

    function State(): Record
      reads this
    {
      Record(mode, failures, successes, lastFailureTime, lastSuccessTime,
             totalCalls, totalFailures, totalSuccesses, rejectedCalls)
    }

    constructor (config: Config)
      ensures this.config == config && State() == INITIAL
    {
      this.config := config;
      mode, failures, successes := Closed, 0, 0;
      lastFailureTime, lastSuccessTime := None, None;
      totalCalls, totalFailures, totalSuccesses, rejectedCalls := 0, 0, 0, 0;
    }

    /** From the entry of `execute` to its first await, or to the call of `fn`. */
    method Enter(now: nat) returns (verdict: Verdict)
      modifies this
      ensures State() == Entered(old(State()), config, now)
      ensures verdict == VerdictOf(old(State()), config, now)
    {
      if mode == Open {
        if lastFailureTime.Some? && lastFailureTime.value != 0
           && now - lastFailureTime.value >= config.recoveryTimeoutMs {
          mode := HalfOpen;
          failures := 0;
          successes := 0;
          return Probe;
        }
        rejectedCalls := rejectedCalls + 1;
        return Rejected;
      }
      totalCalls := totalCalls + 1;
      return Admitted;
    }

    /** A probe whose transition has been stored goes on to the call of `fn`. */
    method BeginProbe()
      modifies this
      ensures State() == Begun(old(State()))
    {
      totalCalls := totalCalls + 1;
    }

    /** `fn` has resolved. */
    method OnSuccess(now: nat)
      modifies this
      ensures State() == Succeeded(old(State()), config, now)
    {
      totalSuccesses := totalSuccesses + 1;
      lastSuccessTime := Some(now);
      if mode == HalfOpen {
        successes := successes + 1;
        if successes >= config.successThreshold {
          mode := Closed;
          failures := 0;
          successes := 0;
        }
      } else {
        failures := 0;
      }
    }

    /** `fn` has thrown, or storing the record after a success has. */
    method OnFailure(now: nat)
      modifies this
      ensures State() == Failed(old(State()), config, now)
    {
      totalFailures := totalFailures + 1;
      lastFailureTime := Some(now);
      if mode == HalfOpen {
        failures := 0;
        successes := 0;
        mode := Open;
      } else if mode == Closed {
        failures := failures + 1;
        if failures >= config.failureThreshold {
          mode := Open;
        }
      }
    }
  }

  // ----- interleavings -----

  /** A completion as the record sees it. */
  datatype Completion = Ok(at: nat) | Bad(at: nat)

  /**
   The record and the calls under way: probes storing their transition, calls inside `fn`, calls
   storing the record after a success. `unstored` counts the successes whose store threw. `log` is
   every completion so far, `halfOpenFrom` and `closedFrom` its length when the breaker last became half
   open and last became closed.
   */
  datatype World = World(
    record: Record, probing: nat, running: nat, storing: nat, unstored: nat,
    now: nat, log: seq<Completion>, halfOpenFrom: nat, closedFrom: nat)

  datatype Event =
    | Enter(now: nat)
    | ProbeStored(ok: bool)
    | Success(now: nat)
    | SuccessStored(ok: bool, now: nat)
    | Failure(now: nat)

  const START := World(INITIAL, 0, 0, 0, 0, 1, [], 0, 0)

  /** Clocks do not run backwards, and only a call that is under way can go on. */
  predicate CanHappen(w: World, e: Event) {
    match e
    case Enter(now) => now >= w.now
    case ProbeStored(_) => w.probing > 0
    case Success(now) => now >= w.now && w.running > 0
    case SuccessStored(_, now) => now >= w.now && w.storing > 0
    case Failure(now) => now >= w.now && w.running > 0
  }

  function Happen(w: World, config: Config, e: Event): World
    requires CanHappen(w, e)
  {
    match e
    case Enter(now) =>
      var verdict := VerdictOf(w.record, config, now);
      w.(record := Entered(w.record, config, now), now := now,
         probing := w.probing + (if verdict == Probe then 1 else 0),
         running := w.running + (if verdict == Admitted then 1 else 0),
         halfOpenFrom := if verdict == Probe then |w.log| else w.halfOpenFrom)
    case ProbeStored(ok) =>
      if ok then w.(record := Begun(w.record), probing := w.probing - 1, running := w.running + 1)
      else w.(probing := w.probing - 1)
    case Success(now) =>
      w.(record := Succeeded(w.record, config, now), now := now, log := w.log + [Ok(now)],
         running := w.running - 1, storing := w.storing + 1,
         closedFrom := if w.record.mode == HalfOpen && Succeeded(w.record, config, now).mode == Closed then |w.log| + 1
                       else w.closedFrom)
    case SuccessStored(ok, now) =>
      if ok then w.(now := now, storing := w.storing - 1)
      else w.(record := Failed(w.record, config, now), now := now, log := w.log + [Bad(now)],
              storing := w.storing - 1, unstored := w.unstored + 1)
    case Failure(now) =>
      w.(record := Failed(w.record, config, now), now := now, log := w.log + [Bad(now)],
         running := w.running - 1)
  }

  /** The world after a run; `None` when one of its events cannot happen. */
  function Run(config: Config, events: seq<Event>): Option<World> {
    if events == [] then Some(START) else
      match Run(config, events[..|events| - 1])
      case None => None
      case Some(w) =>
        if CanHappen(w, events[|events| - 1]) then Some(Happen(w, config, events[|events| - 1])) else None
  }

  // ----- what holds after every run -----

  /** How many completions failed in a row, up to the last one and not further back than `from`. */
  function TrailingBad(log: seq<Completion>, from: nat): nat {
    if |log| <= from || log[|log| - 1].Ok? then 0 else 1 + TrailingBad(log[..|log| - 1], from)
  }

  lemma TrailingAppended(log: seq<Completion>, c: Completion, from: nat)
    requires from <= |log|
    ensures TrailingBad(log + [c], from) == if c.Ok? then 0 else 1 + TrailingBad(log, from)
    ensures TrailingBad(log + [c], |log| + 1) == 0
  {
    assert (log + [c])[..|log|] == log;
  }

  lemma FailuresAppended(log: seq<Completion>, c: Completion)
    ensures Failures(log + [c]) == Failures(log) + if c.Bad? then 1 else 0
  {
    assert (log + [c])[..|log|] == log;
  }

  predicate LastAreBad(log: seq<Completion>, n: int) {
    n <= |log| && forall i :: |log| - n <= i < |log| && 0 <= i ==> log[i].Bad?
  }

  lemma {:induction false} TrailingAreBad(log: seq<Completion>, from: nat)
    ensures TrailingBad(log, from) <= |log| && LastAreBad(log, TrailingBad(log, from))
  {
    if |log| > from && log[|log| - 1].Bad? { TrailingAreBad(log[..|log| - 1], from); }
  }

  predicate AllOkFrom(log: seq<Completion>, from: nat) {
    from <= |log| && forall i :: from <= i < |log| ==> log[i].Ok?
  }

  /** The time of the latest failed completion. */
  function LatestBad(log: seq<Completion>): Option<nat> {
    if log == [] then None
    else if log[|log| - 1].Bad? then Some(log[|log| - 1].at)
    else LatestBad(log[..|log| - 1])
  }

  /** Every call that began has succeeded, failed or is running; a success that could not be stored failed as well. */
  predicate TotalsAgree(w: World) {
    && w.record.totalCalls + w.unstored == w.record.totalSuccesses + w.record.totalFailures + w.running
    && w.record.totalFailures == Failures(w.log) && w.record.totalSuccesses == |w.log| - Failures(w.log)
  }

  function Failures(log: seq<Completion>): nat {
    if log == [] then 0 else Failures(log[..|log| - 1]) + if log[|log| - 1].Bad? then 1 else 0
  }

  /** The record against the completions so far. */
  ghost predicate FitsLog(r: Record, config: Config, log: seq<Completion>, halfOpenFrom: nat, closedFrom: nat, now: nat) {
    && now >= 1
    && (r.lastFailureTime.Some? ==> 1 <= r.lastFailureTime.value <= now)
    && r.lastFailureTime == LatestBad(log)
    && 0 <= r.failures
    && closedFrom <= |log|
    && (r.mode == Closed ==>
          r.failures == TrailingBad(log, closedFrom) < config.failureThreshold)
    && (r.mode == HalfOpen ==>
          && r.failures == 0 && 0 <= r.successes < config.successThreshold
          && AllOkFrom(log, halfOpenFrom) && r.successes == |log| - halfOpenFrom)
    && (r.mode == Open ==> r.lastFailureTime.Some?)
  }

  ghost predicate Consistent(w: World, config: Config) {
    TotalsAgree(w) && FitsLog(w.record, config, w.log, w.halfOpenFrom, w.closedFrom, w.now)
  }

  predicate Sensible(config: Config) { config.failureThreshold >= 1 && config.successThreshold >= 1 }

  lemma LatestBadAppended(log: seq<Completion>, c: Completion)
    ensures LatestBad(log + [c]) == if c.Bad? then Some(c.at) else LatestBad(log)
  {
    assert (log + [c])[..|log|] == log;
  }

  lemma SuccessFits(w: World, config: Config, now: nat)
    requires Sensible(config) && Consistent(w, config) && w.now <= now && w.running > 0
    ensures var w' := Happen(w, config, Success(now));
      FitsLog(w'.record, config, w'.log, w'.halfOpenFrom, w'.closedFrom, now)
  {
    LatestBadAppended(w.log, Ok(now));
    TrailingAppended(w.log, Ok(now), w.closedFrom);
    hide LatestBad, TrailingBad;
  }

  lemma FailureFits(w: World, config: Config, now: nat)
    requires Sensible(config) && Consistent(w, config) && w.now <= now
    ensures FitsLog(Failed(w.record, config, now), config, w.log + [Bad(now)], w.halfOpenFrom, w.closedFrom, now)
  {
    LatestBadAppended(w.log, Bad(now));
    TrailingAppended(w.log, Bad(now), w.closedFrom);
    hide LatestBad, TrailingBad;
  }

  lemma EntryFits(w: World, config: Config, now: nat)
    requires Sensible(config) && Consistent(w, config) && w.now <= now
    ensures FitsLog(Entered(w.record, config, now), config, w.log,
                    if VerdictOf(w.record, config, now) == Probe then |w.log| else w.halfOpenFrom, w.closedFrom, now)
  {
    hide LatestBad, TrailingBad;
  }

  lemma ConsistentKept(w: World, config: Config, e: Event)
    requires Sensible(config) && Consistent(w, config) && CanHappen(w, e)
    ensures Consistent(Happen(w, config, e), config)
  {
    hide LatestBad, AllOkFrom, TrailingBad, Failures;
    match e
    case Enter(now) => EntryFits(w, config, now);
    case ProbeStored(_) =>
    case Success(now) =>
      SuccessFits(w, config, now);
      FailuresAppended(w.log, Ok(now));
    case SuccessStored(_, now) =>
      FailureFits(w, config, now);
      FailuresAppended(w.log, Bad(now));
    case Failure(now) =>
      FailureFits(w, config, now);
      FailuresAppended(w.log, Bad(now));
  }

  lemma StartIsConsistent(config: Config)
    requires Sensible(config)
    ensures Consistent(START, config)
  {
  }

  /** Every interleaving of admissions and completions keeps the record consistent with its history. */
  lemma {:induction false} RunIsConsistent(config: Config, events: seq<Event>)
    requires Sensible(config)
    ensures Run(config, events).Some? ==> Consistent(Run(config, events).value, config)
  {
    hide Happen, CanHappen, Consistent;
    if events == [] {
      StartIsConsistent(config);
    } else {
      var before := events[..|events| - 1];
      RunIsConsistent(config, before);
      if Run(config, events).Some? {
        ConsistentKept(Run(config, before).value, config, events[|events| - 1]);
      }
    }
  }

  // ----- the transitions, over whole runs -----

  /**
   The breaker trips from closed only at the end of as many failed completions in a row as the
   threshold says, becomes half open only when the timeout has passed since the latest failed
   completion, and closes again only after as many successes as its threshold says and no failure
   since it became half open. It never goes from closed to half open or from open to closed.
   */
  lemma TransitionsAreEarned(config: Config, events: seq<Event>, e: Event)
    requires Sensible(config) && Run(config, events).Some? && CanHappen(Run(config, events).value, e)
    ensures var w := Run(config, events).value;
      var w' := Happen(w, config, e);
      match (w.record.mode, w'.record.mode)
      case (Closed, Open) => LastAreBad(w'.log, config.failureThreshold)
      case (Closed, HalfOpen) => false
      case (Open, HalfOpen) =>
        e.Enter? && LatestBad(w.log).Some? && e.now - LatestBad(w.log).value >= config.recoveryTimeoutMs
      case (Open, Closed) => false
      case (HalfOpen, Closed) =>
        AllOkFrom(w'.log, w'.halfOpenFrom) && |w'.log| - w'.halfOpenFrom == config.successThreshold
      case (HalfOpen, Open) => |w'.log| == |w.log| + 1 && w'.log[|w.log|].Bad?
      case _ => true
  {
    RunIsConsistent(config, events);
    var w := Run(config, events).value;
    ModeStep(w, config, e);
    TrailingAreBad(Happen(w, config, e).log, w.closedFrom);
    hide Run, LatestBad, TrailingBad;
  }

  /** The mode after `e`, by the history alone. */
  predicate ModeFollows(w: World, w': World, config: Config, e: Event) {
    match w.record.mode
    case Closed =>
      w'.record.mode == if TrailingBad(w'.log, w.closedFrom) >= config.failureThreshold then Open else Closed
    case HalfOpen =>
      w'.record.mode == if |w'.log| <= |w.log| then HalfOpen
                        else if w'.log[|w.log|].Bad? then Open
                        else if |w'.log| - w.halfOpenFrom >= config.successThreshold then Closed
                        else HalfOpen
    case Open =>
      w'.record.mode == if e.Enter? && LatestBad(w.log).Some? && e.now - LatestBad(w.log).value >= config.recoveryTimeoutMs
                        then HalfOpen else Open
  }

  lemma ModeStep(w: World, config: Config, e: Event)
    requires Sensible(config) && Consistent(w, config) && CanHappen(w, e)
    ensures ModeFollows(w, Happen(w, config, e), config, e)
  {
    match e {
      case Success(now) => TrailingAppended(w.log, Ok(now), w.closedFrom);
      case SuccessStored(_, now) => TrailingAppended(w.log, Bad(now), w.closedFrom);
      case Failure(now) => TrailingAppended(w.log, Bad(now), w.closedFrom);
      case _ =>
    }
    hide LatestBad, TrailingBad, AllOkFrom;
  }

  /**
   The mode after any event of any run, by the history alone. Closed trips exactly at the failure that
   makes as many in a row since it became closed as the threshold says; half open trips at any failure and
   closes exactly at the success that makes as many as its threshold says; open becomes half open exactly
   at an entry when the timeout has passed since the latest failure.
   */
  lemma ModeIsEarnedIff(config: Config, events: seq<Event>, e: Event)
    requires Sensible(config) && Run(config, events).Some? && CanHappen(Run(config, events).value, e)
    ensures var w := Run(config, events).value;
      var w' := Happen(w, config, e);
      && ModeFollows(w, w', config, e)
      && w'.halfOpenFrom == (if w.record.mode == Open && w'.record.mode == HalfOpen then |w.log| else w.halfOpenFrom)
      && w'.closedFrom == (if w.record.mode == HalfOpen && w'.record.mode == Closed then |w'.log| else w.closedFrom)
  {
    RunIsConsistent(config, events);
    ModeStep(Run(config, events).value, config, e);
    hide Run, LatestBad, TrailingBad, ModeFollows, AllOkFrom;
  }

  /** While the breaker is open and the timeout has not passed, an entry changes nothing but a counter. */
  lemma OpenRejects(config: Config, events: seq<Event>, now: nat)
    requires Sensible(config) && Run(config, events).Some?
    requires var w := Run(config, events).value;
      w.record.mode == Open && w.now <= now && now - LatestBad(w.log).GetOr(0) < config.recoveryTimeoutMs
    ensures var w := Run(config, events).value;
      Happen(w, config, Enter(now)) == w.(now := now, record := w.record.(rejectedCalls := w.record.rejectedCalls + 1))
  {
    RunIsConsistent(config, events);
  }

  /**
   The totals count the completions. A success whose store throws is counted as a failure too: the calls
   add up exactly when none did.
   */
  lemma TotalsAddUpIff(config: Config, events: seq<Event>)
    requires Sensible(config) && Run(config, events).Some?
    ensures var w := Run(config, events).value;
      && w.record.totalFailures == Failures(w.log) && w.record.totalSuccesses == |w.log| - Failures(w.log)
      && (w.record.totalCalls == w.record.totalSuccesses + w.record.totalFailures + w.running <==> w.unstored == 0)
  {
    RunIsConsistent(config, events);
    hide Run;
  }

  /** The shortest run after which they do not: one call, counted as a success and as a failure. */
  lemma UnstoredSuccessCountsTwice(config: Config)
    requires Sensible(config)
    ensures var run := Run(config, [Enter(1), Success(1), SuccessStored(false, 1)]);
      run.Some? && run.value.record.totalCalls == 1
      && run.value.record.totalSuccesses == 1 && run.value.record.totalFailures == 1
  {
    var events := [Enter(1), Success(1), SuccessStored(false, 1)];
    assert events[..2] == [Enter(1), Success(1)] && events[..2][..1] == [Enter(1)] && [Enter(1)][..0] == [];
    assert Run(config, [Enter(1)]).Some?;
    assert Run(config, events[..2]).Some?;
  }
}
