/**
 The faces of a link preview: one download at a time, a success kept for good, a failure for a minute.
 */
module FontCache {
  import opened Text

  const FAILURE_RETRY_MS := 60000

  datatype Font = Font(weight: int, data: string)

  /** The module's variables; `inflight` is whether a download is being shared. */
  datatype Cache = Cache(cachedFonts: Option<seq<Font>>, failedAt: Option<nat>, inflight: bool)

  /** What a caller gets at once: the faces, nothing, or the download to wait for. */
  datatype Answer = Faces(fonts: seq<Font>) | Undefined | Join | Start

  const EMPTY := Cache(None, None, false)

  // ----- the three stretches of `ogFonts` between its awaits -----

  function AnswerOf(c: Cache, now: int): Answer {
    if c.cachedFonts.Some? then Faces(c.cachedFonts.value)
    else if c.failedAt.Some? && now - c.failedAt.value < FAILURE_RETRY_MS then Undefined
    else if c.inflight then Join
    else Start
  }

  /** The download has given `faces`, none when it threw. */
  function Settled(c: Cache, faces: seq<Font>, now: nat): Cache {
    if faces == [] then c.(failedAt := Some(now)) else c.(cachedFonts := Some(faces), failedAt := None)
  }

  class OgFonts {
    var cachedFonts: Option<seq<Font>>
    var failedAt: Option<nat>
    var inflight: bool

    function State(): Cache
      reads this
    {
      Cache(cachedFonts, failedAt, inflight)
    }

    constructor ()
      ensures State() == EMPTY
    {
      cachedFonts, failedAt, inflight := None, None, false;
    }

    method Request(now: nat) returns (answer: Answer)
      modifies this`inflight
      ensures answer == AnswerOf(old(State()), now)
      ensures State() == old(State()).(inflight := old(inflight) || answer == Start)
    {
      if cachedFonts.Some? { return Faces(cachedFonts.value); }
      if failedAt.Some? && now - failedAt.value < FAILURE_RETRY_MS { return Undefined; }
      if inflight { return Join; }
      inflight := true;
      return Start;
    }

    method Settle(faces: seq<Font>, now: nat) returns (result: Option<seq<Font>>)
      modifies this
      ensures State() == Settled(old(State()), faces, now)
      ensures result == if faces == [] then None else Some(faces)
    {
      if |faces| == 0 {
        failedAt := Some(now);
        return None;
      }
      cachedFonts := Some(faces);
      failedAt := None;
      return cachedFonts;
    }

    /** The caller that started the download lets go of it. */
    method Release()
      modifies this`inflight
      ensures State() == old(State()).(inflight := false)
    {
      inflight := false;
    }
  }

  // ----- any interleaving of callers -----

  datatype Moment = Started(at: nat) | Failed(at: nat) | Succeeded(at: nat, faces: seq<Font>)

  /** The cache, how many downloads run, how many have settled and are not released, and their history. */
  datatype World = World(cache: Cache, running: nat, settled: nat, now: nat, history: seq<Moment>)

  datatype Event = Request(now: nat) | Settle(faces: seq<Font>, now: nat) | Release

  const START := World(EMPTY, 0, 0, 0, [])

  predicate CanHappen(w: World, e: Event) {
    match e
    case Request(now) => now >= w.now
    case Settle(_, now) => now >= w.now && w.running > 0
    case Release => w.settled > 0
  }

  function Happen(w: World, e: Event): World
    requires CanHappen(w, e)
  {
    match e
    case Request(now) =>
      if AnswerOf(w.cache, now) == Start then
        w.(cache := w.cache.(inflight := true), running := w.running + 1, now := now, history := w.history + [Started(now)])
      else w.(now := now)
    case Settle(faces, now) =>
      w.(cache := Settled(w.cache, faces, now), running := w.running - 1, settled := w.settled + 1, now := now,
         history := w.history + [if faces == [] then Failed(now) else Succeeded(now, faces)])
    case Release => w.(cache := w.cache.(inflight := false), settled := w.settled - 1)
  }

  function Run(events: seq<Event>): Option<World> {
    if events == [] then Some(START) else
      match Run(events[..|events| - 1])
      case None => None
      case Some(w) =>
        if CanHappen(w, events[|events| - 1]) then Some(Happen(w, events[|events| - 1])) else None
  }

  /** No download starts after a success, nor within the retry time of a failure. */
  predicate Frugal(history: seq<Moment>) {
    forall i, j :: 0 <= i < j < |history| && history[j].Started? ==>
      && !history[i].Succeeded?
      && (history[i].Failed? ==> history[j].at - history[i].at >= FAILURE_RETRY_MS)
  }

  predicate HasSucceeded(history: seq<Moment>) {
    exists i :: 0 <= i < |history| && history[i].Succeeded?
  }

  /** A download failed within the minute before `now`. */
  predicate HasFailedLately(history: seq<Moment>, now: int) {
    exists i :: 0 <= i < |history| && history[i].Failed? && now - history[i].at < 60000
  }

  ghost predicate Consistent(w: World) {
    // at most one download is shared: running, or settled and not yet released
    && w.running + w.settled == (if w.cache.inflight then 1 else 0)
    && (w.cache.cachedFonts.Some? ==> w.cache.cachedFonts.value != [])
    && (w.cache.cachedFonts.Some? <==> HasSucceeded(w.history))
    && (forall i :: 0 <= i < |w.history| && w.history[i].Succeeded? ==> w.cache.cachedFonts == Some(w.history[i].faces))
    && (w.cache.cachedFonts.Some? ==> w.running == 0)
    && (w.cache.cachedFonts.None? ==> forall i :: 0 <= i < |w.history| && w.history[i].Failed? ==>
          w.cache.failedAt.Some? && w.history[i].at <= w.cache.failedAt.value <= w.now)
    && (w.cache.cachedFonts.None? && w.cache.failedAt.Some? ==> Failed(w.cache.failedAt.value) in w.history)
    && Frugal(w.history)
  }

  lemma ConsistentKept(w: World, e: Event)
    requires Consistent(w) && CanHappen(w, e)
    ensures Consistent(Happen(w, e))
  {
    var w' := Happen(w, e);
    assert forall i :: 0 <= i < |w.history| ==> w'.history[i] == w.history[i];
    var n := |w.history|;
    if HasSucceeded(w.history) {
      var i :| 0 <= i < n && w.history[i].Succeeded?;
      assert w'.history[i].Succeeded?;
    }
    if e.Settle? { assert if e.faces == [] then w'.history[n].Failed? else w'.history[n].Succeeded?; }
  }

  lemma {:induction false} RunIsConsistent(events: seq<Event>)
    ensures Run(events).Some? ==> Consistent(Run(events).value)
  {
    hide Consistent, Happen, CanHappen;
    if events == [] {
      StartIsConsistent();
    } else {
      RunIsConsistent(events[..|events| - 1]);
      if Run(events).Some? {
        ConsistentKept(Run(events[..|events| - 1]).value, events[|events| - 1]);
      }
    }
  }

  lemma StartIsConsistent()
    ensures Consistent(START)
  {
  }

  /**
   Whatever the interleaving: never two downloads at a time, none after a success, none within a
   minute of a failure, and no caller is ever answered with an empty list.
   */
  lemma DownloadsAreBounded(events: seq<Event>, now: nat)
    requires Run(events).Some?
    ensures var w := Run(events).value;
      && w.running <= 1 && Frugal(w.history)
      && AnswerOf(w.cache, now) != Faces([])
  {
    RunIsConsistent(events);
  }

  /**
   What a caller gets, told from the history alone: the faces of the download that succeeded; else nothing
   when one failed in the last minute; else a share in the download under way; else a new one.
   */
  lemma AnswerIsEarned(events: seq<Event>, now: nat)
    requires Run(events).Some? && Run(events).value.now <= now
    ensures var w := Run(events).value;
      && (forall i :: 0 <= i < |w.history| && w.history[i].Succeeded? ==> AnswerOf(w.cache, now) == Faces(w.history[i].faces))
      && (AnswerOf(w.cache, now).Faces? ==> HasSucceeded(w.history))
      && (AnswerOf(w.cache, now).Undefined? <==> !HasSucceeded(w.history) && HasFailedLately(w.history, now))
      && (AnswerOf(w.cache, now).Join? <==>
            !HasSucceeded(w.history) && !HasFailedLately(w.history, now) && w.running + w.settled == 1)
      && (AnswerOf(w.cache, now).Start? <==>
            !HasSucceeded(w.history) && !HasFailedLately(w.history, now) && w.running + w.settled == 0)
  {
    RunIsConsistent(events);
    var w := Run(events).value;
    if w.cache.cachedFonts.None? && w.cache.failedAt.Some? {
      var i :| 0 <= i < |w.history| && w.history[i] == Failed(w.cache.failedAt.value);
    }
  }
}
