/**
 The tagged response cache, one store command at a time.
 */
module CacheProtocol {
  import opened Text

  // Writers snapshot the generation counters of their tags, load, check the counters again, write and
  // index; invalidations sweep the index, drop it and bump the counter. Any interleaving of their
  // commands is a run.

  type Tag = string
  type Key = string
  type WriterId = nat
  type SweepId = nat

  // ----- the parties -----

  datatype Phase =
    | Reading                    // taking the snapshot, one GET a tag
    | Checking                   // the handler has run; reading the counters again
    | Setting                    // the counters agree: about to SET
    | Indexing(next: nat)        // SET done; the next tag to SADD under
    | Refused                    // the counters differ: nothing is written

  /**
   A request that missed. `seen` and `now` are the counters read before and after the handler ran,
   `readAt` and `checkAt` how many commands had been executed at those reads.
   */
  datatype Writer = Writer(key: Key, tags: seq<Tag>, phase: Phase,
                           seen: seq<nat>, readAt: seq<nat>, now: seq<nat>, checkAt: seq<nat>)

  datatype Stage =
    | Ready                      // about to read the index of the current tag
    | Sweeping(todo: set<Key>)   // deleting the keys the index listed
    | Bumping                    // the index is dropped; about to bump the counter

  /** A call that invalidates `tags`, at position `at`. */
  datatype Sweep = Sweep(tags: seq<Tag>, at: nat, stage: Stage)

  /**
   The store and everyone using it. An entry is the writer that wrote it. `log` has one element for
   each command: the tag it bumped, if any. `overlap` has (w, t) when an invalidation of `t` was
   under way, or began, between the check of `t` by `w` and the indexing of its entry under `t`.
   */
  datatype State = State(
    entries: map<Key, WriterId>,
    index: map<Tag, set<Key>>,
    generations: map<Tag, nat>,
    writers: map<WriterId, Writer>,
    sweeps: map<SweepId, Sweep>,
    log: seq<LogItem>,
    overlap: set<(WriterId, Tag)>)

  datatype LogItem = Bumped(tag: Tag) | Other

  const EMPTY := State(map[], map[], map[], map[], map[], [], {})

  function Generation(s: State, tag: Tag): nat { if tag in s.generations then s.generations[tag] else 0 }

  function Indexed(s: State, tag: Tag): set<Key> { if tag in s.index then s.index[tag] else {} }

  // ----- one command -----

  datatype Command =
    | Miss(w: WriterId, key: Key, tags: seq<Tag>)
    | ReadGeneration(w: WriterId)
    | CheckGeneration(w: WriterId)
    | SetEntry(w: WriterId)
    | AddToIndex(w: WriterId)
    | Invalidate(v: SweepId, tags: seq<Tag>)
    | Members(v: SweepId)
    | DeleteKey(v: SweepId, key: Key)
    | DeleteIndex(v: SweepId)
    | Bump(v: SweepId)
    | Expire(key: Key)

  predicate Distinct(tags: seq<Tag>) { forall i, j :: 0 <= i < j < |tags| ==> tags[i] != tags[j] }

  predicate CanStep(s: State, c: Command) {
    match c
    case Miss(w, _, tags) => w !in s.writers && Distinct(tags)
    case ReadGeneration(w) => w in s.writers && s.writers[w].phase == Reading && |s.writers[w].seen| < |s.writers[w].tags|
    case CheckGeneration(w) => w in s.writers && s.writers[w].phase == Checking && |s.writers[w].now| < |s.writers[w].tags|
    case SetEntry(w) => w in s.writers && s.writers[w].phase == Setting
    case AddToIndex(w) => w in s.writers && s.writers[w].phase.Indexing? && s.writers[w].phase.next < |s.writers[w].tags|
    case Invalidate(v, tags) => v !in s.sweeps
    case Members(v) => v in s.sweeps && s.sweeps[v].stage == Ready && s.sweeps[v].at < |s.sweeps[v].tags|
    case DeleteKey(v, key) => v in s.sweeps && s.sweeps[v].stage.Sweeping? && key in s.sweeps[v].stage.todo
    case DeleteIndex(v) => v in s.sweeps && s.sweeps[v].stage == Sweeping({}) && s.sweeps[v].at < |s.sweeps[v].tags|
    case Bump(v) => v in s.sweeps && s.sweeps[v].stage == Bumping && s.sweeps[v].at < |s.sweeps[v].tags|
    case Expire(_) => true
  }

  /** The writer after its snapshot or check has read one more counter. */
  function AfterRead(w: Writer, generation: nat, at: nat): Writer {
    var w' := w.(seen := w.seen + [generation], readAt := w.readAt + [at]);
    if |w'.seen| == |w.tags| then w'.(phase := Checking) else w'
  }

  function AfterCheck(w: Writer, generation: nat, at: nat): Writer {
    var w' := w.(now := w.now + [generation], checkAt := w.checkAt + [at]);
    if |w'.now| < |w.tags| then w'
    else w'.(phase := if w'.seen == w'.now then Setting else Refused)
  }

  /** Whether some invalidation is between reading the index of `tag` and bumping its counter. */
  predicate Active(sweep: Sweep, tag: Tag) {
    sweep.stage != Ready && sweep.at < |sweep.tags| && sweep.tags[sweep.at] == tag
  }

  predicate SweepUnderWay(s: State, tag: Tag) { exists v :: v in s.sweeps && Active(s.sweeps[v], tag) }

  /** Position `j` of the writer's tags is checked and the entry not yet indexed under it. */
  predicate InWindow(w: Writer, j: nat) {
    && j < |w.tags| && j < |w.now|
    && (w.phase == Checking || w.phase == Setting || (w.phase.Indexing? && w.phase.next <= j))
  }

  predicate TagInWindow(w: Writer, tag: Tag) { exists j: nat :: j < |w.tags| && w.tags[j] == tag && InWindow(w, j) }

  function Step(s: State, c: Command): State
    requires CanStep(s, c)
  {
    var s := if c.Bump? then s.(log := s.log + [Bumped(s.sweeps[c.v].tags[s.sweeps[c.v].at])])
             else s.(log := s.log + [Other]);
    match c
    case Miss(w, key, tags) =>
      s.(writers := s.writers[w := Writer(key, tags, if tags == [] then Setting else Reading, [], [], [], [])])
    case ReadGeneration(w) =>
      var x := s.writers[w];
      s.(writers := s.writers[w := AfterRead(x, Generation(s, x.tags[|x.seen|]), |s.log| - 1)])
    case CheckGeneration(w) =>
      var x := s.writers[w];
      var tag := x.tags[|x.now|];
      s.(writers := s.writers[w := AfterCheck(x, Generation(s, tag), |s.log| - 1)],
         overlap := s.overlap + if SweepUnderWay(s, tag) then {(w, tag)} else {})
    case SetEntry(w) =>
      s.(entries := s.entries[s.writers[w].key := w],
         writers := s.writers[w := s.writers[w].(phase := Indexing(0))])
    case AddToIndex(w) =>
      var x := s.writers[w];
      var tag := x.tags[x.phase.next];
      s.(index := s.index[tag := Indexed(s, tag) + {x.key}],
         writers := s.writers[w := x.(phase := Indexing(x.phase.next + 1))])
    case Invalidate(v, tags) => s.(sweeps := s.sweeps[v := Sweep(tags, 0, Ready)])
    case Members(v) =>
      var tag := s.sweeps[v].tags[s.sweeps[v].at];
      s.(sweeps := s.sweeps[v := s.sweeps[v].(stage := Sweeping(Indexed(s, tag)))],
         overlap := s.overlap + set w | w in s.writers && TagInWindow(s.writers[w], tag) :: (w, tag))
    case DeleteKey(v, key) =>
      s.(entries := s.entries - {key},
         sweeps := s.sweeps[v := s.sweeps[v].(stage := Sweeping(s.sweeps[v].stage.todo - {key}))])
    case DeleteIndex(v) =>
      s.(index := s.index - {s.sweeps[v].tags[s.sweeps[v].at]},
         sweeps := s.sweeps[v := s.sweeps[v].(stage := Bumping)])
    case Bump(v) =>
      var x := s.sweeps[v];
      s.(generations := s.generations[x.tags[x.at] := Generation(s, x.tags[x.at]) + 1],
         sweeps := s.sweeps[v := x.(at := x.at + 1, stage := Ready)])
    case Expire(key) => s.(entries := s.entries - {key})
  }

  /** The state after a run from the empty store; `None` when one of its commands cannot be executed. */
  function Run(run: seq<Command>): Option<State> {
    if run == [] then Some(EMPTY) else
      match Run(run[..|run| - 1])
      case None => None
      case Some(s) => if CanStep(s, run[|run| - 1]) then Some(Step(s, run[|run| - 1])) else None
  }

  // ----- counters count bumps -----

  function Count(log: seq<LogItem>, tag: Tag): nat {
    if log == [] then 0
    else Count(log[..|log| - 1], tag) + if log[|log| - 1] == Bumped(tag) then 1 else 0
  }

  lemma {:induction false} CountGrows(log: seq<LogItem>, n: nat, tag: Tag)
    requires n <= |log|
    ensures Count(log[..n], tag) <= Count(log, tag)
    ensures Count(log[..n], tag) == Count(log, tag) <==> forall i :: n <= i < |log| ==> log[i] != Bumped(tag)
  {
    if n == |log| {
      assert log[..n] == log;
    } else {
      var shorter := log[..|log| - 1];
      assert shorter[..n] == log[..n];
      CountGrows(shorter, n, tag);
      assert forall i :: n <= i < |shorter| ==> log[i] == shorter[i];
    }
  }

  // ----- what every command keeps: the readings are the counts at their times -----

  ghost predicate ReadingsMatch(log: seq<LogItem>, tags: seq<Tag>, values: seq<nat>, times: seq<nat>) {
    && |values| == |times| <= |tags|
    && forall j :: 0 <= j < |values| ==> times[j] <= |log| && values[j] == Count(log[..times[j]], tags[j])
  }

  ghost predicate WriterOk(log: seq<LogItem>, w: Writer) {
    && Distinct(w.tags)
    && ReadingsMatch(log, w.tags, w.seen, w.readAt)
    && ReadingsMatch(log, w.tags, w.now, w.checkAt)
    && (w.phase == Reading ==> w.now == [] && |w.seen| < |w.tags|)
    && (w.phase != Reading ==> |w.seen| == |w.tags|)
    && (w.phase == Checking ==> |w.now| < |w.tags|)
    && (w.phase == Setting || w.phase.Indexing? ==> w.now == w.seen)
    && (w.phase == Refused ==> |w.now| == |w.tags| && w.now != w.seen)
    && (w.phase.Indexing? ==> w.phase.next <= |w.tags|)
    && forall j :: 0 <= j < |w.now| ==> j < |w.readAt| && w.readAt[j] <= w.checkAt[j]
  }

  ghost predicate Counting(s: State) {
    && (forall tag :: Generation(s, tag) == Count(s.log, tag))
    && (forall w :: w in s.writers ==> WriterOk(s.log, s.writers[w]))
    && (forall key :: key in s.entries ==>
          && s.entries[key] in s.writers
          && s.writers[s.entries[key]].key == key
          && s.writers[s.entries[key]].phase.Indexing?)
  }

  lemma ReadingsSurvive(log: seq<LogItem>, item: LogItem, tags: seq<Tag>, values: seq<nat>, times: seq<nat>)
    requires ReadingsMatch(log, tags, values, times)
    ensures ReadingsMatch(log + [item], tags, values, times)
  {
    forall j | 0 <= j < |values|
      ensures (log + [item])[..times[j]] == log[..times[j]]
    {
    }
  }

  lemma WriterSurvives(log: seq<LogItem>, item: LogItem, w: Writer)
    requires WriterOk(log, w)
    ensures WriterOk(log + [item], w)
  {
    ReadingsSurvive(log, item, w.tags, w.seen, w.readAt);
    ReadingsSurvive(log, item, w.tags, w.now, w.checkAt);
  }

  lemma ReadingAdded(log: seq<LogItem>, tags: seq<Tag>, values: seq<nat>, times: seq<nat>)
    requires ReadingsMatch(log, tags, values, times) && |values| < |tags|
    ensures ReadingsMatch(log, tags, values + [Count(log, tags[|values|])], times + [|log|])
  {
    hide Count;
    assert log[..|log|] == log;
  }

  lemma AfterReadOk(log: seq<LogItem>, w: Writer)
    requires WriterOk(log, w) && w.phase == Reading
    ensures WriterOk(log, AfterRead(w, Count(log, w.tags[|w.seen|]), |log|))
  {
    hide Count, ReadingsMatch, Distinct;
    ReadingAdded(log, w.tags, w.seen, w.readAt);
  }

  lemma AfterCheckOk(log: seq<LogItem>, w: Writer)
    requires WriterOk(log, w) && w.phase == Checking
    ensures WriterOk(log, AfterCheck(w, Count(log, w.tags[|w.now|]), |log|))
  {
    var generation := Count(log, w.tags[|w.now|]);
    ReadingAdded(log, w.tags, w.now, w.checkAt);
    assert |w.readAt| == |w.tags| && w.readAt[|w.now|] <= |log| && |w.checkAt| == |w.now|;
    hide Count, ReadingsMatch, Distinct, AfterCheck;
    CheckTimesOk(w, |log|);
    CheckedPhase(w, generation, |log|);
    CheckedOk(log, w, AfterCheck(w, generation, |log|));
  }

  lemma CheckedOk(log: seq<LogItem>, w: Writer, w': Writer)
    requires WriterOk(log, w) && w.phase == Checking
    requires w'.tags == w.tags && w'.seen == w.seen && w'.readAt == w.readAt && |w.readAt| == |w.tags|
    requires |w'.now| == |w.now| + 1 && ReadingsMatch(log, w.tags, w'.now, w'.checkAt)
    requires w'.phase == if |w'.now| < |w.tags| then w.phase else if w'.seen == w'.now then Setting else Refused
    requires |w'.checkAt| == |w'.now| && forall j :: 0 <= j < |w'.now| ==> w.readAt[j] <= w'.checkAt[j]
    ensures WriterOk(log, w')
  {
    hide Count, ReadingsMatch, Distinct;
  }

  /** The last reading is now, and no reading of the snapshot is later than that. */
  lemma CheckTimesOk(w: Writer, at: nat)
    requires |w.now| == |w.checkAt| < |w.readAt| && w.readAt[|w.now|] <= at
    requires forall j :: 0 <= j < |w.now| ==> w.readAt[j] <= w.checkAt[j]
    ensures forall j :: 0 <= j < |w.now| + 1 ==> w.readAt[j] <= (w.checkAt + [at])[j]
  {
  }

  lemma CheckedPhase(w: Writer, generation: nat, at: nat)
    ensures var w' := AfterCheck(w, generation, at);
      && w'.now == w.now + [generation] && w'.checkAt == w.checkAt + [at]
      && w'.tags == w.tags && w'.seen == w.seen && w'.readAt == w.readAt
      && w'.phase == if |w.now| + 1 < |w.tags| then w.phase else if w'.seen == w'.now then Setting else Refused
  {
  }

  /** The tag a command bumps, if it is a bump. */
  function LogItemOf(s: State, c: Command): LogItem
    requires CanStep(s, c)
  {
    if c.Bump? then Bumped(s.sweeps[c.v].tags[s.sweeps[c.v].at]) else Other
  }

  lemma CountStep(log: seq<LogItem>, item: LogItem, tag: Tag)
    ensures Count(log + [item], tag) == Count(log, tag) + if item == Bumped(tag) then 1 else 0
  {
    assert (log + [item])[..|log|] == log;
  }

  lemma GenerationsKept(s: State, c: Command, tag: Tag)
    requires Generation(s, tag) == Count(s.log, tag) && CanStep(s, c)
    ensures Generation(Step(s, c), tag) == Count(Step(s, c).log, tag)
  {
    hide Count, AfterRead, AfterCheck, TagInWindow, SweepUnderWay;
    CountStep(s.log, LogItemOf(s, c), tag);
  }

  lemma LogStep(s: State, c: Command)
    requires CanStep(s, c)
    ensures Step(s, c).log == s.log + [LogItemOf(s, c)]
  {
    hide AfterRead, AfterCheck, TagInWindow, SweepUnderWay, Generation, Indexed;
  }

  /** What a command makes of one writer. */
  lemma WriterStep(s: State, c: Command, w: WriterId)
    requires CanStep(s, c) && w in Step(s, c).writers
    ensures var x' := Step(s, c).writers[w];
      if w !in s.writers then
        c.Miss? && x' == Writer(c.key, c.tags, if c.tags == [] then Setting else Reading, [], [], [], [])
      else
        var x := s.writers[w];
        if c == ReadGeneration(w) then x' == AfterRead(x, Generation(s, x.tags[|x.seen|]), |s.log|)
        else if c == CheckGeneration(w) then x' == AfterCheck(x, Generation(s, x.tags[|x.now|]), |s.log|)
        else if c == SetEntry(w) then x' == x.(phase := Indexing(0))
        else if c == AddToIndex(w) then x' == x.(phase := Indexing(x.phase.next + 1))
        else x' == x
  {
    hide AfterRead, AfterCheck, TagInWindow, SweepUnderWay;
  }

  lemma NewWriterCounts(log: seq<LogItem>, key: Key, tags: seq<Tag>)
    requires Distinct(tags)
    ensures WriterOk(log, Writer(key, tags, if tags == [] then Setting else Reading, [], [], [], []))
  {
  }

  lemma IndexingOk(log: seq<LogItem>, w: Writer, next: nat)
    requires WriterOk(log, w) && next <= |w.tags|
    requires w.phase == Setting || w.phase.Indexing?
    ensures WriterOk(log, w.(phase := Indexing(next)))
  {
    hide Count, Distinct;
  }

  lemma WriterKept(s: State, c: Command, w: WriterId)
    requires Counting(s) && CanStep(s, c) && w in Step(s, c).writers
    ensures WriterOk(Step(s, c).log, Step(s, c).writers[w])
  {
    hide Count, AfterRead, AfterCheck, Step, Generation, WriterOk, Distinct;
    WriterStep(s, c, w);
    LogStep(s, c);
    var x' := Step(s, c).writers[w];
    if w in s.writers {
      var x := s.writers[w];
      if c == ReadGeneration(w) { AfterReadOk(s.log, x); }
      if c == CheckGeneration(w) { AfterCheckOk(s.log, x); }
      if c == SetEntry(w) { IndexingOk(s.log, x, 0); }
      if c == AddToIndex(w) { IndexingOk(s.log, x, x.phase.next + 1); }
    } else {
      NewWriterCounts(s.log, c.key, c.tags);
    }
    assert WriterOk(s.log, x');
    WriterSurvives(s.log, LogItemOf(s, c), x');
  }

  lemma EntriesKept(s: State, c: Command, key: Key)
    requires Counting(s) && CanStep(s, c) && key in Step(s, c).entries
    ensures var s' := Step(s, c);
            s'.entries[key] in s'.writers && s'.writers[s'.entries[key]].key == key && s'.writers[s'.entries[key]].phase.Indexing?
  {
    hide Count, AfterRead, AfterCheck, TagInWindow, SweepUnderWay, WriterOk;
  }

  lemma CountingKept(s: State, c: Command)
    requires Counting(s) && CanStep(s, c)
    ensures Counting(Step(s, c))
  {
    var s' := Step(s, c);
    forall tag
      ensures Generation(s', tag) == Count(s'.log, tag)
    {
      GenerationsKept(s, c, tag);
    }
    forall w | w in s'.writers
      ensures WriterOk(s'.log, s'.writers[w])
    {
      WriterKept(s, c, w);
    }
    forall key | key in s'.entries
      ensures s'.entries[key] in s'.writers
      ensures s'.writers[s'.entries[key]].key == key && s'.writers[s'.entries[key]].phase.Indexing?
    {
      EntriesKept(s, c, key);
    }
  }

  lemma {:induction false} CountingReached(run: seq<Command>)
    ensures Run(run).Some? ==> Counting(Run(run).value)
  {
    hide Counting, Step, CanStep;
    if run == [] {
      EmptyCounts();
    } else {
      var before := run[..|run| - 1];
      CountingReached(before);
      if Run(run).Some? {
        CountingKept(Run(before).value, run[|run| - 1]);
      }
    }
  }

  lemma EmptyCounts()
    ensures Counting(EMPTY)
  {
  }

  /**
   Whatever the interleaving: for an entry in the store and any of its tags, no invalidation bumped
   the tag between the two readings of its counter by the entry's writer.
   */
  lemma NoBumpBetweenReadings(run: seq<Command>, key: Key, j: nat, i: nat)
    requires Run(run).Some? && key in Run(run).value.entries
    ensures var s := Run(run).value;
      && s.entries[key] in s.writers
      && var w := s.writers[s.entries[key]];
      && |w.readAt| == |w.checkAt| == |w.tags|
      && (j < |w.tags| && w.readAt[j] <= i < w.checkAt[j] ==> i < |s.log| && s.log[i] != Bumped(w.tags[j]))
  {
    CountingReached(run);
    var s := Run(run).value;
    hide Run;
    var w := s.writers[s.entries[key]];
    assert WriterOk(s.log, w);
    if j < |w.tags| {
      AgreeingReadings(s.log, w, j);
    }
  }

  /**
   And a writer that has made its last check is refused exactly when one of its tags was bumped
   between the two readings; otherwise its entry is written or about to be.
   */
  lemma WriteIsRefusedIff(run: seq<Command>, w: WriterId)
    requires Run(run).Some? && w in Run(run).value.writers
    requires |Run(run).value.writers[w].now| == |Run(run).value.writers[w].tags|
    ensures var s := Run(run).value;
      var x := s.writers[w];
      && |x.readAt| == |x.checkAt| == |x.tags| && (x.phase == Refused || x.phase == Setting || x.phase.Indexing?)
      && (x.phase == Refused <==> BumpedBetween(s.log, x))
  {
    CountingReached(run);
    var s := Run(run).value;
    hide Run;
    var x := s.writers[w];
    assert WriterOk(s.log, x);
    if x.now == x.seen {
      forall j: nat | j < |x.tags|
        ensures forall i :: x.readAt[j] <= i < x.checkAt[j] ==> i < |s.log| && s.log[i] != Bumped(x.tags[j])
      {
        AgreeingReadings(s.log, x, j);
      }
    } else {
      var j: nat :| j < |x.tags| && x.now[j] != x.seen[j];
      AgreeingReadings(s.log, x, j);
    }
  }

  predicate BumpedBetween(log: seq<LogItem>, w: Writer) {
    exists j: nat, i: nat :: j < |w.tags| && j < |w.readAt| && j < |w.checkAt|
      && w.readAt[j] <= i < w.checkAt[j] && i < |log| && log[i] == Bumped(w.tags[j])
  }

  lemma AgreeingReadings(log: seq<LogItem>, w: Writer, j: nat)
    requires WriterOk(log, w) && j < |w.now|
    ensures w.checkAt[j] <= |log|
    ensures w.now[j] == w.seen[j] <==> forall i :: w.readAt[j] <= i < w.checkAt[j] ==> log[i] != Bumped(w.tags[j])
  {
    var log' := log[..w.checkAt[j]];
    assert log'[..w.readAt[j]] == log[..w.readAt[j]];
    CountGrows(log', w.readAt[j], w.tags[j]);
    assert forall i :: 0 <= i < w.checkAt[j] ==> log'[i] == log[i];
  }

  // ----- freshness -----

  /** The entry of `w` is in the store and indexed under position `j` of its tags. */
  predicate LiveAndIndexed(s: State, w: WriterId, j: nat)
    requires w in s.writers
  {
    var x := s.writers[w];
    x.phase.Indexing? && j < x.phase.next && x.key in s.entries && s.entries[x.key] == w
  }

  /** Every invalidation of `tag` under way still has `key` on its list. */
  predicate OnEveryList(s: State, tag: Tag, key: Key) {
    forall v :: v in s.sweeps && Active(s.sweeps[v], tag) ==>
      s.sweeps[v].stage.Sweeping? && key in s.sweeps[v].stage.todo
  }

  /** What holds of a position that no invalidation overlapped. */
  ghost predicate PositionOk(s: State, w: WriterId, j: nat)
    requires w in s.writers && j < |s.writers[w].tags|
  {
    var x := s.writers[w];
    var tag := x.tags[j];
    (w, tag) !in s.overlap ==>
      && (InWindow(x, j) ==> !SweepUnderWay(s, tag) && x.now[j] == Generation(s, tag))
      && (LiveAndIndexed(s, w, j) ==>
            && j < |x.now| && x.now[j] == Generation(s, tag)
            && x.key in Indexed(s, tag)
            && OnEveryList(s, tag, x.key))
  }

  ghost predicate Fresh(s: State) {
    forall w, j: nat :: w in s.writers && j < |s.writers[w].tags| ==> PositionOk(s, w, j)
  }

  /** From `s` to `s'` no counter, no invalidation under way and no index entry is lost or added to. */
  ghost predicate Quiet(s: State, s': State) {
    && s'.generations == s.generations
    && (forall v, tag :: v in s.sweeps && Active(s.sweeps[v], tag) ==> v in s'.sweeps && s'.sweeps[v] == s.sweeps[v])
    && (forall v, tag :: v in s'.sweeps && Active(s'.sweeps[v], tag) ==> v in s.sweeps && s'.sweeps[v] == s.sweeps[v])
    && s.overlap <= s'.overlap
    && forall tag :: Indexed(s, tag) <= Indexed(s', tag)
  }

  predicate IsWriterCommand(c: Command) {
    c.Miss? || c.ReadGeneration? || c.CheckGeneration? || c.SetEntry? || c.AddToIndex? || c.Invalidate? || c.Expire?
  }

  lemma WriterCommandsAreQuiet(s: State, c: Command)
    requires CanStep(s, c) && IsWriterCommand(c)
    ensures Quiet(s, Step(s, c))
  {
    hide AfterRead, AfterCheck, TagInWindow, SweepUnderWay;
  }

  lemma QuietKeeps(s: State, s': State, tag: Tag, key: Key)
    requires Quiet(s, s')
    ensures SweepUnderWay(s', tag) == SweepUnderWay(s, tag)
    ensures OnEveryList(s, tag, key) ==> OnEveryList(s', tag, key)
    ensures Generation(s', tag) == Generation(s, tag)
  {
    hide Indexed;
    if SweepUnderWay(s, tag) {
      var v :| v in s.sweeps && Active(s.sweeps[v], tag);
      assert v in s'.sweeps && Active(s'.sweeps[v], tag);
    }
    if SweepUnderWay(s', tag) {
      var v :| v in s'.sweeps && Active(s'.sweeps[v], tag);
      assert v in s.sweeps && Active(s.sweeps[v], tag);
    }
  }

  /** A writer that does not move keeps what holds of its positions. */
  lemma StandingWriterKeeps(s: State, s': State, w: WriterId, j: nat)
    requires w in s.writers && w in s'.writers && s'.writers[w] == s.writers[w]
    requires j < |s.writers[w].tags| && PositionOk(s, w, j)
    requires Quiet(s, s') && (LiveAndIndexed(s', w, j) ==> LiveAndIndexed(s, w, j))
    ensures PositionOk(s', w, j)
  {
    var x := s.writers[w];
    QuietKeeps(s, s', x.tags[j], x.key);
    hide OnEveryList, SweepUnderWay, Indexed, Generation;
  }

  /**
   A writer that moves: position `j` enters the window with a current reading or with an overlap on
   record, and leaves it by being indexed.
   */
  lemma MovingWriterKeeps(s: State, s': State, w: WriterId, j: nat)
    requires w in s.writers && w in s'.writers && s'.writers[w].tags == s.writers[w].tags
    requires s'.writers[w].key == s.writers[w].key
    requires j < |s.writers[w].tags| && PositionOk(s, w, j) && Quiet(s, s')
    requires j < |s.writers[w].now| ==> j < |s'.writers[w].now| && s'.writers[w].now[j] == s.writers[w].now[j]
    requires var x, x', tag := s.writers[w], s'.writers[w], s.writers[w].tags[j];
      && (InWindow(x', j) ==>
            || InWindow(x, j)
            || (w, tag) in s'.overlap
            || (!SweepUnderWay(s, tag) && x'.now[j] == Generation(s, tag)))
      && (LiveAndIndexed(s', w, j) ==>
            LiveAndIndexed(s, w, j) || (InWindow(x, j) && x.key in Indexed(s', tag)))
    ensures PositionOk(s', w, j)
  {
    var x, tag := s.writers[w], s.writers[w].tags[j];
    QuietKeeps(s, s', tag, x.key);
    if !SweepUnderWay(s, tag) { NoSweepNoList(s, tag, x.key); }
    hide SweepUnderWay, OnEveryList, Indexed, Generation;
  }

  lemma ReadKeeps(s: State, w: WriterId, j: nat)
    requires Counting(s) && CanStep(s, ReadGeneration(w)) && j < |s.writers[w].tags| && PositionOk(s, w, j)
    ensures Step(s, ReadGeneration(w)).writers[w].tags == s.writers[w].tags
    ensures PositionOk(Step(s, ReadGeneration(w)), w, j)
  {
    var s' := Step(s, ReadGeneration(w));
    WriterStep(s, ReadGeneration(w), w);
    WriterCommandsAreQuiet(s, ReadGeneration(w));
    assert WriterOk(s.log, s.writers[w]);
    hide Step, SweepUnderWay, Indexed, Generation, Quiet, ReadingsMatch, PositionOk;
    MovingWriterKeeps(s, s', w, j);
  }

  lemma CheckKeeps(s: State, w: WriterId, j: nat)
    requires Counting(s) && CanStep(s, CheckGeneration(w)) && j < |s.writers[w].tags| && PositionOk(s, w, j)
    ensures Step(s, CheckGeneration(w)).writers[w].tags == s.writers[w].tags
    ensures PositionOk(Step(s, CheckGeneration(w)), w, j)
  {
    var s' := Step(s, CheckGeneration(w));
    WriterStep(s, CheckGeneration(w), w);
    WriterCommandsAreQuiet(s, CheckGeneration(w));
    if SweepUnderWay(s, s.writers[w].tags[|s.writers[w].now|]) {
      CheckRecordsOverlap(s, w);
    }
    assert WriterOk(s.log, s.writers[w]);
    hide Step, SweepUnderWay, Indexed, Generation, Quiet, ReadingsMatch, PositionOk;
    MovingWriterKeeps(s, s', w, j);
  }

  lemma SetKeeps(s: State, w: WriterId, j: nat)
    requires Counting(s) && CanStep(s, SetEntry(w)) && j < |s.writers[w].tags| && PositionOk(s, w, j)
    ensures Step(s, SetEntry(w)).writers[w].tags == s.writers[w].tags
    ensures PositionOk(Step(s, SetEntry(w)), w, j)
  {
    var s' := Step(s, SetEntry(w));
    WriterStep(s, SetEntry(w), w);
    WriterCommandsAreQuiet(s, SetEntry(w));
    assert WriterOk(s.log, s.writers[w]);
    hide Step, SweepUnderWay, Indexed, Generation, Quiet, ReadingsMatch, PositionOk;
    MovingWriterKeeps(s, s', w, j);
  }

  lemma AddKeeps(s: State, w: WriterId, j: nat)
    requires Counting(s) && CanStep(s, AddToIndex(w)) && j < |s.writers[w].tags| && PositionOk(s, w, j)
    ensures Step(s, AddToIndex(w)).writers[w].tags == s.writers[w].tags
    ensures PositionOk(Step(s, AddToIndex(w)), w, j)
  {
    var s' := Step(s, AddToIndex(w));
    WriterStep(s, AddToIndex(w), w);
    WriterCommandsAreQuiet(s, AddToIndex(w));
    AddToIndexAdds(s, w);
    assert WriterOk(s.log, s.writers[w]);
    assert s'.entries == s.entries;
    hide Step, SweepUnderWay, Indexed, Generation, Quiet, ReadingsMatch, PositionOk;
    MovingWriterKeeps(s, s', w, j);
  }

  lemma CheckRecordsOverlap(s: State, w: WriterId)
    requires CanStep(s, CheckGeneration(w))
    requires SweepUnderWay(s, s.writers[w].tags[|s.writers[w].now|])
    ensures (w, s.writers[w].tags[|s.writers[w].now|]) in Step(s, CheckGeneration(w)).overlap
  {
    var tag := s.writers[w].tags[|s.writers[w].now|];
    var v :| v in s.sweeps && Active(s.sweeps[v], tag);
    assert SweepUnderWay(s.(log := s.log + [Other]), tag);
  }

  lemma NoSweepNoList(s: State, tag: Tag, key: Key)
    requires !SweepUnderWay(s, tag)
    ensures OnEveryList(s, tag, key)
  {
  }

  lemma AddToIndexAdds(s: State, w: WriterId)
    requires CanStep(s, AddToIndex(w))
    ensures s.writers[w].key in Indexed(Step(s, AddToIndex(w)), s.writers[w].tags[s.writers[w].phase.next])
  {
  }

  /** A command of a writer leaves the entries alone, except that it may put its own in or let one expire. */
  lemma EntriesAfterWriterCommand(s: State, c: Command, w: WriterId, j: nat)
    requires Counting(s) && CanStep(s, c) && IsWriterCommand(c)
    requires w in s.writers && w in Step(s, c).writers && Step(s, c).writers[w] == s.writers[w]
    requires LiveAndIndexed(Step(s, c), w, j)
    ensures LiveAndIndexed(s, w, j)
  {
    hide AfterRead, AfterCheck, TagInWindow, SweepUnderWay, Count, WriterOk;
  }

  lemma WriterCommandKeeps(s: State, c: Command, w: WriterId, j: nat)
    requires Counting(s) && Fresh(s) && CanStep(s, c) && IsWriterCommand(c)
    requires w in Step(s, c).writers && j < |Step(s, c).writers[w].tags|
    ensures PositionOk(Step(s, c), w, j)
  {
    var s' := Step(s, c);
    WriterStep(s, c, w);
    hide Counting, PositionOk, Step, CanStep, InWindow, AfterRead, AfterCheck;
    if w !in s.writers {
      NewWriterOk(s', w, j);
    } else if c == ReadGeneration(w) {
      KeepsTags(s, c, w);
      ReadKeeps(s, w, j);
    } else if c == CheckGeneration(w) {
      KeepsTags(s, c, w);
      CheckKeeps(s, w, j);
    } else if c == SetEntry(w) {
      SetKeeps(s, w, j);
    } else if c == AddToIndex(w) {
      AddKeeps(s, w, j);
    } else {
      WriterCommandsAreQuiet(s, c);
      if LiveAndIndexed(s', w, j) { EntriesAfterWriterCommand(s, c, w, j); }
      StandingWriterKeeps(s, s', w, j);
    }
  }

  lemma KeepsTags(s: State, c: Command, w: WriterId)
    requires CanStep(s, c) && w in s.writers && w in Step(s, c).writers
    requires c == ReadGeneration(w) || c == CheckGeneration(w)
    ensures Step(s, c).writers[w].tags == s.writers[w].tags
  {
    hide SweepUnderWay;
  }

  lemma NewWriterOk(s: State, w: WriterId, j: nat)
    requires w in s.writers && j < |s.writers[w].tags|
    requires s.writers[w].now == [] && !s.writers[w].phase.Indexing?
    ensures PositionOk(s, w, j)
  {
  }

  // ----- the commands of an invalidation -----

  /** From `s` to `s'` only the invalidation `v` has moved; entries may be gone and overlaps added. */
  ghost predicate OnlyMoved(s: State, s': State, v: SweepId) {
    && s'.writers == s.writers && s.overlap <= s'.overlap && v in s.sweeps && v in s'.sweeps
    && (forall key :: key in s'.entries ==> key in s.entries && s'.entries[key] == s.entries[key])
    && (forall u :: u != v ==> (u in s'.sweeps <==> u in s.sweeps))
    && (forall u :: u != v && u in s.sweeps ==> s'.sweeps[u] == s.sweeps[u])
  }

  lemma SweepCommandFrame(s: State, c: Command)
    requires CanStep(s, c) && !IsWriterCommand(c)
    ensures OnlyMoved(s, Step(s, c), c.v)
  {
    hide TagInWindow, Indexed, Generation;
  }

  lemma OthersUnderWay(s: State, s': State, v: SweepId, tag: Tag, key: Key)
    requires OnlyMoved(s, s', v)
    ensures SweepUnderWay(s', tag) ==> SweepUnderWay(s, tag) || Active(s'.sweeps[v], tag)
    ensures var stage := s'.sweeps[v].stage;
      OnEveryList(s, tag, key) && (Active(s'.sweeps[v], tag) ==> stage.Sweeping? && key in stage.todo) ==>
        OnEveryList(s', tag, key)
  {
    if SweepUnderWay(s', tag) {
      var u :| u in s'.sweeps && Active(s'.sweeps[u], tag);
      assert u != v ==> u in s.sweeps && Active(s.sweeps[u], tag);
    }
  }

  /** What a command on the invalidation `v` must not do to a position in the window, or live and indexed. */
  lemma SweepKeeps(s: State, s': State, v: SweepId, w: WriterId, j: nat)
    requires w in s.writers && j < |s.writers[w].tags| && PositionOk(s, w, j) && OnlyMoved(s, s', v)
    requires var x, tag := s.writers[w], s.writers[w].tags[j];
      InWindow(x, j) && !SweepUnderWay(s, tag) && (w, tag) !in s'.overlap ==>
        !Active(s'.sweeps[v], tag) && Generation(s', tag) == Generation(s, tag)
    requires var x, tag, stage' := s.writers[w], s.writers[w].tags[j], s'.sweeps[v].stage;
      LiveAndIndexed(s', w, j) && x.key in Indexed(s, tag) && OnEveryList(s, tag, x.key) ==>
        && Generation(s', tag) == Generation(s, tag) && x.key in Indexed(s', tag)
        && (Active(s'.sweeps[v], tag) ==> stage'.Sweeping? && x.key in stage'.todo)
    ensures PositionOk(s', w, j)
  {
    OthersUnderWay(s, s', v, s.writers[w].tags[j], s.writers[w].key);
    hide SweepUnderWay, OnEveryList, Active, Indexed, Generation, InWindow;
  }

  /** An invalidation of `tag` under way lists what is on every list. */
  lemma ListOf(s: State, v: SweepId, tag: Tag, key: Key)
    requires v in s.sweeps && Active(s.sweeps[v], tag)
    ensures SweepUnderWay(s, tag)
    ensures OnEveryList(s, tag, key) ==> s.sweeps[v].stage.Sweeping? && key in s.sweeps[v].stage.todo
  {
  }

  lemma MembersKeeps(s: State, v: SweepId, w: WriterId, j: nat)
    requires CanStep(s, Members(v)) && w in s.writers && j < |s.writers[w].tags| && PositionOk(s, w, j)
    ensures PositionOk(Step(s, Members(v)), w, j)
  {
    hide SweepUnderWay, OnEveryList, InWindow, PositionOk;
    var s' := Step(s, Members(v));
    var tag := s.sweeps[v].tags[s.sweeps[v].at];
    SweepCommandFrame(s, Members(v));
    assert s'.sweeps[v] == s.sweeps[v].(stage := Sweeping(Indexed(s, tag)));
    assert s'.generations == s.generations && s'.index == s.index;
    assert InWindow(s.writers[w], j) && s.writers[w].tags[j] == tag ==> (w, tag) in s'.overlap;
    SameIndex(s, s', s.writers[w].tags[j]);
    hide Step, OnlyMoved, Indexed;
    SweepKeeps(s, s', v, w, j);
  }

  lemma SameIndex(s: State, s': State, tag: Tag)
    requires s'.index == s.index
    ensures Indexed(s', tag) == Indexed(s, tag)
  {
  }

  lemma DeleteKeyKeeps(s: State, v: SweepId, key: Key, w: WriterId, j: nat)
    requires CanStep(s, DeleteKey(v, key)) && w in s.writers && j < |s.writers[w].tags| && PositionOk(s, w, j)
    ensures PositionOk(Step(s, DeleteKey(v, key)), w, j)
  {
    hide SweepUnderWay, OnEveryList, Indexed, InWindow, PositionOk;
    var s' := Step(s, DeleteKey(v, key));
    var x, tag := s.writers[w], s.writers[w].tags[j];
    SweepCommandFrame(s, DeleteKey(v, key));
    assert s'.sweeps[v] == s.sweeps[v].(stage := Sweeping(s.sweeps[v].stage.todo - {key}));
    assert s'.generations == s.generations && s'.index == s.index && key !in s'.entries;
    SameIndex(s, s', tag);
    hide Step, OnlyMoved;
    if Active(s.sweeps[v], tag) { ListOf(s, v, tag, x.key); }
    SweepKeeps(s, s', v, w, j);
  }

  lemma DeleteIndexKeeps(s: State, v: SweepId, w: WriterId, j: nat)
    requires CanStep(s, DeleteIndex(v)) && w in s.writers && j < |s.writers[w].tags| && PositionOk(s, w, j)
    ensures PositionOk(Step(s, DeleteIndex(v)), w, j)
  {
    hide SweepUnderWay, OnEveryList, InWindow, PositionOk;
    var s' := Step(s, DeleteIndex(v));
    var x, tag := s.writers[w], s.writers[w].tags[j];
    SweepCommandFrame(s, DeleteIndex(v));
    assert s'.sweeps[v] == s.sweeps[v].(stage := Bumping);
    assert s'.generations == s.generations;
    assert tag != s.sweeps[v].tags[s.sweeps[v].at] ==> Indexed(s', tag) == Indexed(s, tag);
    hide Step, OnlyMoved, Indexed;
    if Active(s.sweeps[v], tag) { ListOf(s, v, tag, x.key); }
    SweepKeeps(s, s', v, w, j);
  }

  lemma BumpKeeps(s: State, v: SweepId, w: WriterId, j: nat)
    requires CanStep(s, Bump(v)) && w in s.writers && j < |s.writers[w].tags| && PositionOk(s, w, j)
    ensures PositionOk(Step(s, Bump(v)), w, j)
  {
    hide SweepUnderWay, OnEveryList, InWindow, PositionOk, Indexed;
    var s' := Step(s, Bump(v));
    var x, tag := s.writers[w], s.writers[w].tags[j];
    SweepCommandFrame(s, Bump(v));
    assert s'.sweeps[v].stage == Ready;
    assert s'.index == s.index;
    assert tag != s.sweeps[v].tags[s.sweeps[v].at] ==> Generation(s', tag) == Generation(s, tag);
    SameIndex(s, s', tag);
    hide Step, OnlyMoved, Generation;
    if Active(s.sweeps[v], tag) { ListOf(s, v, tag, x.key); }
    SweepKeeps(s, s', v, w, j);
  }

  lemma FreshKept(s: State, c: Command)
    requires Counting(s) && Fresh(s) && CanStep(s, c)
    ensures Fresh(Step(s, c))
  {
    var s' := Step(s, c);
    forall w, j: nat | w in s'.writers && j < |s'.writers[w].tags|
      ensures PositionOk(s', w, j)
    {
      if IsWriterCommand(c) {
        WriterCommandKeeps(s, c, w, j);
      } else {
        SweepCommandFrame(s, c);
        hide Step, CanStep, Counting;
        assert PositionOk(s, w, j);
        hide PositionOk;
        match c
        case Members(v) => MembersKeeps(s, v, w, j);
        case DeleteKey(v, key) => DeleteKeyKeeps(s, v, key, w, j);
        case DeleteIndex(v) => DeleteIndexKeeps(s, v, w, j);
        case Bump(v) => BumpKeeps(s, v, w, j);
        case _ =>
      }
    }
  }

  lemma {:induction false} FreshReached(run: seq<Command>)
    ensures Run(run).Some? ==> Fresh(Run(run).value)
  {
    hide Counting, Fresh, Step, CanStep;
    if run == [] {
      EmptyIsFresh();
    } else {
      var before := run[..|run| - 1];
      FreshReached(before);
      CountingReached(before);
      if Run(run).Some? {
        FreshKept(Run(before).value, run[|run| - 1]);
      }
    }
  }

  lemma EmptyIsFresh()
    ensures Fresh(EMPTY)
  {
  }

  // ----- an overlap ends in a bump -----

  ghost predicate BumpedSince(log: seq<LogItem>, from: nat, tag: Tag) {
    exists i :: from <= i < |log| && log[i] == Bumped(tag)
  }

  /** An invalidation that overlapped the write is still under way, or has bumped the tag since its check. */
  ghost predicate OverlapOk(s: State, w: WriterId, j: nat)
    requires w in s.writers && j < |s.writers[w].tags|
  {
    var x, tag := s.writers[w], s.writers[w].tags[j];
    (w, tag) in s.overlap ==> j < |x.checkAt| && (SweepUnderWay(s, tag) || BumpedSince(s.log, x.checkAt[j], tag))
  }

  ghost predicate Overlaps(s: State) {
    && (forall p :: p in s.overlap ==> p.0 in s.writers)
    && forall w, j: nat :: w in s.writers && j < |s.writers[w].tags| ==> OverlapOk(s, w, j)
  }

  lemma UnderWayUntilBumped(s: State, c: Command, tag: Tag)
    requires CanStep(s, c) && SweepUnderWay(s, tag)
    ensures SweepUnderWay(Step(s, c), tag) || Step(s, c).log == s.log + [Bumped(tag)]
  {
    LogStep(s, c);
    if IsWriterCommand(c) {
      WriterCommandsAreQuiet(s, c);
      QuietKeeps(s, Step(s, c), tag, "");
    } else {
      SweepCommandFrame(s, c);
      SweepMoves(s, c);
      hide Step, CanStep;
      var v :| v in s.sweeps && Active(s.sweeps[v], tag);
      assert v in Step(s, c).sweeps;
    }
  }

  /** What its own commands make of an invalidation. */
  lemma SweepMoves(s: State, c: Command)
    requires CanStep(s, c) && !IsWriterCommand(c)
    ensures c.v in s.sweeps && c.v in Step(s, c).sweeps
    ensures var x, x' := s.sweeps[c.v], Step(s, c).sweeps[c.v];
      if c.Bump? then LogItemOf(s, c) == Bumped(x.tags[x.at])
      else x'.tags == x.tags && x'.at == x.at && x'.stage != Ready
  {
    hide TagInWindow, Indexed, Generation;
  }

  lemma CheckTimesKept(s: State, c: Command, w: WriterId)
    requires CanStep(s, c) && w in s.writers
    ensures w in Step(s, c).writers && Step(s, c).writers[w].tags == s.writers[w].tags
    ensures s.writers[w].checkAt <= Step(s, c).writers[w].checkAt
  {
    WritersStay(s, c, w);
    WriterStep(s, c, w);
  }

  lemma WritersStay(s: State, c: Command, w: WriterId)
    requires CanStep(s, c) && w in s.writers
    ensures w in Step(s, c).writers
  {
    hide AfterRead, AfterCheck, TagInWindow, SweepUnderWay, Generation, Indexed;
  }

  /** What an overlap on record came from. */
  lemma OverlapAdded(s: State, c: Command, w: WriterId, tag: Tag)
    requires CanStep(s, c) && (w, tag) in Step(s, c).overlap && (w, tag) !in s.overlap
    ensures w in s.writers
    ensures
      || (c == CheckGeneration(w) && tag == s.writers[w].tags[|s.writers[w].now|] && SweepUnderWay(s, tag))
      || (c.Members? && tag == s.sweeps[c.v].tags[s.sweeps[c.v].at] && TagInWindow(s.writers[w], tag))
  {
    hide AfterRead, AfterCheck, TagInWindow, Generation, Indexed;
    if c == CheckGeneration(w) && SweepUnderWay(s.(log := s.log + [Other]), tag) {
      var v :| v in s.sweeps && Active(s.sweeps[v], tag);
    }
  }

  lemma OverlapKept(s: State, c: Command, w: WriterId, j: nat)
    requires Counting(s) && Overlaps(s) && CanStep(s, c)
    requires w in Step(s, c).writers && j < |Step(s, c).writers[w].tags|
    ensures OverlapOk(Step(s, c), w, j)
  {
    var s' := Step(s, c);
    var tag := s'.writers[w].tags[j];
    hide Step, CanStep, Counting, SweepUnderWay, TagInWindow, BumpedSince;
    if (w, tag) in s'.overlap {
      if (w, tag) !in s.overlap {
        OverlapBegins(s, c, w, j);
      } else {
        CheckTimesKept(s, c, w);
        LogStep(s, c);
        assert OverlapOk(s, w, j);
        var at := s.writers[w].checkAt[j];
        assert s'.writers[w].checkAt[j] == at;
        if BumpedSince(s.log, at, tag) {
          StillBumped(s.log, LogItemOf(s, c), at, tag);
        } else {
          UnderWayUntilBumped(s, c, tag);
          CheckedBefore(s, w, j);
          JustBumped(s.log, at, tag);
        }
      }
    }
  }

  lemma StillBumped(log: seq<LogItem>, item: LogItem, from: nat, tag: Tag)
    requires BumpedSince(log, from, tag)
    ensures BumpedSince(log + [item], from, tag)
  {
    var i :| from <= i < |log| && log[i] == Bumped(tag);
    assert (log + [item])[i] == Bumped(tag);
  }

  lemma JustBumped(log: seq<LogItem>, from: nat, tag: Tag)
    requires from <= |log|
    ensures BumpedSince(log + [Bumped(tag)], from, tag)
  {
    assert (log + [Bumped(tag)])[|log|] == Bumped(tag);
  }

  lemma CheckedBefore(s: State, w: WriterId, j: nat)
    requires Counting(s) && w in s.writers && j < |s.writers[w].checkAt|
    ensures s.writers[w].checkAt[j] <= |s.log|
  {
    assert WriterOk(s.log, s.writers[w]);
    hide Count;
  }

  /** An overlap is recorded only for a tag that is checked by then, while an invalidation is under way. */
  lemma OverlapBegins(s: State, c: Command, w: WriterId, j: nat)
    requires Counting(s) && CanStep(s, c)
    requires w in Step(s, c).writers && j < |Step(s, c).writers[w].tags|
    requires var tag := Step(s, c).writers[w].tags[j]; (w, tag) in Step(s, c).overlap && (w, tag) !in s.overlap
    ensures j < |Step(s, c).writers[w].checkAt| && SweepUnderWay(Step(s, c), Step(s, c).writers[w].tags[j])
  {
    var s', x := Step(s, c), s.writers[w];
    var tag := s'.writers[w].tags[j];
    OverlapAdded(s, c, w, tag);
    CheckTimesKept(s, c, w);
    assert WriterOk(s.log, x);
    hide Count;
    if c.Members? {
      SweepCommandFrame(s, c);
      SweepMoves(s, c);
      var i: nat :| i < |x.tags| && x.tags[i] == tag && InWindow(x, i);
      assert i == j;
      assert Active(s'.sweeps[c.v], tag);
    } else {
      WriterStep(s, c, w);
      assert |x.now| == j;
      WriterCommandsAreQuiet(s, c);
      QuietKeeps(s, s', tag, "");
    }
  }

  lemma OverlapsKept(s: State, c: Command)
    requires Counting(s) && Overlaps(s) && CanStep(s, c)
    ensures Overlaps(Step(s, c))
  {
    var s' := Step(s, c);
    hide Step, CanStep, Counting;
    forall p | p in s'.overlap
      ensures p.0 in s'.writers
    {
      if p !in s.overlap { OverlapAdded(s, c, p.0, p.1); }
      WritersStay(s, c, p.0);
    }
    forall w, j: nat | w in s'.writers && j < |s'.writers[w].tags|
      ensures OverlapOk(s', w, j)
    {
      OverlapKept(s, c, w, j);
    }
  }

  lemma {:induction false} OverlapsReached(run: seq<Command>)
    ensures Run(run).Some? ==> Overlaps(Run(run).value)
  {
    hide Counting, Overlaps, Step, CanStep;
    if run == [] {
      EmptyOverlaps();
    } else {
      var before := run[..|run| - 1];
      OverlapsReached(before);
      CountingReached(before);
      if Run(run).Some? {
        OverlapsKept(Run(before).value, run[|run| - 1]);
      }
    }
  }

  lemma EmptyOverlaps()
    ensures Overlaps(EMPTY)
  {
  }

  // ----- which entries are current -----

  /**
   Whatever the interleaving: an entry in the store is current for a tag exactly when the tag has not
   been bumped since its writer checked it. Nothing after that check can refuse the write.
   */
  lemma EntryIsCurrentIff(run: seq<Command>, key: Key, j: nat)
    requires Run(run).Some? && key in Run(run).value.entries
    ensures var s := Run(run).value;
      && s.entries[key] in s.writers
      && var w := s.writers[s.entries[key]];
      && |w.seen| == |w.checkAt| == |w.tags|
      && (j < |w.tags| ==>
            && w.checkAt[j] <= |s.log|
            && (w.seen[j] == Generation(s, w.tags[j]) <==>
                forall i :: w.checkAt[j] <= i < |s.log| ==> s.log[i] != Bumped(w.tags[j])))
  {
    CountingReached(run);
    var s := Run(run).value;
    hide Run;
    var w := s.writers[s.entries[key]];
    assert WriterOk(s.log, w);
    if j < |w.tags| {
      CountGrows(s.log, w.checkAt[j], w.tags[j]);
      hide Count;
      assert Generation(s, w.tags[j]) == Count(s.log, w.tags[j]);
    }
  }

  /**
   Whatever the interleaving: an entry in the store that no invalidation of a tag overlapped was loaded
   under the current generation of that tag; and once no invalidation of the tag is under way, those are
   all: an entry that was overlapped has been outlived.
   */
  lemma LiveEntriesAreFresh(run: seq<Command>, key: Key, j: nat)
    requires Run(run).Some? && key in Run(run).value.entries
    ensures var s := Run(run).value;
      && s.entries[key] in s.writers
      && var w := s.writers[s.entries[key]];
      && |w.seen| == |w.tags|
      && (j < |w.tags| && (s.entries[key], w.tags[j]) !in s.overlap ==> w.seen[j] == Generation(s, w.tags[j]))
      && (j < |w.tags| && !SweepUnderWay(s, w.tags[j]) ==>
            (w.seen[j] == Generation(s, w.tags[j]) <==> (s.entries[key], w.tags[j]) !in s.overlap))
  {
    CountingReached(run);
    FreshReached(run);
    OverlapsReached(run);
    EntryIsCurrentIff(run, key, j);
    var s := Run(run).value;
    hide Run, Count, SweepUnderWay;
    var w := s.writers[s.entries[key]];
    assert WriterOk(s.log, w);
    if j < |w.tags| {
      assert PositionOk(s, s.entries[key], j);
      assert OverlapOk(s, s.entries[key], j);
    }
  }

  // ----- what the protocol does not prevent -----

  /** An entry that an invalidation of one of its tags has outlived, with no invalidation under way. */
  predicate HasStaleEntry(s: State, key: Key, tag: Tag) {
    && key in s.entries && s.entries[key] in s.writers
    && var w := s.writers[s.entries[key]];
    && w.tags == [tag] && w.seen == [0] && Generation(s, tag) == 1
    && !SweepUnderWay(s, tag)
  }

  lemma Extend(run: seq<Command>, s: State, c: Command) returns (run': seq<Command>, s': State)
    requires Run(run) == Some(s) && CanStep(s, c)
    ensures run' == run + [c] && s' == Step(s, c) && Run(run') == Some(s')
  {
    run', s' := run + [c], Step(s, c);
    assert run'[..|run|] == run;
  }

  /** Everything of a state but its history. */
  predicate Is(s: State, entries: map<Key, WriterId>, index: map<Tag, set<Key>>, generations: map<Tag, nat>,
               writer: Writer, sweeps: map<SweepId, Sweep>) {
    && s.entries == entries && s.index == index && s.generations == generations
    && s.writers == map[0 := writer] && s.sweeps == sweeps
  }

  lemma BeforeCheck() returns (run: seq<Command>, s: State)
    ensures Run(run) == Some(s) && |s.log| == 2
    ensures Is(s, map[], map[], map[], Writer("k", ["t"], Checking, [0], [1], [], []), map[])
  {
    run, s := [], EMPTY;
    assert Run(run) == Some(s);
    hide Run;
    run, s := Extend(run, s, Miss(0, "k", ["t"]));
    assert Is(s, map[], map[], map[], Writer("k", ["t"], Reading, [], [], [], []), map[]);
    run, s := Extend(run, s, ReadGeneration(0));
    assert s.writers[0].seen == [0] && s.writers[0].readAt == [1];
  }

  lemma SweepBegins(run: seq<Command>, s: State, w: Writer) returns (run': seq<Command>, s': State)
    requires Run(run) == Some(s) && Is(s, map[], map[], map[], w, map[])
    ensures Run(run') == Some(s') && |s'.log| == |s.log| + 2
    ensures Is(s', map[], map[], map[], w, map[0 := Sweep(["t"], 0, Sweeping({}))])
  {
    hide Run, TagInWindow, SweepUnderWay;
    run', s' := Extend(run, s, Invalidate(0, ["t"]));
    run', s' := Extend(run', s', Members(0));
  }

  lemma SweepEnds(run: seq<Command>, s: State, entries: map<Key, WriterId>, index: map<Tag, set<Key>>, w: Writer)
    returns (run': seq<Command>, s': State)
    requires Run(run) == Some(s) && Is(s, entries, index, map[], w, map[0 := Sweep(["t"], 0, Sweeping({}))])
    ensures Run(run') == Some(s')
    ensures Is(s', entries, index - {"t"}, map["t" := 1], w, map[0 := Sweep(["t"], 1, Ready)])
  {
    hide Run, TagInWindow, SweepUnderWay;
    run', s' := Extend(run, s, DeleteIndex(0));
    run', s' := Extend(run', s', Bump(0));
  }

  lemma WriterChecks(run: seq<Command>, s: State, sweeps: map<SweepId, Sweep>)
    returns (run': seq<Command>, s': State, w: Writer)
    requires Run(run) == Some(s) && Is(s, map[], map[], map[], Writer("k", ["t"], Checking, [0], [1], [], []), sweeps)
    ensures Run(run') == Some(s') && w.key == "k" && w.tags == ["t"] && w.phase == Setting && w.seen == [0]
    ensures Is(s', map[], map[], map[], w, sweeps)
  {
    hide Run, TagInWindow, SweepUnderWay;
    run', s' := Extend(run, s, CheckGeneration(0));
    w := s'.writers[0];
  }

  lemma WriterWrites(run: seq<Command>, s: State, generations: map<Tag, nat>, w: Writer, sweeps: map<SweepId, Sweep>)
    returns (run': seq<Command>, s': State, w': Writer)
    requires Run(run) == Some(s) && Is(s, map[], map[], generations, w, sweeps)
    requires w.key == "k" && w.tags == ["t"] && w.phase == Setting && w.seen == [0]
    ensures Run(run') == Some(s') && w'.tags == ["t"] && w'.seen == [0]
    ensures Is(s', map["k" := 0], map["t" := {"k"}], generations, w', sweeps)
  {
    hide Run, TagInWindow, SweepUnderWay;
    run', s' := Extend(run, s, SetEntry(0));
    assert Is(s', map["k" := 0], map[], generations, w.(phase := Indexing(0)), sweeps);
    run', s' := Extend(run', s', AddToIndex(0));
    w' := s'.writers[0];
    assert s'.index["t"] == {"k"};
  }

  /** A write that was checked just before an invalidation lands after all of it. */
  lemma WriteAfterMissedInvalidation() returns (run: seq<Command>)
    ensures Run(run).Some? && HasStaleEntry(Run(run).value, "k", "t")
  {
    hide Run;
    var s, w;
    run, s := BeforeCheck();
    run, s, w := WriterChecks(run, s, map[]);
    run, s := SweepBegins(run, s, w);
    run, s := SweepEnds(run, s, map[], map[], w);
    var index: map<Tag, set<Key>> := map[];
    assert index - {"t"} == map[];
    run, s, w := WriterWrites(run, s, map["t" := 1], w, map[0 := Sweep(["t"], 1, Ready)]);
    NoSweepAtEnd(s);
  }

  lemma NoSweepAtEnd(s: State)
    requires s.sweeps == map[0 := Sweep(["t"], 1, Ready)]
    ensures !SweepUnderWay(s, "t")
  {
  }

  /** A write passes its check between the sweep and the bump, because the bump comes last. */
  lemma WriteBehindSweep() returns (run: seq<Command>)
    ensures Run(run).Some? && HasStaleEntry(Run(run).value, "k", "t")
  {
    hide Run;
    var s, w;
    run, s := BeforeCheck();
    run, s := SweepBegins(run, s, Writer("k", ["t"], Checking, [0], [1], [], []));
    run, s, w := WriterChecks(run, s, map[0 := Sweep(["t"], 0, Sweeping({}))]);
    run, s, w := WriterWrites(run, s, map[], w, map[0 := Sweep(["t"], 0, Sweeping({}))]);
    run, s := SweepEnds(run, s, map["k" := 0], map["t" := {"k"}], w);
    NoSweepAtEnd(s);
  }
}
