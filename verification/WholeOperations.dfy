/**
 What an invalidation or a write comes to when nobody's commands fall between its own: executed one after
 another on the store of `CacheProtocol`, they leave the keys, the indexes and the counters as the one step
 of `TaggedCache` does.
 */
module WholeOperations {
  import opened Text
  import opened CacheProtocol
  import TaggedCache

  function RunFrom(s: State, run: seq<Command>): Option<State>
    decreases |run|
  {
    if run == [] then Some(s)
    else if CanStep(s, run[0]) then RunFrom(Step(s, run[0]), run[1..])
    else None
  }

  lemma {:induction false} RunFromConcat(s: State, a: seq<Command>, b: seq<Command>)
    requires RunFrom(s, a).Some?
    ensures RunFrom(s, a + b) == RunFrom(RunFrom(s, a).value, b)
    decreases |a|
  {
    hide Step, CanStep;
    if a == [] {
      assert a + b == b;
    } else {
      assert (a + b)[1..] == a[1..] + b && (a + b)[0] == a[0];
      RunFromConcat(Step(s, a[0]), a[1..], b);
    }
  }

  lemma RunFromStep(s: State, c: Command, run: seq<Command>)
    requires CanStep(s, c)
    ensures RunFrom(s, [c] + run) == RunFrom(Step(s, c), run)
    ensures RunFrom(s, [c]) == Some(Step(s, c))
  {
    hide Step, CanStep;
    assert ([c] + run)[1..] == run && [c][1..] == [];
    assert RunFrom(Step(s, c), []) == Some(Step(s, c));
  }

  // ----- the store, without the parties -----

  datatype Store = Store(entries: map<Key, WriterId>, index: map<Tag, set<Key>>, generations: map<Tag, nat>)

  function StoreOf(s: State): Store { Store(s.entries, s.index, s.generations) }

  function ListOf(t: Store, tag: Tag): set<Key> { if tag in t.index then t.index[tag] else {} }

  function CounterOf(t: Store, tag: Tag): nat { if tag in t.generations then t.generations[tag] else 0 }

  function Invalidated(t: Store, tag: Tag): Store {
    Store(t.entries - ListOf(t, tag), t.index - {tag}, t.generations[tag := CounterOf(t, tag) + 1])
  }

  // ----- an invalidation -----

  /** What a command of the call `v` does: `x'` is the call after it. */
  ghost predicate Does(s: State, c: Command, v: SweepId, x': Sweep, store: Store) {
    && CanStep(s, c)
    && Step(s, c).sweeps == s.sweeps[v := x'] && Step(s, c).writers == s.writers
    && StoreOf(Step(s, c)) == store
  }

  lemma SweepCommandsDo(s: State, v: SweepId)
    requires v in s.sweeps && s.sweeps[v].at < |s.sweeps[v].tags|
    ensures var x := s.sweeps[v];
      var tag, store := x.tags[x.at], StoreOf(s);
      match x.stage
      case Ready => Does(s, Members(v), v, x.(stage := Sweeping(ListOf(store, tag))), store)
      case Sweeping(todo) =>
        && (forall key :: key in todo ==>
              Does(s, DeleteKey(v, key), v, x.(stage := Sweeping(todo - {key})), store.(entries := s.entries - {key})))
        && (todo == {} ==> Does(s, DeleteIndex(v), v, x.(stage := Bumping), store.(index := s.index - {tag})))
      case Bumping =>
        Does(s, Bump(v), v, x.(at := x.at + 1, stage := Ready),
             store.(generations := s.generations[tag := CounterOf(store, tag) + 1]))
  {
    hide TagInWindow, SweepUnderWay, AfterRead, AfterCheck;
  }

  predicate EachOnce(keys: seq<Key>) { forall i, j :: 0 <= i < j < |keys| ==> keys[i] != keys[j] }

  function Keys(keys: seq<Key>): set<Key> { set key | key in keys }

  function Deletes(v: SweepId, keys: seq<Key>): seq<Command> {
    if keys == [] then [] else [DeleteKey(v, keys[0])] + Deletes(v, keys[1..])
  }

  lemma {:induction false} DeletesRun(s: State, v: SweepId, keys: seq<Key>)
    requires v in s.sweeps && s.sweeps[v].at < |s.sweeps[v].tags|
    requires s.sweeps[v].stage == Sweeping(Keys(keys)) && EachOnce(keys)
    ensures var s' := RunFrom(s, Deletes(v, keys));
      && s'.Some? && StoreOf(s'.value) == StoreOf(s).(entries := s.entries - Keys(keys))
      && s'.value.sweeps == s.sweeps[v := s.sweeps[v].(stage := Sweeping({}))] && s'.value.writers == s.writers
    decreases |keys|
  {
    hide Step, CanStep;
    if keys == [] {
      assert Keys(keys) == {} && s.entries - {} == s.entries;
    } else {
      var c, rest := DeleteKey(v, keys[0]), keys[1..];
      assert keys == [keys[0]] + rest;
      assert Keys(keys) - {keys[0]} == Keys(rest);
      SweepCommandsDo(s, v);
      assert keys[0] in Keys(keys);
      DeletesRun(Step(s, c), v, rest);
      RunFromStep(s, c, Deletes(v, rest));
      hide RunFrom;
      assert s.entries - {keys[0]} - Keys(rest) == s.entries - Keys(keys);
    }
  }

  /** The commands of one tag's turn, the listed keys in any order. */
  function Turn(v: SweepId, keys: seq<Key>): seq<Command> {
    [Members(v)] + (Deletes(v, keys) + ([DeleteIndex(v)] + [Bump(v)]))
  }

  /** One turn deletes the keys listed under the tag, drops the list and counts one invalidation. */
  lemma TurnInvalidates(s: State, v: SweepId, keys: seq<Key>)
    requires v in s.sweeps && s.sweeps[v].stage == Ready && s.sweeps[v].at < |s.sweeps[v].tags|
    requires EachOnce(keys) && Keys(keys) == ListOf(StoreOf(s), s.sweeps[v].tags[s.sweeps[v].at])
    ensures var s' := RunFrom(s, Turn(v, keys));
      && s'.Some? && StoreOf(s'.value) == Invalidated(StoreOf(s), s.sweeps[v].tags[s.sweeps[v].at])
      && s'.value.sweeps == s.sweeps[v := s.sweeps[v].(at := s.sweeps[v].at + 1)] && s'.value.writers == s.writers
  {
    hide Step, CanStep, Deletes, Keys, EachOnce, RunFrom;
    SweepCommandsDo(s, v);
    var s1 := Step(s, Members(v));
    DeletesRun(s1, v, keys);
    var s2 := RunFrom(s1, Deletes(v, keys)).value;
    SweepCommandsDo(s2, v);
    var s3 := Step(s2, DeleteIndex(v));
    SweepCommandsDo(s3, v);
    RunFromStep(s3, Bump(v), []);
    RunFromStep(s2, DeleteIndex(v), [Bump(v)]);
    RunFromConcat(s1, Deletes(v, keys), [DeleteIndex(v)] + [Bump(v)]);
    RunFromStep(s, Members(v), Deletes(v, keys) + ([DeleteIndex(v)] + [Bump(v)]));
  }

  lemma {:induction false} Enumerate(keys: set<Key>) returns (listed: seq<Key>)
    ensures EachOnce(listed) && Keys(listed) == keys
    decreases |keys|
  {
    if keys == {} {
      listed := [];
    } else {
      var key :| key in keys;
      var rest := Enumerate(keys - {key});
      listed := [key] + rest;
      assert key !in Keys(rest);
      assert Keys(listed) == {key} + Keys(rest) == keys;
    }
  }

  /** The store of whole operations with the same keys, lists and counters. */
  ghost predicate Same(s: State, c: TaggedCache.Contents) {
    s.entries.Keys == c.entries.Keys && s.index == c.index && s.generations == c.generations
  }

  lemma {:induction false} TurnsInvalidate(s: State, v: SweepId, n: nat, c: TaggedCache.Contents) returns (run: seq<Command>)
    requires v in s.sweeps && s.sweeps[v].stage == Ready && s.sweeps[v].at == 0 && n <= |s.sweeps[v].tags|
    requires Same(s, c)
    ensures var s' := RunFrom(s, run);
      && s'.Some? && Same(s'.value, TaggedCache.InvalidatedAll(c, s.sweeps[v].tags[..n]))
      && s'.value.sweeps == s.sweeps[v := s.sweeps[v].(at := n)] && s'.value.entries.Items <= s.entries.Items
  {
    hide Step, CanStep, Keys, EachOnce, RunFrom, Turn;
    if n == 0 {
      run := [];
      assert RunFrom(s, []) == Some(s) by { NoCommand(s); }
    } else {
      var tags := s.sweeps[v].tags;
      var before := TurnsInvalidate(s, v, n - 1, c);
      var s1 := RunFrom(s, before).value;
      var keys := Enumerate(ListOf(StoreOf(s1), tags[n - 1]));
      TurnInvalidates(s1, v, keys);
      RunFromConcat(s, before, Turn(v, keys));
      run := before + Turn(v, keys);
      assert tags[..n][..n - 1] == tags[..n - 1] && tags[..n][n - 1] == tags[n - 1];
    }
  }

  lemma NoCommand(s: State)
    ensures RunFrom(s, []) == Some(s)
  {
  }

  /** A call that nobody interrupts does what the whole operation does. */
  lemma CallInvalidates(s: State, v: SweepId, tags: seq<Tag>, c: TaggedCache.Contents) returns (run: seq<Command>)
    requires v !in s.sweeps && Same(s, c)
    ensures run != [] && run[0] == Invalidate(v, tags)
    ensures var s' := RunFrom(s, run);
      && s'.Some? && Same(s'.value, TaggedCache.InvalidatedAll(c, tags))
      && v in s'.value.sweeps && s'.value.sweeps[v] == Sweep(tags, |tags|, Ready)
      && s'.value.entries.Items <= s.entries.Items
  {
    hide RunFrom;
    var c0 := Invalidate(v, tags);
    var s0 := Step(s, c0);
    assert CanStep(s, c0);
    assert StoreOf(s0) == StoreOf(s) && s0.sweeps == s.sweeps[v := Sweep(tags, 0, Ready)];
    hide Step, CanStep;
    var turns := TurnsInvalidate(s0, v, |tags|, c);
    RunFromStep(s, c0, turns);
    assert tags[..|tags|] == tags;
    run := [c0] + turns;
  }

  // ----- a write -----

  /** The writer `w` of `key` is in `phase` with these readings, and the store is `store`. */
  ghost predicate At(s: State, w: WriterId, key: Key, tags: seq<Tag>, phase: Phase, seen: seq<nat>, now: seq<nat>, store: Store) {
    && w in s.writers && StoreOf(s) == store
    && var x := s.writers[w];
    && x.key == key && x.tags == tags && x.phase == phase && x.seen == seen && x.now == now
  }

  function Counters(store: Store, tags: seq<Tag>): (r: seq<nat>)
    ensures |r| == |tags|
    ensures forall j :: 0 <= j < |tags| ==> r[j] == CounterOf(store, tags[j])
  {
    seq(|tags|, j requires 0 <= j < |tags| => CounterOf(store, tags[j]))
  }

  lemma MissDoes(s: State, w: WriterId, key: Key, tags: seq<Tag>)
    requires w !in s.writers && Distinct(tags)
    ensures var m := Miss(w, key, tags);
      CanStep(s, m) && At(Step(s, m), w, key, tags, if tags == [] then Setting else Reading, [], [], StoreOf(s))
  {
    hide TagInWindow, SweepUnderWay, AfterRead, AfterCheck, Distinct;
  }

  lemma ReadDoes(s: State, w: WriterId, key: Key, tags: seq<Tag>, seen: seq<nat>, store: Store)
    requires At(s, w, key, tags, Reading, seen, [], store) && |seen| < |tags|
    ensures var c, seen' := ReadGeneration(w), seen + [CounterOf(store, tags[|seen|])];
      CanStep(s, c) && At(Step(s, c), w, key, tags, if |seen'| == |tags| then Checking else Reading, seen', [], store)
  {
    hide TagInWindow, SweepUnderWay, AfterCheck;
  }

  lemma CheckDoes(s: State, w: WriterId, key: Key, tags: seq<Tag>, seen: seq<nat>, now: seq<nat>, store: Store)
    requires At(s, w, key, tags, Checking, seen, now, store) && |now| < |tags|
    ensures var c, now' := CheckGeneration(w), now + [CounterOf(store, tags[|now|])];
      && CanStep(s, c)
      && At(Step(s, c), w, key, tags,
            if |now'| < |tags| then Checking else if seen == now' then Setting else Refused, seen, now', store)
  {
    hide TagInWindow, SweepUnderWay, AfterRead;
  }

  lemma WriteDoes(s: State, w: WriterId, key: Key, tags: seq<Tag>, phase: Phase, seen: seq<nat>, now: seq<nat>, store: Store)
    requires At(s, w, key, tags, phase, seen, now, store)
    ensures phase == Setting ==>
      && CanStep(s, SetEntry(w))
      && At(Step(s, SetEntry(w)), w, key, tags, Indexing(0), seen, now, store.(entries := store.entries[key := w]))
    ensures phase.Indexing? && phase.next < |tags| ==>
      && CanStep(s, AddToIndex(w))
      && At(Step(s, AddToIndex(w)), w, key, tags, Indexing(phase.next + 1), seen, now,
            store.(index := store.index[tags[phase.next] := ListOf(store, tags[phase.next]) + {key}]))
  {
    hide TagInWindow, SweepUnderWay, AfterRead, AfterCheck;
  }

  lemma {:induction false} ReadsRun(s: State, w: WriterId, key: Key, tags: seq<Tag>, seen: seq<nat>, store: Store)
      returns (run: seq<Command>)
    requires |seen| < |tags| && seen == Counters(store, tags)[..|seen|]
    requires At(s, w, key, tags, Reading, seen, [], store)
    ensures RunFrom(s, run).Some?
    ensures At(RunFrom(s, run).value, w, key, tags, Checking, Counters(store, tags), [], store)
    decreases |tags| - |seen|
  {
    hide Step, CanStep, RunFrom, At;
    var c, n := ReadGeneration(w), |seen| + 1;
    var seen' := seen + [CounterOf(store, tags[|seen|])];
    assert seen' == Counters(store, tags)[..n];
    ReadDoes(s, w, key, tags, seen, store);
    var rest := [];
    if n < |tags| {
      rest := ReadsRun(Step(s, c), w, key, tags, seen', store);
    } else {
      NoCommand(Step(s, c));
      assert seen' == Counters(store, tags);
    }
    RunFromStep(s, c, rest);
    run := [c] + rest;
  }

  lemma {:induction false} ChecksRun(s: State, w: WriterId, key: Key, tags: seq<Tag>, now: seq<nat>, store: Store)
      returns (run: seq<Command>)
    requires |now| < |tags| && now == Counters(store, tags)[..|now|]
    requires At(s, w, key, tags, Checking, Counters(store, tags), now, store)
    ensures RunFrom(s, run).Some?
    ensures At(RunFrom(s, run).value, w, key, tags, Setting, Counters(store, tags), Counters(store, tags), store)
    decreases |tags| - |now|
  {
    hide Step, CanStep, RunFrom, At;
    var c, n := CheckGeneration(w), |now| + 1;
    var now' := now + [CounterOf(store, tags[|now|])];
    assert now' == Counters(store, tags)[..n];
    CheckDoes(s, w, key, tags, Counters(store, tags), now, store);
    var rest := [];
    if n < |tags| {
      rest := ChecksRun(Step(s, c), w, key, tags, now', store);
    } else {
      NoCommand(Step(s, c));
      assert now' == Counters(store, tags);
    }
    RunFromStep(s, c, rest);
    run := [c] + rest;
  }

  lemma {:induction false} AddsRun(s: State, w: WriterId, key: Key, tags: seq<Tag>, next: nat, seen: seq<nat>, store: Store)
      returns (run: seq<Command>)
    requires next <= |tags| && At(s, w, key, tags, Indexing(next), seen, seen, store)
    ensures RunFrom(s, run).Some?
    ensures At(RunFrom(s, run).value, w, key, tags, Indexing(|tags|), seen, seen,
               store.(index := TaggedCache.AddToIndexes(store.index, tags[next..], key)))
    decreases |tags| - next
  {
    hide Step, CanStep, RunFrom, At;
    if next == |tags| {
      run := [];
      NoCommand(s);
    } else {
      WriteDoes(s, w, key, tags, Indexing(next), seen, seen, store);
      var tag := tags[next];
      var store' := store.(index := store.index[tag := ListOf(store, tag) + {key}]);
      var rest := AddsRun(Step(s, AddToIndex(w)), w, key, tags, next + 1, seen, store');
      RunFromStep(s, AddToIndex(w), rest);
      run := [AddToIndex(w)] + rest;
      AddFirst(store.index, tags[next..], key);
      assert tags[next..][1..] == tags[next + 1..];
    }
  }

  /** The indexes may as well be added to from the front. */
  lemma {:induction false} AddFirst(index: map<Tag, set<Key>>, tags: seq<Tag>, key: Key)
    requires tags != []
    ensures TaggedCache.AddToIndexes(index, tags, key) ==
            TaggedCache.AddToIndexes(index[tags[0] := (if tags[0] in index then index[tags[0]] else {}) + {key}], tags[1..], key)
  {
    var n := |tags| - 1;
    if n > 0 {
      AddFirst(index, tags[..n], key);
      assert tags[..n][1..] == tags[1..][..n - 1] && tags[1..][n - 1] == tags[n];
    } else {
      assert tags[..0] == [] && tags[1..] == [];
    }
  }

  lemma SnapshotRun(s: State, w: WriterId, key: Key, tags: seq<Tag>, store: Store) returns (run: seq<Command>)
    requires At(s, w, key, tags, if tags == [] then Setting else Reading, [], [], store)
    ensures RunFrom(s, run).Some?
    ensures At(RunFrom(s, run).value, w, key, tags, Setting, Counters(store, tags), Counters(store, tags), store)
  {
    hide Step, CanStep, RunFrom, At;
    if tags == [] {
      run := [];
      NoCommand(s);
      assert Counters(store, tags) == [];
    } else {
      var readings := ReadsRun(s, w, key, tags, [], store);
      var checks := ChecksRun(RunFrom(s, readings).value, w, key, tags, [], store);
      RunFromConcat(s, readings, checks);
      run := readings + checks;
    }
  }

  /** A request that nobody interrupts stores its entry as the whole operation does. */
  lemma RequestStores(s: State, w: WriterId, key: Key, tags: seq<Tag>, c: TaggedCache.Contents, entry: TaggedCache.Entry)
      returns (run: seq<Command>)
    requires w !in s.writers && Distinct(tags) && Same(s, c) && entry.tags == tags
    ensures run != [] && run[0] == Miss(w, key, tags)
    ensures var s' := RunFrom(s, run);
      && s'.Some? && s'.value.entries == s.entries[key := w]
      && Same(s'.value, TaggedCache.Stored(c, key, entry, Some(TaggedCache.Generations(c, tags))))
  {
    hide RunFrom, Step, CanStep, Distinct;
    var store, m := StoreOf(s), Miss(w, key, tags);
    MissDoes(s, w, key, tags);
    var s0 := Step(s, m);
    var snapshot := SnapshotRun(s0, w, key, tags, store);
    var seen, s1 := Counters(store, tags), RunFrom(s0, snapshot).value;
    WriteDoes(s1, w, key, tags, Setting, seen, seen, store);
    var s2, store' := Step(s1, SetEntry(w)), store.(entries := store.entries[key := w]);
    var adds := AddsRun(s2, w, key, tags, 0, seen, store');
    RunFromStep(s1, SetEntry(w), adds);
    RunFromConcat(s0, snapshot, [SetEntry(w)] + adds);
    var rest := snapshot + ([SetEntry(w)] + adds);
    RunFromStep(s, m, rest);
    run := [m] + rest;
    assert tags[0..] == tags;
  }
}
