/**
 The tagged response cache with a store and an invalidation each taken as one step.
 */
module TaggedCache {
  import opened Text
  import CacheKeys

  type Tag = string
  type Key = string

  /** A request, with the options of the decorator on its handler. */
  datatype Request = Request(options: CacheKeys.Options, context: CacheKeys.Context)

  function KeyOf(r: Request): Key { CacheKeys.Key(r.options, r.context) }

  /**
   A cached response. `snapshot`, `loadedAt` and `writer` are history: what its writer saw, when, and
   the request it was produced for.
   */
  datatype Entry = Entry(value: string, tags: seq<Tag>, snapshot: seq<nat>, loadedAt: nat, writer: Request)

  datatype Contents = Contents(entries: map<Key, Entry>, index: map<Tag, set<Key>>, generations: map<Tag, nat>)

  function Generation(c: Contents, tag: Tag): nat { if tag in c.generations then c.generations[tag] else 0 }

  function Indexed(c: Contents, tag: Tag): set<Key> { if tag in c.index then c.index[tag] else {} }

  function Generations(c: Contents, tags: seq<Tag>): (r: seq<nat>)
    ensures |r| == |tags|
    ensures forall j :: 0 <= j < |tags| ==> r[j] == Generation(c, tags[j])
  {
    seq(|tags|, j requires 0 <= j < |tags| => Generation(c, tags[j]))
  }

  // ----- what the two operations do -----

  /** Invalidating one tag: its keys are deleted, its index is dropped, its counter is bumped. */
  function Invalidated(c: Contents, tag: Tag): Contents {
    Contents(c.entries - Indexed(c, tag), c.index - {tag}, c.generations[tag := Generation(c, tag) + 1])
  }

  function InvalidatedAll(c: Contents, tags: seq<Tag>): Contents {
    if tags == [] then c else Invalidated(InvalidatedAll(c, tags[..|tags| - 1]), tags[|tags| - 1])
  }

  /** How many keys the invalidation deletes, a key indexed under two of the tags being counted twice. */
  function RemovedCount(c: Contents, tags: seq<Tag>): nat {
    if tags == [] then 0
    else RemovedCount(c, tags[..|tags| - 1]) + |Indexed(InvalidatedAll(c, tags[..|tags| - 1]), tags[|tags| - 1])|
  }

  function AddToIndexes(index: map<Tag, set<Key>>, tags: seq<Tag>, key: Key): map<Tag, set<Key>> {
    if tags == [] then index else
      var index' := AddToIndexes(index, tags[..|tags| - 1], key);
      var tag := tags[|tags| - 1];
      index'[tag := (if tag in index' then index'[tag] else {}) + {key}]
  }

  /** `None` generations are an unreadable snapshot, which permits the write. */
  predicate MayStore(c: Contents, tags: seq<Tag>, generations: Option<seq<nat>>) {
    generations == None || tags == [] || generations.value == Generations(c, tags)
  }

  function Stored(c: Contents, key: Key, entry: Entry, generations: Option<seq<nat>>): Contents {
    if MayStore(c, entry.tags, generations) then
      Contents(c.entries[key := entry], AddToIndexes(c.index, entry.tags, key), c.generations)
    else c
  }

  // ----- the interceptor -----

  class CacheInterceptor {
    var entries: map<Key, Entry>
    var index: map<Tag, set<Key>>
    var generations: map<Tag, nat>
    var writes: nat
    var invalidations: nat

    function State(): Contents
      reads this
    {
      Contents(entries, index, generations)
    }

    constructor ()
      ensures State() == Contents(map[], map[], map[]) && writes == invalidations == 0
    {
      entries, index, generations, writes, invalidations := map[], map[], map[], 0, 0;
    }

    /** The body of the loop over the tags. */
    method InvalidateTag(tag: Tag) returns (removed: nat)
      modifies this`entries, this`index, this`generations
      ensures State() == Invalidated(old(State()), tag)
      ensures removed == |Indexed(old(State()), tag)|
    {
      removed := 0;
      var keys := Indexed(State(), tag);
      var todo := keys;
      while todo != {}
        invariant todo <= keys
        invariant entries == old(entries) - (keys - todo)
        invariant index == old(index) && generations == old(generations)
        invariant removed == |keys| - |todo|
        decreases |todo|
      {
        var key :| key in todo;
        entries := entries - {key};
        removed := removed + 1;
        todo := todo - {key};
      }
      assert keys - {} == keys;
      index := index - {tag};
      generations := generations[tag := Generation(State(), tag) + 1];
    }

    method InvalidateTags(tags: seq<Tag>) returns (removed: nat)
      modifies this
      ensures State() == InvalidatedAll(old(State()), tags)
      ensures removed == RemovedCount(old(State()), tags)
      ensures invalidations == old(invalidations) + removed && writes == old(writes)
    {
      removed := 0;
      for t := 0 to |tags|
        invariant State() == InvalidatedAll(old(State()), tags[..t])
        invariant removed == RemovedCount(old(State()), tags[..t])
        invariant invalidations == old(invalidations) && writes == old(writes)
      {
        assert tags[..t + 1][..t] == tags[..t];
        var deleted := InvalidateTag(tags[t]);
        removed := removed + deleted;
      }
      assert tags[..|tags|] == tags;
      invalidations := invalidations + removed;
    }

    method StoreWithTags(key: Key, entry: Entry, snapshot: Option<seq<nat>>)
      modifies this
      ensures State() == Stored(old(State()), key, entry, snapshot)
      ensures writes == old(writes) + (if MayStore(old(State()), entry.tags, snapshot) then 1 else 0)
      ensures invalidations == old(invalidations)
    {
      if snapshot != None && |entry.tags| > 0 && snapshot.value != Generations(State(), entry.tags) {
        return;
      }
      entries := entries[key := entry];
      for t := 0 to |entry.tags|
        invariant entries == old(entries)[key := entry] && generations == old(generations)
        invariant writes == old(writes) && invalidations == old(invalidations)
        invariant index == AddToIndexes(old(index), entry.tags[..t], key)
      {
        assert entry.tags[..t + 1][..t] == entry.tags[..t];
        var tag := entry.tags[t];
        index := index[tag := (if tag in index then index[tag] else {}) + {key}];
      }
      assert entry.tags[..|entry.tags|] == entry.tags;
      writes := writes + 1;
    }
  }

  // ----- runs of whole operations -----

  /** A request between its snapshot and its store. */
  datatype Ticket = Ticket(request: Request, key: Key, tags: seq<Tag>, snapshot: seq<nat>, at: nat)

  /** `lastInvalidated` is history: when each tag was last invalidated, with `clock` counting operations. */
  datatype World = World(cache: Contents, pending: map<nat, Ticket>, lastInvalidated: map<Tag, nat>, clock: nat)

  datatype Operation =
    | Begin(id: nat, request: Request, tags: seq<Tag>)
    | Finish(id: nat, value: string)
    | Invalidate(tags: seq<Tag>)
    | Expire(key: Key)

  const EMPTY := World(Contents(map[], map[], map[]), map[], map[], 0)

  function LastInvalidated(w: World, tag: Tag): nat {
    if tag in w.lastInvalidated then w.lastInvalidated[tag] else 0
  }

  function Do(w: World, op: Operation): World {
    var w := w.(clock := w.clock + 1);
    match op
    case Begin(id, request, tags) =>
      w.(pending := w.pending[id := Ticket(request, KeyOf(request), tags, Generations(w.cache, tags), w.clock)])
    case Finish(id, value) =>
      if id !in w.pending then w else
        var x := w.pending[id];
        w.(cache := Stored(w.cache, x.key, Entry(value, x.tags, x.snapshot, x.at, x.request), Some(x.snapshot)),
           pending := w.pending - {id})
    case Invalidate(tags) =>
      w.(cache := InvalidatedAll(w.cache, tags),
         lastInvalidated := map tag | tag in w.lastInvalidated.Keys + (set t | t in tags) ::
           if tag in tags then w.clock else w.lastInvalidated[tag])
    case Expire(key) => w.(cache := w.cache.(entries := w.cache.entries - {key}))
  }

  function Run(ops: seq<Operation>): World {
    if ops == [] then EMPTY else Do(Run(ops[..|ops| - 1]), ops[|ops| - 1])
  }

  // ----- freshness -----

  /** The entry's snapshot is current, every index of its tags lists it, nothing invalidated it since. */
  ghost predicate EntryFresh(w: World, key: Key)
    requires key in w.cache.entries
  {
    var e := w.cache.entries[key];
    && |e.snapshot| == |e.tags|
    && forall j :: 0 <= j < |e.tags| ==>
         && e.snapshot[j] == Generation(w.cache, e.tags[j])
         && key in Indexed(w.cache, e.tags[j])
         && LastInvalidated(w, e.tags[j]) <= e.loadedAt
  }

  /** A snapshot is still current for exactly the tags not invalidated since it was taken. */
  ghost predicate TicketFair(w: World, x: Ticket) {
    && |x.snapshot| == |x.tags| && x.at <= w.clock
    && forall j :: 0 <= j < |x.tags| ==>
         && x.snapshot[j] <= Generation(w.cache, x.tags[j])
         && (x.snapshot[j] == Generation(w.cache, x.tags[j]) <==> LastInvalidated(w, x.tags[j]) <= x.at)
  }

  ghost predicate Fresh(w: World) {
    && (forall key :: key in w.cache.entries ==> EntryFresh(w, key))
    && (forall id :: id in w.pending ==> TicketFair(w, w.pending[id]))
    && (forall tag :: LastInvalidated(w, tag) <= w.clock)
  }

  /** An invalidation deletes exactly the keys listed under one of its tags, and lists none under them any more. */
  lemma {:induction false} InvalidatedAllIs(c: Contents, tags: seq<Tag>)
    ensures var c' := InvalidatedAll(c, tags);
      && (forall key :: key in c'.entries ==> key in c.entries && c'.entries[key] == c.entries[key])
      && (forall key :: key in c'.entries <==> key in c.entries && forall tag :: tag in tags ==> key !in Indexed(c, tag))
      && (forall tag :: tag !in tags ==> Generation(c', tag) == Generation(c, tag) && Indexed(c', tag) == Indexed(c, tag))
      && (forall tag :: tag in tags ==> Generation(c', tag) > Generation(c, tag) && Indexed(c', tag) == {})
  {
    if tags != [] {
      var before, last := tags[..|tags| - 1], tags[|tags| - 1];
      InvalidatedAllIs(c, before);
      assert tags == before + [last];
    }
  }

  lemma {:induction false} AddToIndexesIs(index: map<Tag, set<Key>>, tags: seq<Tag>, key: Key)
    ensures var index' := AddToIndexes(index, tags, key);
      && (forall tag :: tag in index ==> tag in index' && index[tag] <= index'[tag])
      && (forall tag :: tag in tags ==> tag in index' && key in index'[tag])
      && (forall tag :: tag in index' ==>
            index'[tag] == (if tag in index then index[tag] else {}) + (if tag in tags then {key} else {}))
  {
    if tags != [] {
      var before, last := tags[..|tags| - 1], tags[|tags| - 1];
      AddToIndexesIs(index, before, key);
      assert tags == before + [last];
    }
  }

  lemma InvalidateKeepsFresh(w: World, tags: seq<Tag>)
    requires Fresh(w)
    ensures Fresh(Do(w, Invalidate(tags)))
  {
    var w' := Do(w, Invalidate(tags));
    InvalidatedAllIs(w.cache, tags);
    assert forall tag :: LastInvalidated(w', tag) == if tag in tags then w.clock + 1 else LastInvalidated(w, tag);
    assert w'.pending == w.pending && w'.clock == w.clock + 1 && w'.cache == InvalidatedAll(w.cache, tags);
    hide InvalidatedAll, Do, LastInvalidated, Indexed, Generation;
    forall key | key in w'.cache.entries
      ensures EntryFresh(w', key)
    {
      assert EntryFresh(w, key);
      var e := w.cache.entries[key];
      assert forall j :: 0 <= j < |e.tags| ==> e.tags[j] !in tags;
    }
    forall id | id in w'.pending
      ensures TicketFair(w', w'.pending[id])
    {
      TicketStaysFair(w, w', w.pending[id], tags);
    }
  }

  /** A snapshot of an invalidated tag is not current any more, and was taken before. */
  lemma TicketStaysFair(w: World, w': World, x: Ticket, tags: seq<Tag>)
    requires TicketFair(w, x) && w'.clock == w.clock + 1
    requires forall tag :: LastInvalidated(w', tag) == if tag in tags then w.clock + 1 else LastInvalidated(w, tag)
    requires forall tag :: if tag in tags then Generation(w'.cache, tag) > Generation(w.cache, tag)
                           else Generation(w'.cache, tag) == Generation(w.cache, tag)
    ensures TicketFair(w', x)
  {
    hide LastInvalidated, Generation;
  }

  lemma StoredIsFresh(w: World, w': World, x: Ticket, value: string)
    requires TicketFair(w, x) && MayStore(w.cache, x.tags, Some(x.snapshot))
    requires w'.cache == Stored(w.cache, x.key, Entry(value, x.tags, x.snapshot, x.at, x.request), Some(x.snapshot))
    requires w'.lastInvalidated == w.lastInvalidated
    ensures EntryFresh(w', x.key)
  {
    AddToIndexesIs(w.cache.index, x.tags, x.key);
    hide AddToIndexes;
    forall j | 0 <= j < |x.tags|
      ensures x.snapshot[j] == Generation(w'.cache, x.tags[j])
      ensures x.key in Indexed(w'.cache, x.tags[j])
      ensures LastInvalidated(w', x.tags[j]) <= x.at
    {
      assert x.tags[j] in x.tags;
    }
  }

  lemma FinishKeepsFresh(w: World, id: nat, value: string)
    requires Fresh(w) && id in w.pending
    ensures Fresh(Do(w, Finish(id, value)))
  {
    var w' := Do(w, Finish(id, value));
    var x := w.pending[id];
    assert forall tag :: LastInvalidated(w', tag) == LastInvalidated(w, tag) <= w.clock;
    assert forall tag :: Generation(w'.cache, tag) == Generation(w.cache, tag);
    AddToIndexesIs(w.cache.index, x.tags, x.key);
    assert TicketFair(w, x);
    assert forall tag :: Indexed(w.cache, tag) <= Indexed(w'.cache, tag);
    hide LastInvalidated, Generation, Indexed;
    forall key | key in w'.cache.entries
      ensures EntryFresh(w', key)
    {
      if key == x.key && MayStore(w.cache, x.tags, Some(x.snapshot)) {
        StoredIsFresh(w, w', x, value);
      } else {
        assert EntryFresh(w, key);
      }
    }
    forall other | other in w'.pending
      ensures TicketFair(w', w'.pending[other])
    {
      assert TicketFair(w, w.pending[other]);
    }
  }

  lemma OperationKeepsFresh(w: World, op: Operation)
    requires Fresh(w)
    ensures Fresh(Do(w, op))
  {
    if op.Invalidate? {
      InvalidateKeepsFresh(w, op.tags);
    } else if op.Finish? && op.id in w.pending {
      FinishKeepsFresh(w, op.id, op.value);
    } else {
      var w' := Do(w, op);
      assert forall tag :: LastInvalidated(w', tag) == LastInvalidated(w, tag) <= w.clock;
      forall key | key in w'.cache.entries
        ensures EntryFresh(w', key)
      {
        assert EntryFresh(w, key);
      }
      forall id | id in w'.pending
        ensures TicketFair(w', w'.pending[id])
      {
        assert id in w.pending && w'.pending[id] == w.pending[id] ==> TicketFair(w, w.pending[id]);
      }
    }
  }

  lemma {:induction false} RunIsFresh(ops: seq<Operation>)
    ensures Fresh(Run(ops))
  {
    hide Fresh, Do;
    if ops == [] {
      EmptyIsFresh();
    } else {
      RunIsFresh(ops[..|ops| - 1]);
      OperationKeepsFresh(Run(ops[..|ops| - 1]), ops[|ops| - 1]);
    }
  }

  lemma EmptyIsFresh()
    ensures Fresh(EMPTY)
  {
  }

  /** After any run of whole operations, nothing loaded before an invalidation of its tags is served. */
  lemma NothingInvalidatedSurvives(ops: seq<Operation>, key: Key, j: nat)
    requires key in Run(ops).cache.entries && j < |Run(ops).cache.entries[key].tags|
    ensures var w := Run(ops);
      var e := w.cache.entries[key];
      && j < |e.snapshot| && e.snapshot[j] == Generation(w.cache, e.tags[j])
      && LastInvalidated(w, e.tags[j]) <= e.loadedAt
  {
    RunIsFresh(ops);
    assert EntryFresh(Run(ops), key);
  }

  /** After any run, a response is stored exactly when none of its tags was invalidated since its request began. */
  lemma StoredIff(ops: seq<Operation>, id: nat, value: string)
    requires id in Run(ops).pending
    ensures var w := Run(ops);
      var x, w' := w.pending[id], Do(w, Finish(id, value));
      if forall tag :: tag in x.tags ==> LastInvalidated(w, tag) <= x.at
      then w'.cache.entries == w.cache.entries[x.key := EntryOf(x, value)]
      else w'.cache == w.cache
  {
    RunIsFresh(ops);
    var w := Run(ops);
    var x := w.pending[id];
    hide Run, AddToIndexes;
    assert TicketFair(w, x);
    if forall tag :: tag in x.tags ==> LastInvalidated(w, tag) <= x.at {
      assert forall j :: 0 <= j < |x.tags| ==> x.tags[j] in x.tags;
      assert x.snapshot == Generations(w.cache, x.tags);
    } else {
      var tag :| tag in x.tags && LastInvalidated(w, tag) > x.at;
      var j :| 0 <= j < |x.tags| && x.tags[j] == tag;
      assert x.snapshot[j] != Generations(w.cache, x.tags)[j];
    }
  }

  // ----- a hit is a response to the same request -----

  /** At `n` the run finished a request: what it did with the response is `e`. */
  predicate FinishedAt(ops: seq<Operation>, n: nat, e: Entry)
    requires n < |ops|
  {
    var w := Run(ops[..n]);
    && ops[n].Finish? && ops[n].id in w.pending
    && w.pending[ops[n].id].request == e.writer && ops[n].value == e.value
  }

  /** The response was produced for its writer. */
  ghost predicate Produced(ops: seq<Operation>, e: Entry) {
    exists n: nat :: n < |ops| && FinishedAt(ops, n, e)
  }

  ghost predicate Begun(ops: seq<Operation>, r: Request) {
    exists n :: 0 <= n < |ops| && ops[n].Begin? && ops[n].request == r
  }

  lemma ProducedEarlier(ops: seq<Operation>, e: Entry)
    requires ops != [] && Produced(ops[..|ops| - 1], e)
    ensures Produced(ops, e)
  {
    hide Run;
    var before := ops[..|ops| - 1];
    var n: nat :| n < |before| && FinishedAt(before, n, e);
    assert before[..n] == ops[..n] && before[n] == ops[n];
    assert FinishedAt(ops, n, e);
  }

  lemma {:induction false} PendingIsBegun(ops: seq<Operation>, id: nat)
    requires id in Run(ops).pending
    ensures var x := Run(ops).pending[id];
      x.key == KeyOf(x.request) && Begun(ops, x.request)
  {
    hide KeyOf, InvalidatedAll, Stored, Generations;
    var before, op := ops[..|ops| - 1], ops[|ops| - 1];
    if op.Begin? && op.id == id {
      assert ops[|ops| - 1].request == Run(ops).pending[id].request;
    } else {
      PendingIsBegun(before, id);
      var r := Run(before).pending[id].request;
      var n :| 0 <= n < |before| && before[n].Begin? && before[n].request == r;
      assert ops[n] == before[n];
    }
  }

  lemma {:induction false} EntryIsProduced(ops: seq<Operation>, key: Key)
    requires key in Run(ops).cache.entries
    ensures var e := Run(ops).cache.entries[key];
      key == KeyOf(e.writer) && Begun(ops, e.writer) && Produced(ops, e)
  {
    hide KeyOf, Produced, Begun;
    var before, op := ops[..|ops| - 1], ops[|ops| - 1];
    var w, e := Run(before), Run(ops).cache.entries[key];
    EntryBefore(w, op, key);
    if op.Finish? && op.id in w.pending && e == EntryOf(w.pending[op.id], op.value) && key == w.pending[op.id].key {
      PendingIsBegun(before, op.id);
      FinishProduces(ops, e);
      BegunEarlier(ops, e.writer);
    } else {
      EntryIsProduced(before, key);
      ProducedEarlier(ops, e);
      BegunEarlier(ops, e.writer);
    }
  }

  function EntryOf(x: Ticket, value: string): Entry { Entry(value, x.tags, x.snapshot, x.at, x.request) }

  lemma FinishProduces(ops: seq<Operation>, e: Entry)
    requires ops != [] && FinishedAt(ops, |ops| - 1, e)
    ensures Produced(ops, e)
  {
  }

  lemma BegunEarlier(ops: seq<Operation>, r: Request)
    requires ops != [] && Begun(ops[..|ops| - 1], r)
    ensures Begun(ops, r)
  {
    var before := ops[..|ops| - 1];
    var n :| 0 <= n < |before| && before[n].Begin? && before[n].request == r;
    assert ops[n] == before[n];
  }

  /** An entry was there before, or is what a request has just left. */
  lemma EntryBefore(w: World, op: Operation, key: Key)
    requires key in Do(w, op).cache.entries
    ensures var e := Do(w, op).cache.entries[key];
      || (key in w.cache.entries && w.cache.entries[key] == e)
      || (op.Finish? && op.id in w.pending && key == w.pending[op.id].key && e == EntryOf(w.pending[op.id], op.value))
  {
    hide KeyOf, AddToIndexes;
    if op.Invalidate? { InvalidatedAllIs(w.cache, op.tags); }
  }

  /** Every route has one decorator; namespaces, routes and user ids have no colon. */
  ghost predicate Wired(decorators: string -> CacheKeys.Options, r: Request) {
    && r.options == decorators(r.context.route)
    && ':' !in r.options.namespace && CacheKeys.ColonFree(r.context)
  }

  /**
   What a hit returns was produced for a request of the same route and user, with the same declared
   parameters and the same query text, whatever operations went before.
   */
  lemma HitIsForSameRequest(decorators: string -> CacheKeys.Options, ops: seq<Operation>, r: Request)
    requires forall n :: 0 <= n < |ops| && ops[n].Begin? ==> Wired(decorators, ops[n].request)
    requires Wired(decorators, r) && KeyOf(r) in Run(ops).cache.entries
    ensures var e := Run(ops).cache.entries[KeyOf(r)];
      && Produced(ops, e) && e.writer.options == r.options && e.writer.context.route == r.context.route
      && CacheKeys.SameDimensions(r.options, e.writer.context, r.context)
  {
    EntryIsProduced(ops, KeyOf(r));
    var e := Run(ops).cache.entries[KeyOf(r)];
    hide Run, Produced;
    var n :| 0 <= n < |ops| && ops[n].Begin? && ops[n].request == e.writer;
    assert Wired(decorators, e.writer);
    CacheKeys.SharedKeyIsOneRoute(e.writer.options, e.writer.context, r.options, r.context);
    CacheKeys.KeyIsItsDimensions(r.options, e.writer.context, r.context);
  }
}
