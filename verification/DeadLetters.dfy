/**
 Events that fail validation are parked in a dead-letter queue and can be replayed. The queue is a
 keyed store with an index of ids.
 */
module DeadLetters {
  import opened Text
  import opened Sorting

  datatype Parked = Parked(id: string, eventName: string, payload: string, error: string,
                           timestamp: int, retryCount: nat)

  // ----- the queue -----

  predicate NewestFirst(events: seq<Parked>) {
    forall i, j :: 0 <= i < j < |events| ==> events[i].timestamp >= events[j].timestamp
  }

  lemma InPrefix(events: seq<Parked>, limit: nat, i: nat)
    requires limit <= |events| && i < |events|
    ensures i < limit ==> events[i] in events[..limit]
  {
    if i < limit { assert events[..limit][i] == events[i]; }
  }

  predicate NotOlder(a: Parked, b: Parked) { a.timestamp >= b.timestamp }

  function SortByTime(events: seq<Parked>): seq<Parked> { SortBy(events, NotOlder) }

  lemma SortByTimeSorts(events: seq<Parked>)
    ensures NewestFirst(SortByTime(events)) && multiset(SortByTime(events)) == multiset(events)
    ensures forall x :: x in SortByTime(events) <==> x in events
  {
    SortBySorts(events, NotOlder);
    SortByKeeps(events, NotOlder);
    hide SortBy;
    var sorted := SortByTime(events);
    forall i, j | 0 <= i < j < |sorted|
      ensures sorted[i].timestamp >= sorted[j].timestamp
    {
      assert NotOlder(sorted[i], sorted[j]);
    }
  }

  function CountOf(events: seq<Parked>, eventName: string): nat {
    if events == [] then 0
    else CountOf(events[..|events| - 1], eventName) + if events[|events| - 1].eventName == eventName then 1 else 0
  }

  class DLQService {
    var store: map<string, Parked>
    var index: set<string>

    /** Every stored entry is under its id and indexed; the index may hold ids whose entries expired. */
    ghost predicate Valid()
      reads this
    {
      store.Keys <= index && forall id :: id in store ==> store[id].id == id
    }

    constructor ()
      ensures Valid() && store == map[] && index == {}
    {
      store, index := map[], {};
    }

    /** `id` is the fresh id the source generates. */
    method Add(id: string, eventName: string, payload: string, error: string, timestamp: int, retryCount: nat)
      requires Valid() && id !in index
      modifies this
      ensures Valid()
      ensures store == old(store)[id := Parked(id, eventName, payload, error, timestamp, retryCount)]
      ensures index == old(index) + {id}
    {
      store := store[id := Parked(id, eventName, payload, error, timestamp, retryCount)];
      index := index + {id};
    }

    /** The one live entry of that id; there is none for an id that only the index still lists. */
    method Get(id: string) returns (event: Option<Parked>)
      requires Valid()
      ensures forall e :: event == Some(e) <==> e in Live(store) && e.id == id
      ensures event.Some? ==> id in index
    {
      return if id in store then Some(store[id]) else None;
    }

    method Retry(id: string)
      requires Valid()
      modifies this
      ensures Valid()
      ensures id !in old(store) ==> store == old(store) && index == old(index)
      ensures id in old(store) ==>
        store == old(store)[id := old(store)[id].(retryCount := old(store)[id].retryCount + 1)] && index == old(index)
    {
      if id !in store { return; }
      store := store[id := store[id].(retryCount := store[id].retryCount + 1)];
      assert id in index;
      index := index + {id};
    }

    method Delete(id: string)
      requires Valid()
      modifies this
      ensures Valid()
      ensures store == old(store) - {id} && index == old(index) - {id}
    {
      store := store - {id};
      index := index - {id};
    }

    /** An entry outlives its time to live; the index does not notice. */
    method Expire(id: string)
      requires Valid()
      modifies this
      ensures Valid() && store == old(store) - {id} && index == old(index)
    {
      store := store - {id};
    }

    /** Exactly the live entries, each once, newest first, whatever the index still lists. */
    method List() returns (events: seq<Parked>)
      requires Valid()
      ensures forall e :: e in events <==> e.id in store && store[e.id] == e
      ensures forall e :: e in events ==> multiset(events)[e] == 1
      ensures NewestFirst(events)
    {
      var found: seq<Parked> := [];
      var ids := index;
      while ids != {}
        invariant ids <= index
        invariant forall e :: e in found <==> e.id in index - ids && e.id in store && store[e.id] == e
        invariant forall e :: e in found ==> multiset(found)[e] == 1
        decreases |ids|
      {
        var id :| id in ids;
        var event := Get(id);
        if event.Some? {
          assert event.value !in found;
          found := found + [event.value];
        }
        ids := ids - {id};
      }
      SortByTimeSorts(found);
      return SortByTime(found);
    }

    method Clear()
      requires Valid()
      modifies this
      ensures Valid() && store == map[] && index == {}
    {
      var ids := index;
      while ids != {}
        invariant ids <= index == old(index) && Valid()
        invariant store.Keys <= ids
        decreases |ids|
      {
        var id :| id in ids;
        store := store - {id};
        ids := ids - {id};
      }
      index := {};
    }

    method GetStats() returns (total: nat, byEvent: map<string, nat>)
      requires Valid()
      ensures total == |Live(store)|
      ensures forall name :: (if name in byEvent then byEvent[name] else 0) == |Named(Live(store), name)|
    {
      var events := List();
      total := |events|;
      byEvent := CountByEvent(events);
      ghost var live := Live(store);
      assert forall e :: e in events <==> e in live;
      hide *;
      DistinctCount(events, live);
      forall name
        ensures CountOf(events, name) == |Named(live, name)|
      {
        NamedCount(events, live, name);
      }
    }

    static method CountByEvent(events: seq<Parked>) returns (byEvent: map<string, nat>)
      ensures forall name :: (if name in byEvent then byEvent[name] else 0) == CountOf(events, name)
    {
      byEvent := map[];
      for i := 0 to |events|
        invariant forall name :: (if name in byEvent then byEvent[name] else 0) == CountOf(events[..i], name)
      {
        assert events[..i + 1][..i] == events[..i];
        var name := events[i].eventName;
        byEvent := byEvent[name := (if name in byEvent then byEvent[name] else 0) + 1];
      }
      assert events[..|events|] == events;
    }
  }

  /** The entries that have not expired. */
  ghost function Live(store: map<string, Parked>): set<Parked> { set id | id in store :: store[id] }

  ghost function Named(events: set<Parked>, name: string): set<Parked> { set e | e in events && e.eventName == name }

  lemma LastOnce(events: seq<Parked>)
    requires events != [] && forall e :: e in events ==> multiset(events)[e] == 1
    ensures var before, last := events[..|events| - 1], events[|events| - 1];
      && last !in before && (forall e :: e in before ==> multiset(before)[e] == 1)
      && forall e :: e in events <==> e in before || e == last
  {
    var before, last := events[..|events| - 1], events[|events| - 1];
    assert events == before + [last];
    assert multiset(events) == multiset(before) + multiset{last};
    assert multiset(events)[last] == 1;
    forall e | e in before
      ensures multiset(before)[e] == 1
    {
      assert e in events && multiset(before)[e] > 0;
    }
  }

  lemma {:induction false} DistinctCount(events: seq<Parked>, s: set<Parked>)
    requires forall e :: e in events ==> multiset(events)[e] == 1
    requires forall e :: e in events <==> e in s
    ensures |events| == |s|
  {
    if events != [] {
      LastOnce(events);
      DistinctCount(events[..|events| - 1], s - {events[|events| - 1]});
    } else {
      assert s == {};
    }
  }

  lemma {:induction false} NamedCount(events: seq<Parked>, s: set<Parked>, name: string)
    requires forall e :: e in events ==> multiset(events)[e] == 1
    requires forall e :: e in events <==> e in s
    ensures CountOf(events, name) == |Named(s, name)|
  {
    if events != [] {
      var last := events[|events| - 1];
      LastOnce(events);
      NamedCount(events[..|events| - 1], s - {last}, name);
      if last.eventName == name {
        assert Named(s, name) == Named(s - {last}, name) + {last};
      } else {
        assert Named(s, name) == Named(s - {last}, name);
      }
    } else {
      assert Named(s, name) == {};
    }
  }

  // ----- the registry -----

  class EventSchemaRegistry {
    var schemas: map<string, string -> bool>
    var defaultVersions: map<string, string>
    const dlqService: DLQService?

    constructor (dlqService: DLQService?)
      ensures this.dlqService == dlqService && schemas == map[] && defaultVersions == map[]
      // what has no schema is not valid
      ensures forall eventName, payload, version :: !IsValid(eventName, payload, version)
    {
      this.dlqService := dlqService;
      schemas, defaultVersions := map[], map[];
    }

    function KeyOf(eventName: string, version: string): string { eventName + [':'] + version }

    function ResolvedVersion(eventName: string, version: Option<string>): string
      reads this
    {
      if version.Some? then version.value
      else if eventName in defaultVersions then defaultVersions[eventName]
      else "v1"
    }

    predicate IsValid(eventName: string, payload: string, version: Option<string>)
      reads this
    {
      var key := KeyOf(eventName, ResolvedVersion(eventName, version));
      key in schemas && schemas[key](payload)
    }

    method RegisterSchema(eventName: string, schema: string -> bool, version: string)
      modifies this
      ensures schemas == old(schemas)[KeyOf(eventName, version) := schema]
      ensures defaultVersions == old(defaultVersions)[eventName := version]
      // the schema registered last is the one an event is validated against
      ensures forall payload :: IsValid(eventName, payload, None) == schema(payload)
      ensures forall payload :: IsValid(eventName, payload, Some(version)) == schema(payload)
      // and no other schema is touched
      ensures forall name, payload, other :: KeyOf(name, other) != KeyOf(eventName, version) ==>
        IsValid(name, payload, Some(other)) == old(IsValid(name, payload, Some(other)))
      ensures forall name, payload ::
        name != eventName && KeyOf(name, old(ResolvedVersion(name, None))) != KeyOf(eventName, version) ==>
          IsValid(name, payload, None) == old(IsValid(name, payload, None))
    {
      schemas := schemas[KeyOf(eventName, version) := schema];
      defaultVersions := defaultVersions[eventName := version];
    }
  }

  // ----- emitting and replaying -----

  datatype Delivery = Delivery(eventName: string, payload: string)

  function AsDelivery(p: Parked): Delivery { Delivery(p.eventName, p.payload) }

  ghost function SomeId(store: map<string, Parked>): (id: string)
    requires store != map[]
    ensures id in store
  {
    var id :| id in store;
    id
  }

  /** The events that are parked, as often as they are parked. */
  ghost function ParkedEvents(store: map<string, Parked>): multiset<Delivery> {
    if store == map[] then multiset{}
    else ParkedEvents(store - {SomeId(store)}) + multiset{AsDelivery(store[SomeId(store)])}
  }

  lemma ParkedEventsUnfold(store: map<string, Parked>)
    requires store != map[]
    ensures ParkedEvents(store) == ParkedEvents(store - {SomeId(store)}) + multiset{AsDelivery(store[SomeId(store)])}
  {
  }

  lemma {:induction false} ParkedEventsWithout(store: map<string, Parked>, id: string)
    requires id in store
    ensures ParkedEvents(store) == ParkedEvents(store - {id}) + multiset{AsDelivery(store[id])}
    decreases |store|
  {
    hide ParkedEvents, AsDelivery, SomeId;
    var k := SomeId(store);
    ParkedEventsUnfold(store);
    if k != id {
      assert |store - {k}| < |store| && |store - {id}| < |store|;
      ParkedEventsWithout(store - {k}, id);
      ParkedEventsWithout(store - {id}, k);
      assert store - {k} - {id} == store - {id} - {k};
      assert (store - {k})[id] == store[id] && (store - {id})[k] == store[k];
    }
  }

  lemma ParkedEventsWith(store: map<string, Parked>, id: string, p: Parked)
    requires id !in store
    ensures ParkedEvents(store[id := p]) == ParkedEvents(store) + multiset{AsDelivery(p)}
  {
    ParkedEventsWithout(store[id := p], id);
    assert store[id := p] - {id} == store;
  }

  /** One more attempt leaves an event parked. */
  lemma StillParked(store: map<string, Parked>, id: string)
    requires id in store
    ensures ParkedEvents(store[id := store[id].(retryCount := store[id].retryCount + 1)]) == ParkedEvents(store)
  {
    hide ParkedEvents;
    var store' := store[id := store[id].(retryCount := store[id].retryCount + 1)];
    ParkedEventsWithout(store, id);
    ParkedEventsWithout(store', id);
    assert store' - {id} == store - {id};
  }

  datatype ReplayOutcome = NotFound | StillInvalid | Delivered

  class EventValidatorService {
    const registry: EventSchemaRegistry
    const dlqService: DLQService
    var delivered: seq<Delivery>
    /** Every event ever emitted. */
    ghost var emitted: multiset<Delivery>

    ghost predicate Valid()
      reads this, registry, dlqService
    {
      dlqService.Valid() && (registry.dlqService != null ==> registry.dlqService == dlqService)
    }

    /**
     Every emitted event is either delivered or parked, exactly once, and the index lists exactly what
     is parked. Emitting and replaying keep it; an expired entry or a missing queue breaks it.
     */
    ghost predicate Conserved()
      reads this, registry, dlqService
    {
      && emitted == multiset(delivered) + ParkedEvents(dlqService.store)
      && dlqService.index == dlqService.store.Keys
    }

    constructor (registry: EventSchemaRegistry, dlqService: DLQService)
      requires dlqService.Valid() && (registry.dlqService != null ==> registry.dlqService == dlqService)
      ensures this.registry == registry && this.dlqService == dlqService && Valid() && delivered == []
      ensures dlqService.store == map[] && dlqService.index == {} ==> Conserved()
    {
      this.registry, this.dlqService, delivered, emitted := registry, dlqService, [], multiset{};
    }

    /** Delivered, or parked under `id`; an invalid event is gone when the registry has no queue. */
    method Emit(eventName: string, payload: string, id: string, error: string, now: int)
      requires Valid() && id !in dlqService.index
      modifies this, dlqService
      ensures Valid() && emitted == old(emitted) + multiset{Delivery(eventName, payload)}
      ensures old(Conserved()) ==> (Conserved() <==> registry.dlqService != null || registry.IsValid(eventName, payload, None))
      ensures registry.IsValid(eventName, payload, None) ==>
        delivered == old(delivered) + [Delivery(eventName, payload)] && dlqService.store == old(dlqService.store)
        && dlqService.index == old(dlqService.index)
      ensures !registry.IsValid(eventName, payload, None) ==>
        delivered == old(delivered)
        && dlqService.store == (if registry.dlqService == null then old(dlqService.store)
                                else old(dlqService.store)[id := Parked(id, eventName, payload, error, now, 0)])
        && dlqService.index == (if registry.dlqService == null then old(dlqService.index) else old(dlqService.index) + {id})
    {
      emitted := emitted + multiset{Delivery(eventName, payload)};
      ParkedEventsWith(dlqService.store, id, Parked(id, eventName, payload, error, now, 0));
      if registry.IsValid(eventName, payload, None) {
        delivered := delivered + [Delivery(eventName, payload)];
      } else if registry.dlqService != null {
        registry.dlqService.Add(id, eventName, payload, error, now, 0);
      }
    }

    /** Moves a parked event to the delivered ones, or counts one more attempt. */
    method ReplayDeadLettered(id: string) returns (outcome: ReplayOutcome)
      requires Valid()
      modifies this, dlqService
      ensures Valid() && emitted == old(emitted)
      ensures old(Conserved()) ==> Conserved()
      ensures outcome == if id !in old(dlqService.store) then NotFound
                         else if registry.IsValid(old(dlqService.store)[id].eventName, old(dlqService.store)[id].payload, None) then Delivered
                         else StillInvalid
      ensures outcome == NotFound ==>
        delivered == old(delivered) && dlqService.store == old(dlqService.store) && dlqService.index == old(dlqService.index)
      ensures outcome == StillInvalid ==>
        var parked := old(dlqService.store)[id];
        delivered == old(delivered) && dlqService.index == old(dlqService.index)
        && dlqService.store == old(dlqService.store)[id := parked.(retryCount := parked.retryCount + 1)]
      ensures outcome == Delivered ==>
        var parked := old(dlqService.store)[id];
        delivered == old(delivered) + [Delivery(parked.eventName, parked.payload)]
        && dlqService.store == old(dlqService.store) - {id} && dlqService.index == old(dlqService.index) - {id}
    {
      hide ParkedEvents;
      var parked := dlqService.Get(id);
      if parked == None { return NotFound; }
      var p := parked.value;
      if !registry.IsValid(p.eventName, p.payload, None) {
        StillParked(dlqService.store, id);
        dlqService.Retry(id);
        return StillInvalid;
      }
      ParkedEventsWithout(dlqService.store, id);
      delivered := delivered + [Delivery(p.eventName, p.payload)];
      dlqService.Delete(id);
      return Delivered;
    }

    /** The newest parked events, up to a limit between 1 and 500. */
    method ListDeadLettered(limit: int) returns (events: seq<Parked>)
      requires Valid()
      ensures (limit < 1 || limit > 500) ==> events == []
      ensures 1 <= limit <= 500 ==> NewestFirst(events)
      ensures 1 <= limit <= 500 ==> |events| == if |Live(dlqService.store)| < limit then |Live(dlqService.store)| else limit
      ensures forall e :: e in events ==> e.id in dlqService.store && dlqService.store[e.id] == e
      // what the limit cuts off is older than everything listed
      ensures 1 <= limit <= 500 ==> forall id, e :: id in dlqService.store && dlqService.store[id] !in events && e in events ==>
        e.timestamp >= dlqService.store[id].timestamp
    {
      if limit < 1 || limit > 500 { return []; }
      var all := dlqService.List();
      assert forall e :: e in all <==> e in Live(dlqService.store);
      DistinctCount(all, Live(dlqService.store));
      if |all| <= limit { return all; }
      events := all[..limit];
      forall id, e | id in dlqService.store && dlqService.store[id] !in events && e in events
        ensures e.timestamp >= dlqService.store[id].timestamp
      {
        assert dlqService.store[id] in all;
        var i :| 0 <= i < |all| && all[i] == dlqService.store[id];
        var j :| 0 <= j < |events| && events[j] == e;
        InPrefix(all, limit, i);
        assert all[j].timestamp >= all[i].timestamp;
      }
    }
  }
}
