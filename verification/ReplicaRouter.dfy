/**
 Read/write splitting: reads go round the usable replicas, everything else to the primary.
 */
module ReplicaRouter {
  import opened Text

  const MAX_REPLICA_LAG_MS := 2000

  datatype Health = Health(healthy: bool, lagMs: Option<int>, unhealthySince: Option<nat>, lastCheckedAt: Option<nat>)

  predicate IsUsable(h: Health) { h.healthy && (h.lagMs == None || h.lagMs.value <= MAX_REPLICA_LAG_MS) }

  /** The usable replicas among the first `n`, by number, in order. */
  function UsableAmong(health: seq<Health>, n: nat): (r: seq<nat>)
    requires n <= |health|
    ensures forall i: nat :: i in r <==> i < n && IsUsable(health[i])
    ensures forall a, b :: 0 <= a < b < |r| ==> r[a] < r[b]
  {
    if n == 0 then [] else
      var before := UsableAmong(health, n - 1);
      if IsUsable(health[n - 1]) then
        var r := before + [n - 1];
        assert forall a :: 0 <= a < |before| ==> before[a] in before;
        r
      else before
  }

  function HealthyReplicas(health: seq<Health>): seq<nat> { UsableAmong(health, |health|) }

  /** What a probe found: the server's lag if it reported one, or an error. */
  datatype ProbeResult = Reached(lagMs: Option<int>) | Unreachable

  datatype Target = Primary | Replica(number: nat)

  datatype Operation = Select | Insert | Update | Delete | Transaction | Property

  class Router {
    var replicaHealth: seq<Health>
    var replicaIndex: nat

    constructor (replicas: nat)
      ensures |replicaHealth| == replicas && replicaIndex == 0
      ensures forall i :: 0 <= i < replicas ==> replicaHealth[i] == Health(true, None, None, None)
    {
      replicaHealth := seq(replicas, _ => Health(true, None, None, None));
      replicaIndex := 0;
    }

    method ProbeReplicaHealth(index: nat, result: ProbeResult, now: nat)
      modifies this`replicaHealth
      ensures index >= |old(replicaHealth)| ==> replicaHealth == old(replicaHealth)
      ensures index < |old(replicaHealth)| ==>
        replicaHealth == old(replicaHealth)[index :=
          match result
          case Reached(lag) => Health(true, lag, None, Some(now))
          case Unreachable => Health(false, None, Some(now), Some(now))]
    {
      if index >= |replicaHealth| { return; }
      var entry := replicaHealth[index].(lastCheckedAt := Some(now));
      match result {
        case Reached(lag) =>
          entry := entry.(healthy := true, unhealthySince := None, lagMs := lag);
        case Unreachable =>
          entry := entry.(healthy := false, unhealthySince := Some(now), lagMs := None);
      }
      replicaHealth := replicaHealth[index := entry];
    }

    /** A pick is recorded as usable, and there is none exactly when no replica is. */
    method GetNextReplica() returns (pick: Option<nat>)
      modifies this`replicaIndex
      ensures pick.None? ==> forall i :: 0 <= i < |replicaHealth| ==>
        var h := replicaHealth[i]; !h.healthy || (h.lagMs.Some? && h.lagMs.value > 2000)
      ensures pick.Some? ==> pick.value < |replicaHealth| && IsUsable(replicaHealth[pick.value])
      ensures pick.Some? ==>
        var h := replicaHealth[pick.value]; h.healthy && (h.lagMs.Some? ==> h.lagMs.value <= 2000)
      ensures var usable := HealthyReplicas(replicaHealth);
        if usable == [] then pick == None && replicaIndex == old(replicaIndex)
        else pick == Some(Picks(usable, old(replicaIndex), 1)[0]) && replicaIndex == IndexAfter(usable, old(replicaIndex), 1)
    {
      var healthy := HealthyReplicas(replicaHealth);
      if |healthy| == 0 {
        forall i | 0 <= i < |replicaHealth|
          ensures !IsUsable(replicaHealth[i])
        {
          assert i !in healthy;
        }
        return None;
      }
      assert healthy[replicaIndex % |healthy|] in healthy;
      pick := Some(healthy[replicaIndex % |healthy|]);
      replicaIndex := (replicaIndex + 1) % |healthy|;
    }

    method Route(op: Operation) returns (target: Target)
      modifies this`replicaIndex
      ensures op != Select ==> target == Primary && replicaIndex == old(replicaIndex)
      ensures target.Replica? ==> target.number < |replicaHealth| && IsUsable(replicaHealth[target.number])
      ensures op == Select && target == Primary ==> forall i :: 0 <= i < |replicaHealth| ==>
        var h := replicaHealth[i]; !h.healthy || (h.lagMs.Some? && h.lagMs.value > 2000)
    {
      if op != Select { return Primary; }
      var pick := GetNextReplica();
      return match pick case Some(number) => Replica(number) case None => Primary;
    }

    method CloseDatabase()
      modifies this
      ensures replicaHealth == [] && replicaIndex == 0
    {
      replicaHealth := [];
      replicaIndex := 0;
    }
  }

  // ----- consecutive picks -----

  /** `count` consecutive picks from a list of usable replicas that does not change. */
  function Picks(usable: seq<nat>, index: nat, count: nat): (r: seq<nat>)
    requires usable != []
    ensures |r| == count
    decreases count
  {
    if count == 0 then []
    else [usable[index % |usable|]] + Picks(usable, (index + 1) % |usable|, count - 1)
  }

  function IndexAfter(usable: seq<nat>, index: nat, count: nat): nat
    requires usable != []
    decreases count
  {
    if count == 0 then index else IndexAfter(usable, (index + 1) % |usable|, count - 1)
  }

  lemma MultipleIsFar(k: int, n: int)
    requires n >= 0
    ensures k >= 1 ==> k * n >= n
    ensures k <= -1 ==> k * n <= -n
  {
    assert k >= 1 ==> k * n == n + (k - 1) * n;
    assert k <= -1 ==> k * n == -n + (k + 1) * n;
  }

  lemma ModIs(x: int, q: int, r: int, n: nat)
    requires 0 <= r < n && x == q * n + r
    ensures x % n == r
  {
    var k := q - x / n;
    assert x == x / n * n + x % n;
    assert k * n == x % n - r;
    MultipleIsFar(k, n);
    assert k == 0;
  }

  lemma {:induction false} ModOfSum(a: nat, b: nat, n: nat)
    requires n > 0
    ensures (a % n + b) % n == (a + b) % n
  {
    var q, r := a / n, a % n;
    var q2, r2 := (r + b) / n, (r + b) % n;
    assert a == q * n + r && r + b == q2 * n + r2;
    assert (q + q2) * n == q * n + q2 * n;
    ModIs(a + b, q + q2, r2, n);
  }

  lemma {:induction false} PickAt(usable: seq<nat>, index: nat, count: nat, j: nat)
    requires usable != [] && j < count
    ensures Picks(usable, index, count)[j] == usable[(index + j) % |usable|]
    decreases count
  {
    if j > 0 {
      var next := (index + 1) % |usable|;
      PickAt(usable, next, count - 1, j - 1);
      ModOfSum(index + 1, j - 1, |usable|);
    }
  }

  /** Whatever the starting index, one round of picks is the list rotated. */
  lemma RoundIsRotation(usable: seq<nat>, index: nat)
    requires usable != []
    ensures var start := index % |usable|;
      Picks(usable, index, |usable|) == usable[start..] + usable[..start]
  {
    var n := |usable|;
    var start := index % n;
    var rotated := usable[start..] + usable[..start];
    forall j | 0 <= j < n
      ensures Picks(usable, index, n)[j] == rotated[j]
    {
      PickAt(usable, index, n, j);
      ModOfSum(index, j, n);
      WrapOnce(start + j, n);
    }
  }

  lemma WrapOnce(x: nat, n: nat)
    requires n > 0 && x < 2 * n
    ensures x % n == if x < n then x else x - n
  {
  }

  /** While the usable replicas stay the same, as many picks as there are use each exactly once. */
  lemma EachReplicaOnceARound(health: seq<Health>, index: nat, i: nat)
    requires HealthyReplicas(health) != []
    ensures multiset(Picks(HealthyReplicas(health), index, |HealthyReplicas(health)|))[i]
         == if i < |health| && IsUsable(health[i]) then 1 else 0
  {
    var usable := HealthyReplicas(health);
    var start := index % |usable|;
    RoundIsRotation(usable, index);
    DistinctOnce(usable, i);
    hide Picks;
    assert usable == usable[..start] + usable[start..];
  }

  lemma {:induction false} DistinctOnce(s: seq<nat>, i: nat)
    requires forall a, b :: 0 <= a < b < |s| ==> s[a] < s[b]
    ensures multiset(s)[i] == if i in s then 1 else 0
  {
    if s != [] {
      var last := |s| - 1;
      assert s == s[..last] + [s[last]];
      DistinctOnce(s[..last], i);
    }
  }
}
