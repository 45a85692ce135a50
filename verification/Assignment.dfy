/** Shard assignment as a function of the healthy node IDs.

The metadata FSM rewrites its maps incrementally on every command. `Canonical` is what those
rewrites must always amount to: primaries dealt round robin over the sorted healthy IDs, the
replica on the first healthy node that is not the primary.
*/
module Assignment {
  import opened Ordering
  import opened Entries

  datatype NodeStatus = Healthy | Unhealthy
  datatype NodeRecord = NodeRecord(id: string, address: string, shards: seq<nat>, status: NodeStatus, lastSeen: int)
  datatype ShardRecord = ShardRecord(shardId: nat, primary: string, replica: string)
  datatype ClusterState = ClusterState(nodes: map<string, NodeRecord>, shards: map<nat, ShardRecord>)

  type Nodes = map<string, NodeRecord>

  function HealthyIds(nodes: Nodes): set<string> {
    set id | id in nodes && nodes[id].status == Healthy
  }

  // ------------------------------------------------------------- sorted IDs

  ghost predicate IsSorted(r: seq<string>, s: set<string>) {
    Ascending(r, StringLess) && ToSet(r) == s
  }

  lemma {:induction false} SortedExists(s: set<string>)
    ensures exists r :: IsSorted(r, s)
  {
    if s == {} {
      assert IsSorted([], s);
    } else {
      var x :| x in s;
      SortedExists(s - {x});
      var t :| IsSorted(t, s - {x});
      assert forall y :: y in t ==> y in ToSet(t);
      var r := InsertId(x, t);
      assert IsSorted(r, s);
    }
  }

  lemma {:induction false} InsertId(x: string, t: seq<string>) returns (r: seq<string>)
    requires Ascending(t, StringLess) && x !in t
    ensures Ascending(r, StringLess) && ToSet(r) == ToSet(t) + {x}
  {
    StringLessWeak();
    if t == [] || StringLess(x, t[0]) {
      r := [x] + t;
    } else {
      StringLessTotal(x, t[0]);
      var u := InsertId(x, t[1..]);
      assert ToSet(t) == {t[0]} + ToSet(t[1..]);
      assert forall i :: 0 <= i < |u| ==> u[i] in ToSet(u);
      assert forall y :: y in t[1..] ==> StringLess(t[0], y);
      r := [t[0]] + u;
      assert ToSet(r) == {t[0]} + ToSet(u);
    }
  }

  /** The IDs in ascending order. */
  ghost function Sorted(s: set<string>): (r: seq<string>)
    ensures Ascending(r, StringLess) && ToSet(r) == s
  {
    SortedExists(s);
    var r :| IsSorted(r, s);
    r
  }

  lemma SortedUnique(r: seq<string>)
    requires Ascending(r, StringLess)
    ensures Sorted(ToSet(r)) == r
  {
    StringLessWeak();
    AscendingUnique(r, Sorted(ToSet(r)), StringLess);
  }

  lemma SortedCount(s: set<string>)
    ensures |Sorted(s)| == |s| && Distinct(Sorted(s))
  {
    StringLessWeak();
    AscendingDistinct(Sorted(s), StringLess);
    DistinctCount(Sorted(s));
  }

  // ------------------------------------------------------------- assignment

  function Primary(h: seq<string>, shard: nat): string {
    if h == [] then "" else h[shard % |h|]
  }

  function Replica(h: seq<string>, primary: string): string {
    if h == [] then "" else if h[0] != primary then h[0] else Replica(h[1..], primary)
  }

  function Assigned(h: seq<string>, shard: nat): ShardRecord {
    ShardRecord(shard, Primary(h, shard), Replica(h, Primary(h, shard)))
  }

  /** The shards below `n` whose primary is `id`, ascending. */
  function Owned(h: seq<string>, n: nat, id: string): seq<nat> {
    if n == 0 then []
    else Owned(h, n - 1, id) + if h != [] && h[(n - 1) % |h|] == id then [n - 1] else []
  }

  function ShardMap(h: seq<string>, n: nat): map<nat, ShardRecord> {
    map i | 0 <= i < n :: Assigned(h, i)
  }

  function WithOwned(nodes: Nodes, h: seq<string>, n: nat): Nodes {
    map id | id in nodes :: nodes[id].(shards := Owned(h, n, id))
  }

  /** The cluster state that the node records and the shard count determine. */
  ghost function Canonical(nodes: Nodes, n: nat): ClusterState {
    var h := Sorted(HealthyIds(nodes));
    ClusterState(WithOwned(nodes, h, n), ShardMap(h, n))
  }

  ghost predicate IsCanonical(s: ClusterState, n: nat) {
    && s == Canonical(s.nodes, n)
    && forall id :: id in s.nodes ==> s.nodes[id].id == id
  }

  lemma CanonicalStable(nodes: Nodes, n: nat)
    requires forall id :: id in nodes ==> nodes[id].id == id
    ensures IsCanonical(Canonical(nodes, n), n)
  {
    var s := Canonical(nodes, n);
    assert HealthyIds(s.nodes) == HealthyIds(nodes);
  }

  // -------------------------------------------------------------- commands

  datatype Command =
    | RegisterNode(id: string, address: string, now: int)
    | UpdateHeartbeat(id: string, now: int)
    | MarkUnhealthy(id: string)
    | Malformed

  /** What a committed command does to the node records; the assignment follows. */
  function NextNodes(nodes: Nodes, cmd: Command): Nodes {
    match cmd
    case RegisterNode(id, address, now) =>
      nodes[id := NodeRecord(id, address, [], Healthy, now)]
    case UpdateHeartbeat(id, now) =>
      if id in nodes then nodes[id := nodes[id].(lastSeen := now)] else nodes
    case MarkUnhealthy(id) =>
      if id in nodes then nodes[id := nodes[id].(status := Unhealthy)] else nodes
    case Malformed => nodes
  }

  ghost function Next(s: ClusterState, cmd: Command, n: nat): ClusterState {
    Canonical(NextNodes(s.nodes, cmd), n)
  }

  /** NewFSM: all shards unowned. */
  function Initial(n: nat): ClusterState {
    ClusterState(map[], map i | 0 <= i < n :: ShardRecord(i, "", ""))
  }

  ghost function Replay(s: ClusterState, log: seq<Command>, n: nat): ClusterState {
    if log == [] then s else Next(Replay(s, log[..|log| - 1], n), log[|log| - 1], n)
  }

  lemma InitialCanonical(n: nat)
    ensures IsCanonical(Initial(n), n)
  {
    assert HealthyIds(map[]) == {};
    EmptySet(Sorted({}));
    assert WithOwned(map[], [], n) == map[];
  }

  // ------------------------------------------------------------- theorems

  lemma ReplayNext(s: ClusterState, log: seq<Command>, cmd: Command, n: nat)
    ensures Replay(s, log + [cmd], n) == Next(Replay(s, log, n), cmd, n)
  {
    assert (log + [cmd])[..|log|] == log;
  }

  lemma {:induction false} ReplayConcat(s: ClusterState, a: seq<Command>, b: seq<Command>, n: nat)
    ensures Replay(Replay(s, a, n), b, n) == Replay(s, a + b, n)
  {
    if b == [] {
      AppendNone(a);
    } else {
      var k := |b| - 1;
      ReplayConcat(s, a, b[..k], n);
      AppendLast(a, b);
      ReplayNext(s, a + b[..k], b[k], n);
    }
  }

  lemma {:induction false} OwnedExactly(h: seq<string>, n: nat, id: string)
    ensures Ascending(Owned(h, n, id), Below)
    ensures forall i: nat :: i in Owned(h, n, id) <==> i < n && h != [] && Primary(h, i) == id
  {
    if n > 0 {
      OwnedExactly(h, n - 1, id);
      var o := Owned(h, n - 1, id);
      assert forall j :: 0 <= j < |o| ==> o[j] in o;
    }
  }

  /** The node at rank r owns one shard of every full round, and one more if the last round reaches it. */
  lemma {:induction false} OwnedCount(h: seq<string>, n: nat, r: nat)
    requires Distinct(h) && r < |h|
    ensures |Owned(h, n, h[r])| == n / |h| + if r < n % |h| then 1 else 0
  {
    if n > 0 {
      OwnedCount(h, n - 1, r);
      RoundStep(n - 1, |h|);
      var m := (n - 1) % |h|;
      assert h[m] == h[r] <==> m == r;
    } else {
      ZeroRounds(|h|);
    }
  }

  lemma ZeroRounds(d: nat)
    requires d > 0
    ensures 0 / d == 0 && 0 % d == 0
  {
  }

  lemma RoundStep(n: nat, d: nat)
    requires d > 0
    ensures n % d + 1 < d ==> (n + 1) / d == n / d && (n + 1) % d == n % d + 1
    ensures n % d + 1 == d ==> (n + 1) / d == n / d + 1 && (n + 1) % d == 0
  {
    var q, r := n / d, n % d;
    assert n == d * q + r;
    if r + 1 < d {
      DivUnique(n + 1, d, q, r + 1);
    } else {
      assert n + 1 == d * (q + 1);
      DivUnique(n + 1, d, q + 1, 0);
    }
  }

  lemma DivUnique(n: nat, d: nat, q: nat, r: nat)
    requires d > 0 && r < d && n == d * q + r
    ensures n / d == q && n % d == r
  {
    var q', r' := n / d, n % d;
    assert n == d * q' + r';
    if q > q' {
      MulMonotone(d, q' + 1, q);
      assert false;
    } else if q < q' {
      MulMonotone(d, q + 1, q');
      assert false;
    }
  }

  lemma MulMonotone(d: nat, a: nat, b: nat)
    requires a <= b
    ensures d * a <= d * b && d * (a - 1) == d * a - d
  {
  }

  lemma {:induction false} ReplicaPicks(h: seq<string>, p: string)
    ensures (forall x :: x in h ==> x == p) ==> Replica(h, p) == ""
    ensures (exists x :: x in h && x != p) ==> Replica(h, p) in h && Replica(h, p) != p
  {
    if h != [] {
      ReplicaPicks(h[1..], p);
      assert h == [h[0]] + h[1..];
      assert forall x :: x in h <==> x == h[0] || x in h[1..];
      assert h[0] in h;
    }
  }

  /** The primary of shard i is the healthy node with i mod h smaller healthy IDs, the replica the one with the smallest
      healthy ID other than the primary; without enough healthy nodes the slot is empty. */
  ghost predicate ShardAssigned(r: ShardRecord, shard: nat, healthy: set<string>) {
    && r.shardId == shard
    && (if healthy == {} then r.primary == "" else r.primary in healthy && |SmallerIds(healthy, r.primary)| == shard % |healthy|)
    && (if |healthy| >= 2 then r.replica in healthy && r.replica != r.primary && SmallerIds(healthy, r.replica) <= {r.primary}
        else r.replica == "")
  }

  ghost function SmallerIds(ids: set<string>, id: string): set<string> {
    set x | x in ids && StringLess(x, id)
  }

  lemma SortedLess(s: set<string>, i: nat, k: nat)
    requires i < |Sorted(s)| && k < |Sorted(s)|
    ensures StringLess(Sorted(s)[i], Sorted(s)[k]) <==> i < k
  {
    StringLessWeak();
    SortedCount(s);
    assert i > k ==> StringLess(Sorted(s)[k], Sorted(s)[i]);
  }

  lemma SmallerCount(s: set<string>, k: nat)
    requires k < |Sorted(s)|
    ensures |SmallerIds(s, Sorted(s)[k])| == k
  {
    var h := Sorted(s);
    StringLessWeak();
    SortedCount(s);
    forall x ensures x in SmallerIds(s, h[k]) <==> x in ToSet(h[..k]) {
      if x in SmallerIds(s, h[k]) {
        assert x in ToSet(h);
        var i :| 0 <= i < |h| && h[i] == x;
        SortedLess(s, i, k);
        assert h[..k][i] == x;
      }
      if x in ToSet(h[..k]) {
        var i :| 0 <= i < k && h[..k][i] == x;
        assert StringLess(h[i], h[k]) && h[i] in ToSet(h);
      }
    }
    assert SmallerIds(s, h[k]) == ToSet(h[..k]) && Distinct(h[..k]);
    DistinctCount(h[..k]);
  }

  /** A node's shard list is sorted and holds exactly the shards whose primary it is. */
  ghost predicate NodeAssigned(r: NodeRecord, shards: map<nat, ShardRecord>, healthy: set<string>) {
    && Ascending(r.shards, Below)
    && (forall i: nat :: i in r.shards <==> i in shards && shards[i].primary == r.id && healthy != {})
    && (r.status == Unhealthy ==> r.shards == [])
  }

  /** The invariants of every reachable state. */
  ghost predicate WellAssigned(s: ClusterState, n: nat) {
    var healthy := set id | id in s.nodes && s.nodes[id].status == Healthy;
    && (forall i: nat :: i in s.shards <==> i < n)
    && (forall i :: i in s.shards ==> ShardAssigned(s.shards[i], i, healthy))
    && (forall id :: id in s.nodes ==> s.nodes[id].id == id && NodeAssigned(s.nodes[id], s.shards, healthy))
    && (forall a, b :: a in healthy && b in healthy ==> |s.nodes[a].shards| <= |s.nodes[b].shards| + 1)
  }

  lemma PrimaryHealthy(s: set<string>, i: nat)
    ensures s == {} ==> Primary(Sorted(s), i) == ""
    ensures s != {} ==> Primary(Sorted(s), i) in s && |SmallerIds(s, Primary(Sorted(s), i))| == i % |s|
  {
    SortedCount(s);
    var h := Sorted(s);
    if s == {} {
    } else {
      var x :| x in s;
      assert x in ToSet(h);
      assert h[i % |h|] in ToSet(h);
      SmallerCount(s, i % |h|);
    }
  }

  lemma {:induction false} ReplicaSmallest(h: seq<string>, p: string)
    requires Ascending(h, StringLess)
    ensures forall x :: x in h && x != p ==> !StringLess(x, Replica(h, p))
  {
    if h != [] {
      StringLessWeak();
      ReplicaSmallest(h[1..], p);
      forall x | x in h && x != p ensures !StringLess(x, Replica(h, p)) {
        var i :| 0 <= i < |h| && h[i] == x;
        if h[0] != p {
          assert i > 0 ==> StringLess(h[0], h[i]);
        } else {
          assert h[1..][i - 1] == x;
        }
      }
    }
  }

  lemma ReplicaHealthy(s: set<string>, p: string)
    requires s != {} ==> p in s
    ensures |s| >= 2 ==>
      Replica(Sorted(s), p) in s && Replica(Sorted(s), p) != p && SmallerIds(s, Replica(Sorted(s), p)) <= {p}
    ensures |s| < 2 ==> Replica(Sorted(s), p) == ""
  {
    var h := Sorted(s);
    ReplicaPicks(h, p);
    ReplicaSmallest(h, p);
    assert forall x :: x in h <==> x in ToSet(h);
    if |s| >= 2 {
      assert !(s <= {p}) by {
        if s <= {p} {
          CountWithin(s, {p});
          assert false;
        }
      }
    } else if s != {} {
      assert forall x :: x in s ==> x == p by {
        assert |s - {p}| == 0;
      }
    }
  }

  lemma Balanced(s: set<string>, n: nat, a: string, b: string)
    requires a in s && b in s
    ensures |Owned(Sorted(s), n, a)| <= |Owned(Sorted(s), n, b)| + 1
  {
    var h := Sorted(s);
    SortedCount(s);
    assert a in ToSet(h) && b in ToSet(h);
    var i :| 0 <= i < |h| && h[i] == a;
    var j :| 0 <= j < |h| && h[j] == b;
    OwnedCount(h, n, i);
    OwnedCount(h, n, j);
  }

  lemma CanonicalWellAssigned(s: ClusterState, n: nat)
    requires IsCanonical(s, n)
    ensures WellAssigned(s, n)
  {
    var healthy := HealthyIds(s.nodes);
    var h := Sorted(healthy);
    forall i | i in s.shards ensures ShardAssigned(s.shards[i], i, healthy) {
      PrimaryHealthy(healthy, i);
      ReplicaHealthy(healthy, Primary(h, i));
    }
    forall id | id in s.nodes ensures NodeAssigned(s.nodes[id], s.shards, healthy) {
      NodeCanonical(s, n, id);
    }
    forall a, b | a in healthy && b in healthy ensures |s.nodes[a].shards| <= |s.nodes[b].shards| + 1 {
      Balanced(healthy, n, a, b);
    }
  }

  lemma NodeCanonical(s: ClusterState, n: nat, id: string)
    requires IsCanonical(s, n) && id in s.nodes
    ensures NodeAssigned(s.nodes[id], s.shards, HealthyIds(s.nodes))
  {
    var healthy := HealthyIds(s.nodes);
    var h := Sorted(healthy);
    OwnedExactly(h, n, id);
    SortedCount(healthy);
    var o := s.nodes[id].shards;
    assert o == Owned(h, n, id);
    if s.nodes[id].status == Unhealthy && o != [] {
      assert o[0] in o;
      PrimaryHealthy(healthy, o[0]);
      assert false;
    }
  }
}
