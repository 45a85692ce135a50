/** The metadata state machine as it runs: maps rewritten in place by handlers and loops.

The loops visit map keys in no particular order. Every method is proved for all orders, so the
state after a command is the one `Assignment.Next` determines.
*/
module Metadata {
  import opened Ordering
  import opened Entries
  import opened Assignment
  import opened Membership

  datatype Error = NodeNotFound(id: string) | UnknownCommand | BadSnapshot

  /** Shard map with every primary taken from `h` and the replicas left alone. */
  ghost predicate PrimariesFrom(shards: map<nat, ShardRecord>, h: seq<string>, n: nat) {
    && (forall i: nat :: i in shards <==> i < n)
    && forall i :: i in shards ==> shards[i].shardId == i && shards[i].primary == Primary(h, i)
  }

  ghost predicate Numbered(shards: map<nat, ShardRecord>, n: nat) {
    && (forall i: nat :: i in shards <==> i < n)
    && forall i :: i in shards ==> shards[i].shardId == i
  }

  lemma RangeSorted(r: seq<nat>, n: nat)
    requires Ascending(r, Below) && forall i: nat :: i in r <==> i < n
    ensures |r| == n && forall i :: 0 <= i < n ==> r[i] == i
  {
    var range: seq<nat> := seq(n, i requires 0 <= i < n => i);
    assert forall i: nat :: i in range <==> i < n by {
      forall i: nat | i < n ensures i in range {
        assert range[i] == i;
      }
    }
    assert ToSet(r) == ToSet(range);
    AscendingUnique<nat>(r, range, Below);
  }

  /** Giving shard i to its node turns the lists for i shards into those for i + 1. */
  lemma DealStep(nodes: Nodes, h: seq<string>, i: nat)
    requires h != [] && h[i % |h|] in nodes
    ensures var id, m := h[i % |h|], WithOwned(nodes, h, i);
      m[id := m[id].(shards := m[id].shards + [i])] == WithOwned(nodes, h, i + 1)
  {
    var id, m, m' := h[i % |h|], WithOwned(nodes, h, i), WithOwned(nodes, h, i + 1);
    forall x | x in nodes ensures m'[x] == if x == id then m[x].(shards := m[x].shards + [i]) else m[x] {
      assert Owned(h, i + 1, x) == Owned(h, i, x) + if id == x then [i] else [];
    }
  }

  class FSM {
    var nodes: Nodes
    var shards: map<nat, ShardRecord>

    ghost function State(): ClusterState
      reads this
    {
      ClusterState(nodes, shards)
    }

    /** NewFSM: every shard unowned. */
    constructor (totalShards: nat)
      ensures State() == Initial(totalShards)
    {
      var s: map<nat, ShardRecord> := map[];
      for i := 0 to totalShards
        invariant s == map k | 0 <= k < i :: ShardRecord(k, "", "")
      {
        s := s[i := ShardRecord(i, "", "")];
      }
      nodes := map[];
      shards := s;
    }

    /** The healthy node IDs, collected in any order and sorted. */
    method SortedHealthy() returns (ids: seq<string>)
      ensures ids == Sorted(HealthyIds(nodes))
    {
      var found: seq<string> := [];
      var todo := nodes.Keys;
      while todo != {}
        invariant todo <= nodes.Keys && Distinct(found)
        invariant forall id :: id in found <==> id in nodes && id !in todo && nodes[id].status == Healthy
        decreases |todo|
      {
        var id :| id in todo;
        todo := todo - {id};
        if nodes[id].status == Healthy {
          found := found + [id];
        }
      }
      StringLessWeak();
      ids := Sort(found, StringLess);
      forall x, y | x in found && y in found && x != y ensures StringLess(x, y) || StringLess(y, x) {
        StringLessTotal(x, y);
      }
      SortedDistinct(found, ids, StringLess);
      assert ToSet(ids) == HealthyIds(nodes);
      SortedUnique(ids);
    }

    method SortedShards(ghost n: nat) returns (ids: seq<nat>)
      requires Numbered(shards, n)
      ensures |ids| == n && forall i :: 0 <= i < n ==> ids[i] == i
    {
      var found: seq<nat> := [];
      var todo := shards.Keys;
      while todo != {}
        invariant todo <= shards.Keys && Distinct(found)
        invariant forall id :: id in found <==> id in shards && id !in todo
        decreases |todo|
      {
        var id :| id in todo;
        todo := todo - {id};
        found := found + [id];
      }
      ids := Sort(found, Below);
      SortedDistinct(found, ids, Below);
      assert forall i :: i in ids <==> i in ToSet(ids);
      assert forall i :: i in found <==> i in ToSet(found);
      RangeSorted(ids, n);
    }

    /** Set every primary to "" and every node's shard list to nil. */
    method ClearPrimaries(ghost n: nat)
      requires Numbered(shards, n)
      modifies this
      ensures Numbered(shards, n)
      ensures nodes == map id | id in old(nodes) :: old(nodes)[id].(shards := [])
    {
      var todo := shards.Keys;
      while todo != {}
        invariant Numbered(shards, n) && todo <= shards.Keys && nodes == old(nodes)
        decreases |todo|
      {
        var i :| i in todo;
        todo := todo - {i};
        shards := shards[i := shards[i].(primary := "")];
      }
      var left := nodes.Keys;
      while left != {}
        invariant left <= nodes.Keys == old(nodes).Keys && Numbered(shards, n)
        invariant forall id :: id in nodes ==> nodes[id] == if id in left then old(nodes)[id] else old(nodes)[id].(shards := [])
        decreases |left|
      {
        var id :| id in left;
        left := left - {id};
        nodes := nodes[id := nodes[id].(shards := [])];
      }
    }

    /** Deal the shards round robin. */
    method Deal(h: seq<string>, all: seq<nat>, ghost n: nat)
      requires Numbered(shards, n) && h != [] && forall x :: x in h ==> x in nodes
      requires |all| == n && forall i :: 0 <= i < n ==> all[i] == i
      requires forall id :: id in nodes ==> nodes[id].shards == []
      modifies this
      ensures PrimariesFrom(shards, h, n)
      ensures nodes == WithOwned(old(nodes), h, n)
    {
      for i := 0 to |all|
        invariant Numbered(shards, n)
        invariant forall k :: 0 <= k < i ==> shards[k].primary == Primary(h, k)
        invariant nodes == WithOwned(old(nodes), h, i)
      {
        var nodeID := h[i % |h|];
        assert nodeID in h;
        shards := shards[all[i] := shards[all[i]].(primary := nodeID)];
        nodes := nodes[nodeID := nodes[nodeID].(shards := nodes[nodeID].shards + [all[i]])];
        DealStep(old(nodes), h, i);
      }
    }

    /** sort.Ints on every node's list: it is sorted already. */
    method SortLists(h: seq<string>, ghost n: nat)
      requires forall id :: id in nodes ==> nodes[id].shards == Owned(h, n, id)
      modifies this`nodes
      ensures nodes == old(nodes)
    {
      var todo := nodes.Keys;
      while todo != {}
        invariant todo <= nodes.Keys && nodes == old(nodes)
        decreases |todo|
      {
        var id :| id in todo;
        todo := todo - {id};
        var list := Sort(nodes[id].shards, Below);
        OwnedExactly(h, n, id);
        AscendingDistinct(nodes[id].shards, Below);
        SortedDistinct(nodes[id].shards, list, Below);
        AscendingUnique(list, nodes[id].shards, Below);
        nodes := nodes[id := nodes[id].(shards := list)];
      }
    }

    /** rebalancePrimary: deal all shards over the healthy nodes; without one, leave the state alone. */
    method RebalancePrimary(ghost n: nat)
      requires Numbered(shards, n)
      modifies this
      ensures Numbered(shards, n)
      ensures HealthyIds(old(nodes)) == {} ==> State() == old(State())
      ensures HealthyIds(old(nodes)) != {} ==>
        var h := Sorted(HealthyIds(old(nodes)));
        PrimariesFrom(shards, h, n) && nodes == WithOwned(old(nodes), h, n)
    {
      var h := SortedHealthy();
      SortedCount(HealthyIds(nodes));
      if |h| == 0 {
        return;
      }
      assert forall x :: x in h ==> x in ToSet(h);
      var all := SortedShards(n);
      ClearPrimaries(n);
      Deal(h, all, n);
      assert nodes == WithOwned(old(nodes), h, n);
      SortLists(h, n);
    }

    /** assignReplicas: the first healthy node that is not the primary. */
    method AssignReplicas(ghost n: nat)
      requires Numbered(shards, n)
      modifies this`shards
      ensures forall i :: i in shards <==> i in old(shards)
      ensures forall i :: i in shards ==>
        shards[i] == old(shards)[i].(replica := Replica(Sorted(HealthyIds(nodes)), old(shards)[i].primary))
    {
      var h := SortedHealthy();
      var todo := shards.Keys;
      while todo != {}
        invariant todo <= shards.Keys == old(shards).Keys
        invariant forall i :: i in shards ==>
          shards[i] == if i in todo then old(shards)[i]
                       else old(shards)[i].(replica := Replica(h, old(shards)[i].primary))
        decreases |todo|
      {
        var i :| i in todo;
        todo := todo - {i};
        var r := FirstOther(h, shards[i].primary);
        shards := shards[i := shards[i].(replica := r)];
      }
    }

    static method FirstOther(h: seq<string>, primary: string) returns (r: string)
      ensures r == Replica(h, primary)
    {
      for i := 0 to |h|
        invariant Replica(h, primary) == Replica(h[i..], primary)
      {
        if h[i] != primary {
          return h[i];
        }
        assert h[i..][1..] == h[i + 1..];
      }
      r := "";
    }

    /** Deal and replicate: the state becomes the canonical one for the current node records. */
    method Reassign(ghost n: nat)
      requires Numbered(shards, n)
      requires HealthyIds(nodes) == {} ==>
        PrimariesFrom(shards, [], n) && forall id :: id in nodes ==> nodes[id].shards == []
      modifies this
      ensures State() == Canonical(old(nodes), n)
    {
      ghost var h := Sorted(HealthyIds(nodes));
      SortedCount(HealthyIds(nodes));
      RebalancePrimary(n);
      assert PrimariesFrom(shards, h, n);
      assert nodes == WithOwned(old(nodes), h, n) by {
        OwnedByNobody(n);
      }
      assert HealthyIds(nodes) == HealthyIds(old(nodes));
      AssignReplicas(n);
      assert shards == ShardMap(h, n);
    }

    lemma OwnedByNobody(n: nat)
      ensures forall id :: Owned([], n, id) == []
    {
      forall id ensures Owned([], n, id) == [] {
        OwnedExactly([], n, id);
        EmptySet(Owned([], n, id));
      }
    }

    /** The record of a node, but for its shards. */
    ghost predicate IsRecord(r: NodeRecord, address: string, status: NodeStatus, lastSeen: int) {
      r.address == address && r.status == status && r.lastSeen == lastSeen
    }

    /** The other nodes' records are the same, but for their shards. */
    ghost predicate OthersKept(before: Nodes, after: Nodes, id: string) {
      forall x :: x != id ==>
        (x in after <==> x in before) && (x in before ==> IsRecord(after[x], before[x].address, before[x].status, before[x].lastSeen))
    }

    method ApplyRegisterNode(id: string, address: string, now: int, ghost n: nat)
      requires IsCanonical(State(), n)
      modifies this
      ensures State() == Next(old(State()), RegisterNode(id, address, now), n)
      ensures id in nodes && IsRecord(nodes[id], address, Healthy, now) && OthersKept(old(nodes), nodes, id)
    {
      if id in nodes && nodes[id].status == Healthy {
        nodes := nodes[id := nodes[id].(address := address, lastSeen := now)];
        RefreshedIsCanonical(old(State()), State(), RegisterNode(id, address, now), n);
        return;
      }
      nodes := nodes[id := NodeRecord(id, address, [], Healthy, now)];
      assert id in HealthyIds(nodes);
      Reassign(n);
    }

    method ApplyUpdateHeartbeat(id: string, now: int, ghost n: nat) returns (r: Option<Error>)
      requires IsCanonical(State(), n)
      modifies this
      ensures State() == Next(old(State()), UpdateHeartbeat(id, now), n)
      ensures id in old(nodes) ==> id in nodes && IsRecord(nodes[id], old(nodes)[id].address, old(nodes)[id].status, now)
      ensures OthersKept(old(nodes), nodes, id)
      ensures r == if id in old(nodes) then None else Some(NodeNotFound(id))
    {
      if id !in nodes {
        return Some(NodeNotFound(id));
      }
      nodes := nodes[id := nodes[id].(lastSeen := now)];
      RefreshedIsCanonical(old(State()), State(), UpdateHeartbeat(id, now), n);
      r := None;
    }

    /** Clear the primary of the listed shards. */
    method ReleasePrimaries(mine: seq<nat>, ghost n: nat)
      requires Numbered(shards, n) && forall i :: i in mine ==> i < n
      modifies this`shards
      ensures Numbered(shards, n)
      ensures forall i :: i in shards ==> shards[i].primary == if i in mine then "" else old(shards)[i].primary
    {
      for k := 0 to |mine|
        invariant Numbered(shards, n)
        invariant forall i :: i in shards ==>
          shards[i].primary == if i in mine[..k] then "" else old(shards)[i].primary
      {
        assert mine[k] in mine;
        shards := shards[mine[k] := shards[mine[k]].(primary := "")];
        TakeNext(mine, k);
      }
      assert mine[..|mine|] == mine;
    }

    /** Clear the replica slots that the node filled. */
    method ReleaseReplicas(id: string, ghost n: nat)
      requires Numbered(shards, n)
      modifies this`shards
      ensures Numbered(shards, n) && forall i :: i in shards ==> shards[i].primary == old(shards)[i].primary
    {
      var todo := shards.Keys;
      while todo != {}
        invariant todo <= shards.Keys && Numbered(shards, n)
        invariant forall i :: i in shards ==> shards[i].primary == old(shards)[i].primary
        decreases |todo|
      {
        var i :| i in todo;
        todo := todo - {i};
        if shards[i].replica == id {
          shards := shards[i := shards[i].(replica := "")];
        }
      }
    }

    method Release(id: string, ghost n: nat)
      requires IsCanonical(State(), n) && id in nodes
      modifies this`shards
      ensures Numbered(shards, n)
      ensures HealthyIds(nodes) <= {id} ==> PrimariesFrom(shards, [], n)
    {
      ghost var s := State();
      CanonicalHas(s, id, n);
      ReleaseSlots(nodes[id].shards, id, n);
      ReleaseEnds(s, shards, id, n);
    }

    method ReleaseSlots(mine: seq<nat>, id: string, ghost n: nat)
      requires Numbered(shards, n) && forall i :: i in mine ==> i < n
      modifies this`shards
      ensures Numbered(shards, n)
      ensures forall i :: i in shards ==> shards[i].primary == if i in mine then "" else old(shards)[i].primary
    {
      ReleasePrimaries(mine, n);
      ReleaseReplicas(id, n);
    }

    lemma ReleaseEnds(s: ClusterState, after: map<nat, ShardRecord>, id: string, n: nat)
      requires IsCanonical(s, n) && id in s.nodes && Numbered(after, n)
      requires forall i :: i in after ==> after[i].primary == if i in s.nodes[id].shards then "" else s.shards[i].primary
      ensures HealthyIds(s.nodes) <= {id} ==> PrimariesFrom(after, [], n)
    {
      var h := Sorted(HealthyIds(s.nodes));
      CanonicalHas(s, id, n);
      OnlyOwner(HealthyIds(s.nodes), n, id);
      ReleasedAll(s.shards, after, Owned(h, n, id), h, n);
    }

    lemma CanonicalHas(s: ClusterState, id: string, n: nat)
      requires IsCanonical(s, n) && id in s.nodes
      ensures var h := Sorted(HealthyIds(s.nodes));
        && PrimariesFrom(s.shards, h, n) && s.nodes[id].shards == Owned(h, n, id)
        && forall i :: i in s.nodes[id].shards ==> i < n
    {
      OwnedExactly(Sorted(HealthyIds(s.nodes)), n, id);
    }

    lemma ReleasedAll(before: map<nat, ShardRecord>, after: map<nat, ShardRecord>, mine: seq<nat>, h: seq<string>, n: nat)
      requires PrimariesFrom(before, h, n) && Numbered(after, n)
      requires forall i :: i in after ==> after[i].primary == if i in mine then "" else before[i].primary
      ensures (forall i: nat :: i < n ==> i in mine || Primary(h, i) == "") ==> PrimariesFrom(after, [], n)
    {
    }

    lemma OnlyOwner(healthy: set<string>, n: nat, id: string)
      ensures healthy <= {id} ==>
        forall i: nat :: i < n ==> i in Owned(Sorted(healthy), n, id) || Primary(Sorted(healthy), i) == ""
    {
      if healthy <= {id} {
        OwnedExactly(Sorted(healthy), n, id);
        forall i: nat | i < n ensures i in Owned(Sorted(healthy), n, id) || Primary(Sorted(healthy), i) == "" {
          PrimaryHealthy(healthy, i);
          SortedCount(healthy);
        }
      }
    }

    method ApplyMarkUnhealthy(id: string, ghost n: nat) returns (r: Option<Error>)
      requires IsCanonical(State(), n)
      modifies this
      ensures State() == Next(old(State()), MarkUnhealthy(id), n)
      ensures id in old(nodes) ==> id in nodes && IsRecord(nodes[id], old(nodes)[id].address, Unhealthy, old(nodes)[id].lastSeen)
      ensures OthersKept(old(nodes), nodes, id)
      ensures r == if id in old(nodes) then None else Some(NodeNotFound(id))
    {
      if id !in nodes {
        return Some(NodeNotFound(id));
      }
      OthersOwnNothing(State(), id, n);
      Release(id, n);
      MarkedLists(nodes, id, n);
      nodes := nodes[id := nodes[id].(status := Unhealthy, shards := [])];
      Reassign(n);
      r := None;
    }

    lemma MarkedLists(nodes: Nodes, id: string, n: nat)
      requires id in nodes
      ensures var marked := nodes[id := nodes[id].(status := Unhealthy, shards := [])];
        HealthyIds(marked) == HealthyIds(nodes) - {id} && Canonical(marked, n) == Canonical(NextNodes(nodes, MarkUnhealthy(id)), n)
    {
      var marked := nodes[id := nodes[id].(status := Unhealthy, shards := [])];
      assert HealthyIds(marked) == HealthyIds(nodes) - {id};
      ListsIgnored(marked, NextNodes(nodes, MarkUnhealthy(id)), n);
    }

    /** Apply one committed command; a malformed one changes nothing. */
    method Apply(cmd: Command, ghost n: nat) returns (r: Option<Error>)
      requires IsCanonical(State(), n)
      modifies this
      ensures State() == Next(old(State()), cmd, n) && IsCanonical(State(), n)
      ensures r.Some? <==> cmd.Malformed? || (!cmd.RegisterNode? && cmd.id !in old(nodes))
    {
      CanonicalStable(NextNodes(nodes, cmd), n);
      match cmd
      case RegisterNode(id, address, now) =>
        ApplyRegisterNode(id, address, now, n);
        r := None;
      case UpdateHeartbeat(id, now) => r := ApplyUpdateHeartbeat(id, now, n);
      case MarkUnhealthy(id) => r := ApplyMarkUnhealthy(id, n);
      case Malformed => r := Some(UnknownCommand);
    }

    /** Replaying a log: whatever order the map loops take, the state is the one the log determines. */
    method ApplyAll(log: seq<Command>, ghost n: nat)
      requires IsCanonical(State(), n)
      modifies this
      ensures State() == Replay(old(State()), log, n) && IsCanonical(State(), n)
    {
      ghost var s := State();
      for i := 0 to |log|
        invariant State() == Replay(s, log[..i], n) && IsCanonical(State(), n)
      {
        var _ := Apply(log[i], n);
        assert log[..i + 1][..i] == log[..i];
      }
      assert log[..|log|] == log;
    }

    /** Snapshot: a copy of both maps, built entry by entry. */
    method Snapshot() returns (s: ClusterState)
      ensures s == State()
    {
      var ns: Nodes := map[];
      var todo := nodes.Keys;
      while todo != {}
        invariant todo <= nodes.Keys && ns == map id | id in nodes && id !in todo :: nodes[id]
        decreases |todo|
      {
        var id :| id in todo;
        todo := todo - {id};
        ns := ns[id := nodes[id]];
      }
      var ss: map<nat, ShardRecord> := map[];
      var left := shards.Keys;
      while left != {}
        invariant left <= shards.Keys && ss == map i | i in shards && i !in left :: shards[i]
        decreases |left|
      {
        var i :| i in left;
        left := left - {i};
        ss := ss[i := shards[i]];
      }
      s := ClusterState(ns, ss);
    }

    /** Restore: what the snapshot decodes to becomes the state; a decode error leaves the state alone. */
    method Restore(decoded: Option<ClusterState>) returns (r: Option<Error>)
      modifies this
      ensures r == if decoded.Some? then None else Some(BadSnapshot)
      ensures State() == if decoded.Some? then decoded.value else old(State())
    {
      if decoded.None? {
        return Some(BadSnapshot);
      }
      nodes, shards := decoded.value.nodes, decoded.value.shards;
      r := None;
    }
  }

  // ------------------------------------------------------- machines and logs

  /** A new state machine that has applied a log: the log determines its state, and all slots are well assigned. */
  method RunLog(log: seq<Command>, total: nat) returns (f: FSM)
    ensures fresh(f) && f.State() == Replay(Initial(total), log, total) && IsCanonical(f.State(), total)
    ensures WellAssigned(f.State(), total) && forall id :: Recorded(f.nodes, log, id)
  {
    f := new FSM(total);
    InitialCanonical(total);
    f.ApplyAll(log, total);
    CanonicalWellAssigned(f.State(), total);
    forall id ensures Recorded(f.nodes, log, id) {
      LogDetermines(log, total, id);
    }
  }

  /** A machine in any state that is restored from a snapshot taken after `a` and then applies `b` ends where the
      machine that went on with `b` ends, and where one that applied the whole log ends. */
  method RestoreCatchesUp(a: seq<Command>, b: seq<Command>, total: nat, restored: FSM)
    returns (went: FSM, snapshot: ClusterState, whole: FSM)
    modifies restored
    ensures fresh(went) && fresh(whole) && went != whole
    ensures snapshot == Replay(Initial(total), a, total)
    ensures went.State() == restored.State() == whole.State() == Replay(Initial(total), a + b, total)
  {
    went := RunLog(a, total);
    snapshot := went.Snapshot();
    went.ApplyAll(b, total);
    var _ := restored.Restore(Some(snapshot));
    restored.ApplyAll(b, total);
    whole := RunLog(a + b, total);
    ReplayConcat(Initial(total), a, b, total);
  }

  /** Two machines that applied different logs but ended with the same healthy nodes agree on every primary and
      replica, and on the shard list of every node that both know. */
  method SameHealthySameAssignment(a: seq<Command>, b: seq<Command>, total: nat) returns (f: FSM, g: FSM)
    ensures fresh(f) && fresh(g) && f != g
    ensures f.State() == Replay(Initial(total), a, total) && g.State() == Replay(Initial(total), b, total)
    ensures HealthyIds(f.nodes) == HealthyIds(g.nodes) ==>
      f.shards == g.shards && forall id :: id in f.nodes && id in g.nodes ==> f.nodes[id].shards == g.nodes[id].shards
  {
    f := RunLog(a, total);
    g := RunLog(b, total);
  }

  /** The assignment does not look at the shard lists it overwrites. */
  lemma ListsIgnored(a: Nodes, b: Nodes, n: nat)
    requires a.Keys == b.Keys && forall id :: id in a ==> a[id] == b[id].(shards := a[id].shards)
    ensures Canonical(a, n) == Canonical(b, n)
  {
    assert HealthyIds(a) == HealthyIds(b);
  }

  /** When at most `id` is healthy, no other node has a shard list. */
  lemma OthersOwnNothing(s: ClusterState, id: string, n: nat)
    requires IsCanonical(s, n)
    ensures HealthyIds(s.nodes) <= {id} ==> forall x :: x in s.nodes && x != id ==> s.nodes[x].shards == []
    ensures HealthyIds(s.nodes) == {} ==> forall x :: x in s.nodes ==> s.nodes[x].shards == []
  {
    forall x | x in s.nodes && x !in HealthyIds(s.nodes) ensures s.nodes[x].shards == [] {
      NodeCanonical(s, n, x);
    }
  }

  /** Changing address and time of a record does not change the assignment. */
  lemma RefreshedIsCanonical(s: ClusterState, t: ClusterState, cmd: Command, n: nat)
    requires IsCanonical(s, n) && t.shards == s.shards && !cmd.MarkUnhealthy?
    requires t.nodes.Keys == NextNodes(s.nodes, cmd).Keys == s.nodes.Keys
    requires forall id :: id in t.nodes ==>
      && t.nodes[id] == NextNodes(s.nodes, cmd)[id].(shards := s.nodes[id].shards)
      && t.nodes[id].status == s.nodes[id].status
    ensures t == Next(s, cmd, n)
  {
    assert HealthyIds(NextNodes(s.nodes, cmd)) == HealthyIds(s.nodes);
    var h := Sorted(HealthyIds(s.nodes));
    forall id | id in t.nodes ensures t.nodes[id] == WithOwned(NextNodes(s.nodes, cmd), h, n)[id] {
      assert s.nodes[id].shards == Owned(h, n, id);
    }
  }
}
