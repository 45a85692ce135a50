/** Which nodes a command log leaves in the cluster, by the places of the commands in the log. */
module Membership {
  import opened Assignment

  /** The command at place `i` registers the node. */
  ghost predicate Registers(log: seq<Command>, i: nat, id: string) {
    i < |log| && log[i].RegisterNode? && log[i].id == id
  }

  /** The command at place `i` sets the time the node was last seen: it registers it, or is a heartbeat of it after it was
      registered. */
  ghost predicate Sees(log: seq<Command>, i: nat, id: string) {
    Registers(log, i, id) || (i < |log| && log[i].UpdateHeartbeat? && log[i].id == id && exists j: nat :: j < i && Registers(log, j, id))
  }

  ghost predicate LastRegisters(log: seq<Command>, i: nat, id: string) {
    Registers(log, i, id) && forall j: nat :: i < j ==> !Registers(log, j, id)
  }

  ghost predicate LastSees(log: seq<Command>, i: nat, id: string) {
    Sees(log, i, id) && forall j: nat :: i < j ==> !Sees(log, j, id)
  }

  /** Registered at place `i`, and not marked unhealthy since. */
  ghost predicate StaysSince(log: seq<Command>, i: nat, id: string) {
    Registers(log, i, id) && forall j: nat :: i < j < |log| ==> log[j] != MarkUnhealthy(id)
  }

  ghost predicate Known(log: seq<Command>, id: string) {
    exists i: nat :: Registers(log, i, id)
  }

  ghost predicate Stays(log: seq<Command>, id: string) {
    exists i: nat :: StaysSince(log, i, id)
  }

  /** What the log says of the node. */
  ghost predicate Recorded(nodes: Nodes, log: seq<Command>, id: string) {
    && (id in nodes <==> Known(log, id))
    && (id in nodes && nodes[id].status == Healthy <==> Stays(log, id))
    && (forall i: nat :: LastRegisters(log, i, id) ==> id in nodes && nodes[id].address == log[i].address)
    && (forall i: nat :: LastSees(log, i, id) ==> id in nodes && nodes[id].lastSeen == log[i].now)
  }

  /** After any log, a node is known iff it was registered, and healthy iff it was registered and not marked unhealthy
      later; its address is that of its latest registration, and it was last seen at its latest registration or heartbeat. */
  lemma {:induction false} LogDetermines(log: seq<Command>, n: nat, id: string)
    ensures Recorded(Replay(Initial(n), log, n).nodes, log, id)
  {
    if log != [] {
      var k := |log| - 1;
      var s := Replay(Initial(n), log[..k], n);
      LogDetermines(log[..k], n, id);
      AssignmentKeeps(NextNodes(s.nodes, log[k]), n, id);
      StepRecords(s.nodes, log, id);
      SameRecord(NextNodes(s.nodes, log[k]), Replay(Initial(n), log, n).nodes, log, id);
    }
  }

  /** Dealing the shards changes shard lists only. */
  lemma AssignmentKeeps(nodes: Nodes, n: nat, id: string)
    ensures var now := Canonical(nodes, n).nodes;
      (id in now <==> id in nodes) && (id in nodes ==> now[id] == nodes[id].(shards := now[id].shards))
  {
  }

  lemma SameRecord(a: Nodes, b: Nodes, log: seq<Command>, id: string)
    requires Recorded(a, log, id) && (id in b <==> id in a) && (id in a ==> b[id] == a[id].(shards := b[id].shards))
    ensures Recorded(b, log, id)
  {
  }

  lemma EarlierPlaces(log: seq<Command>, i: nat, id: string)
    requires i + 1 < |log|
    ensures var front := log[..|log| - 1];
      && (Registers(front, i, id) <==> Registers(log, i, id)) && (Sees(front, i, id) <==> Sees(log, i, id)) && front[i] == log[i]
  {
    var front := log[..|log| - 1];
    assert forall j: nat :: 0 <= j < |front| ==> front[j] == log[j];
    assert forall j: nat :: j < i ==> (Registers(front, j, id) <==> Registers(log, j, id));
  }

  lemma KnownStep(log: seq<Command>, id: string)
    requires log != []
    ensures var k := |log| - 1; Known(log, id) <==> Known(log[..k], id) || Registers(log, k, id)
  {
    var k := |log| - 1;
    if i: nat :| Registers(log, i, id) && i < k {
      EarlierPlaces(log, i, id);
    }
    if i: nat :| Registers(log[..k], i, id) {
      EarlierPlaces(log, i, id);
    }
  }

  lemma StaysStep(log: seq<Command>, id: string)
    requires log != []
    ensures var k := |log| - 1;
      Stays(log, id) <==> (Stays(log[..k], id) && log[k] != MarkUnhealthy(id)) || Registers(log, k, id)
  {
    var k := |log| - 1;
    if i: nat :| StaysSince(log, i, id) && i < k {
      EarlierPlaces(log, i, id);
      assert forall j: nat :: i < j < k ==> log[..k][j] == log[j];
      assert StaysSince(log[..k], i, id);
    }
    if i: nat :| StaysSince(log[..k], i, id) && log[k] != MarkUnhealthy(id) {
      EarlierPlaces(log, i, id);
      assert forall j: nat :: i < j < k ==> log[..k][j] == log[j];
      assert StaysSince(log, i, id);
    }
    if Registers(log, k, id) {
      assert StaysSince(log, k, id);
    }
  }

  lemma LastStep(log: seq<Command>, i: nat, id: string)
    requires log != []
    ensures var k := |log| - 1;
      && (LastRegisters(log, i, id) <==> if Registers(log, k, id) then i == k else LastRegisters(log[..k], i, id))
      && (LastSees(log, i, id) <==> if Sees(log, k, id) then i == k else LastSees(log[..k], i, id))
  {
    var k := |log| - 1;
    forall j: nat | j < k ensures (Registers(log[..k], j, id) <==> Registers(log, j, id)) && (Sees(log[..k], j, id) <==> Sees(log, j, id)) {
      EarlierPlaces(log, j, id);
    }
  }

  lemma StepRecords(nodes: Nodes, log: seq<Command>, id: string)
    requires log != [] && Recorded(nodes, log[..|log| - 1], id)
    ensures Recorded(NextNodes(nodes, log[|log| - 1]), log, id)
  {
    var k := |log| - 1;
    KnownStep(log, id);
    StaysStep(log, id);
    SeenStep(log, id);
    forall i: nat ensures LastRegisters(log, i, id) ==> i < |log| && log[i] == if i == k then log[k] else log[..k][i] {
    }
    forall i: nat
      ensures LastRegisters(log, i, id) <==> if Registers(log, k, id) then i == k else LastRegisters(log[..k], i, id)
      ensures LastSees(log, i, id) <==> if Sees(log, k, id) then i == k else LastSees(log[..k], i, id)
    {
      LastStep(log, i, id);
    }
  }

  lemma SeenStep(log: seq<Command>, id: string)
    requires log != []
    ensures var k := |log| - 1;
      Sees(log, k, id) <==> Registers(log, k, id) || (log[k].UpdateHeartbeat? && log[k].id == id && Known(log[..k], id))
  {
    var k := |log| - 1;
    forall j: nat | j < k ensures Registers(log[..k], j, id) <==> Registers(log, j, id) {
      EarlierPlaces(log, j, id);
    }
  }
}
