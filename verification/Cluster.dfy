/** Queries of the cluster that a command log leaves: the fan-out executor over the state machine's cluster state. */
module Cluster {
  import opened Entries
  import opened Executor
  import opened Coordinator
  import opened Assignment
  import opened Membership
  import opened Metadata
  import opened CacheModel
  import opened CacheKeys
  import opened FanOut

  /** The log registered the node at an address, last of all its registrations, and did not mark it unhealthy since. */
  ghost predicate Member(log: seq<Command>, id: string) {
    exists i: nat :: LastRegisters(log, i, id) && log[i].address != "" && StaysSince(log, i, id)
  }

  lemma {:induction false} LastFrom(log: seq<Command>, i: nat, id: string) returns (k: nat)
    requires StaysSince(log, i, id)
    ensures LastRegisters(log, k, id) && StaysSince(log, k, id)
    decreases |log| - i
  {
    k := i;
    if j: nat :| i < j && Registers(log, j, id) {
      k := LastFrom(log, j, id);
    }
  }

  /** The targets of a query are the members. */
  lemma TargetIffMember(log: seq<Command>, n: nat, id: string)
    ensures IsTarget(Replay(Initial(n), log, n), id) <==> Member(log, id)
  {
    LogDetermines(log, n, id);
    if Stays(log, id) {
      var i: nat :| StaysSince(log, i, id);
      var k := LastFrom(log, i, id);
      assert forall j: nat :: LastRegisters(log, j, id) ==> j == k;
    }
  }

  /** The entries of all members. */
  ghost function MembersHold(log: seq<Command>, stores: map<string, set<Entry>>): set<Entry> {
    set id, e | id in stores && Member(log, id) && e in stores[id] :: e
  }

  /** Every member answers the request from its own store. */
  ghost predicate MembersReply(log: seq<Command>, ask: Ask, req: Request, stores: map<string, set<Entry>>) {
    forall id :: Member(log, id) ==> ask(id, req).Some? && id in stores && Gives(ask(id, req), req, stores[id])
  }

  /** Whatever the stores hold: when every member answers from its own, the page of one store with all their entries. */
  ghost predicate PageOfMembers(log: seq<Command>, ask: Ask, req: Request, fanOutLimit: int, r: QueryResult)
    requires req.limit >= 0
  {
    forall stores :: MembersReply(log, ask, NodeRequest(req, fanOutLimit), stores) && IdsIdentify(MembersHold(log, stores)) ==>
      !r.partial && PageOf(req, MembersHold(log, stores), fanOutLimit, r)
  }

  lemma MembersAsTargets(log: seq<Command>, targets: set<string>, ask: Ask, req: Request, fanOutLimit: int, r: QueryResult)
    requires req.limit >= 0 && PageOfTargets(targets, ask, req, fanOutLimit, r)
    requires forall id :: id in targets <==> Member(log, id)
    ensures PageOfMembers(log, ask, req, fanOutLimit, r)
  {
    forall stores | MembersReply(log, ask, NodeRequest(req, fanOutLimit), stores) && IdsIdentify(MembersHold(log, stores))
      ensures !r.partial && PageOf(req, MembersHold(log, stores), fanOutLimit, r)
    {
      assert AllEntries(targets, stores) == MembersHold(log, stores);
      assert AllReply(targets, ask, NodeRequest(req, fanOutLimit), stores);
    }
  }

  lemma MembersAreTargets(log: seq<Command>, n: nat, cs: ClusterState, targets: set<string>)
    requires cs == Replay(Initial(n), log, n) && targets == Targets(cs)
    ensures forall id :: id in targets <==> Member(log, id)
  {
    forall id ensures id in targets <==> Member(log, id) {
      TargetIffMember(log, n, id);
    }
  }

  method StateAfter(log: seq<Command>, total: nat) returns (cs: ClusterState)
    ensures cs == Replay(Initial(total), log, total)
  {
    var f := RunLog(log, total);
    cs := f.Snapshot();
  }

  /** A query of the cluster that any command log leaves: on a miss, exactly the members are asked, and when all of them
      reply from their stores, the page is that of one store with all their entries. */
  method QueryAfter(log: seq<Command>, total: nat, fan: FanOutExecutor, req: Request, ask: Ask, now: int, later: int)
    returns (r: Option<QueryResult>, ghost c: Record)
    requires fan.Valid() && IsRequest(req) && fan.fanOutLimit <= MAX_INT32
    modifies fan`computed, fan.cache.Repr()
    ensures fan.Valid() && r.Some?
    ensures Got(old(fan.cache.model), Preimage(req), now, fan.cache.ttl).1.None? ==>
      && (forall id :: id in c.targets <==> Member(log, id))
      && (Fits(req) ==> PageOfMembers(log, ask, req, fan.fanOutLimit, r.value))
  {
    ghost var miss := Got(fan.cache.model, Preimage(req), now, fan.cache.ttl).1.None?;
    var cs := StateAfter(log, total);
    r, c := fan.Answer(req, cs, ask, false, now, later);
    if miss {
      MembersAreTargets(log, total, cs, c.targets);
      if Fits(req) {
        MembersAsTargets(log, c.targets, ask, req, fan.fanOutLimit, r.value);
      }
    }
  }
}
