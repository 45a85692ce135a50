/** FanOutExecutor: cache lookup, target choice, the nodes' requests and replies, merge, cache policy. */
module FanOut {
  import opened Ordering
  import opened Entries
  import opened Parser
  import opened Executor
  import opened Coordinator
  import opened Assignment
  import opened CacheModel
  import opened QueryCaches
  import opened CacheKeys

  /** What the node with an ID returns to a request: its entries, or nothing if it cannot be reached in time. */
  type Ask = (string, Request) -> Option<seq<Entry>>

  function PartOf(id: string, ask: Ask, req: Request): Part {
    match ask(id, req) case Some(es) => Answered(id, es) case None => Failed(id)
  }

  /** A node that a query is sent to. */
  ghost predicate IsTarget(cs: ClusterState, id: string) {
    id in cs.nodes && cs.nodes[id].status == Healthy && cs.nodes[id].address != ""
  }

  ghost function Targets(cs: ClusterState): set<string> {
    set id | id in cs.nodes && IsTarget(cs, id)
  }

  /** Choose the healthy nodes with an address, in any map order. */
  method ChooseTargets(cs: ClusterState) returns (targets: set<string>)
    ensures targets == Targets(cs)
    ensures forall id :: id in targets <==> id in cs.nodes && cs.nodes[id].status == Healthy && cs.nodes[id].address != ""
  {
    targets := {};
    var todo := cs.nodes.Keys;
    while todo != {}
      invariant todo <= cs.nodes.Keys
      invariant forall id :: id in targets <==> id in cs.nodes.Keys - todo && cs.nodes[id].status == Healthy && cs.nodes[id].address != ""
      decreases |todo|
    {
      var id :| id in todo;
      todo := todo - {id};
      var n := cs.nodes[id];
      if n.status == Healthy && n.address != "" {
        targets := targets + {id};
      }
    }
  }

  /** One part per target, in some arrival order. */
  ghost predicate Arrived(parts: seq<Part>, targets: set<string>, ask: Ask, req: Request) {
    && Distinct(parts)
    && forall p :: p in parts <==> exists id :: id in targets && p == PartOf(id, ask, req)
  }

  /** Ask every target and collect the parts as they arrive. */
  method Collect(targets: set<string>, ask: Ask, req: Request) returns (parts: seq<Part>)
    ensures Arrived(parts, targets, ask, req)
  {
    parts := [];
    var pending := targets;
    while pending != {}
      invariant pending <= targets && Arrived(parts, targets - pending, ask, req)
      decreases |pending|
    {
      var id :| id in pending;
      ghost var done := targets - pending;
      pending := pending - {id};
      assert PartOf(id, ask, req) !in parts;
      parts := parts + [PartOf(id, ask, req)];
      assert targets - pending == done + {id};
    }
    assert targets - pending == targets;
  }

  /** A partial answer is one that misses a target, and only those. */
  lemma PartialIffFailed(parts: seq<Part>, targets: set<string>, ask: Ask, req: Request)
    requires Arrived(parts, targets, ask, req)
    ensures AnyFailed(parts) <==> exists id :: id in targets && ask(id, req).None?
  {
    if AnyFailed(parts) {
      var i :| 0 <= i < |parts| && parts[i].Failed?;
      assert parts[i] in parts;
    }
    if id :| id in targets && ask(id, req).None? {
      assert PartOf(id, ask, req) in parts;
    }
  }

  // ---------------------------------------------------- the answer of a fan-out

  /** One computed answer: whom it asked, what arrived, and what was merged from it. */
  datatype Record = Record(req: Request, targets: set<string>, ask: Ask, parts: seq<Part>, result: QueryResult, at: int)

  /** The nodes were asked for the window that the page needs, and the result was merged from what arrived. */
  ghost predicate Genuine(c: Record, fanOutLimit: int) {
    && IsRequest(c.req) && Arrived(c.parts, c.targets, c.ask, NodeRequest(c.req, fanOutLimit))
    && c.result == Merged(c.parts, c.req.offset, EffectiveLimit(c.req.limit))
  }

  /** The reply is the entries that a scan of the store finds. */
  ghost predicate Gives(reply: Option<seq<Entry>>, req: Request, store: set<Entry>) {
    && IdsIdentify(store)
    && match FullScan(req, store) case Success(r) => reply == Some(r.entries) case Failure(_) => reply == None
  }

  lemma GivesReplied(id: string, ask: Ask, req: Request, store: set<Entry>)
    requires Gives(ask(id, req), req, store)
    ensures Replied(PartOf(id, ask, req), req, store)
  {
  }

  /** Every target that answered did so from its own store. */
  ghost predicate Truthful(c: Record, fanOutLimit: int, stores: map<string, set<Entry>>)
    requires c.req.limit >= 0
  {
    var nodeReq := NodeRequest(c.req, fanOutLimit);
    forall id :: id in c.targets && c.ask(id, nodeReq).Some? ==> id in stores && Gives(c.ask(id, nodeReq), nodeReq, stores[id])
  }

  /** The entries of the targets that answered. */
  ghost function Answering(c: Record, fanOutLimit: int, stores: map<string, set<Entry>>): set<Entry>
    requires c.req.limit >= 0
  {
    var nodeReq := NodeRequest(c.req, fanOutLimit);
    set id, e | id in c.targets && id in stores && c.ask(id, nodeReq).Some? && e in stores[id] :: e
  }

  /** The stores behind the parts; a failed part has none. */
  ghost function StoresOf(parts: seq<Part>, stores: map<string, set<Entry>>): (r: seq<set<Entry>>)
    ensures |r| == |parts|
    ensures forall i :: 0 <= i < |parts| ==> r[i] == if parts[i].Answered? && parts[i].node in stores then stores[parts[i].node] else {}
  {
    seq(|parts|, i requires 0 <= i < |parts| => if parts[i].Answered? && parts[i].node in stores then stores[parts[i].node] else {})
  }

  lemma StoresUnion(c: Record, fanOutLimit: int, stores: map<string, set<Entry>>)
    requires Genuine(c, fanOutLimit)
    ensures Union(StoresOf(c.parts, stores)) == Answering(c, fanOutLimit, stores)
  {
    var ss, nodeReq := StoresOf(c.parts, stores), NodeRequest(c.req, fanOutLimit);
    forall e | e in Answering(c, fanOutLimit, stores) ensures e in Union(ss) {
      var id :| id in c.targets && id in stores && c.ask(id, nodeReq).Some? && e in stores[id];
      assert PartOf(id, c.ask, nodeReq) in c.parts;
      var i :| 0 <= i < |c.parts| && c.parts[i] == PartOf(id, c.ask, nodeReq);
      assert e in ss[i];
    }
    forall e | e in Union(ss) ensures e in Answering(c, fanOutLimit, stores) {
      var i :| 0 <= i < |ss| && e in ss[i];
      assert c.parts[i] in c.parts;
    }
  }

  lemma ReachedFrom(c: Record, fanOutLimit: int, stores: map<string, set<Entry>>)
    requires Genuine(c, fanOutLimit) && Truthful(c, fanOutLimit, stores)
    ensures Reached(c.parts, NodeRequest(c.req, fanOutLimit), StoresOf(c.parts, stores))
  {
    var nodeReq, ss := NodeRequest(c.req, fanOutLimit), StoresOf(c.parts, stores);
    forall i | 0 <= i < |c.parts|
      ensures if c.parts[i].Failed? then ss[i] == {} else Replied(c.parts[i], nodeReq, ss[i])
    {
      assert c.parts[i] in c.parts;
      var id :| id in c.targets && c.parts[i] == PartOf(id, c.ask, nodeReq);
      if c.ask(id, nodeReq).Some? {
        GivesReplied(id, c.ask, nodeReq, stores[id]);
      }
    }
  }

  /** The page of one store with these entries, and a total that is at most the true count, and below it only if it is at
      least the fan-out limit and the end of the page. */
  ghost predicate PageOf(req: Request, all: set<Entry>, fanOutLimit: int, r: QueryResult)
    requires req.limit >= 0
  {
    && IdsIdentify(all) && Parsed(req.query).Ok? && FullScan(req, all).Success? && r.entries == FullScan(req, all).value.entries
    && var count := |Matching(req, Parsed(req.query).value, all)|;
       count <= MAX_INT32 ==>
         r.total <= count && (r.total >= count || (r.total >= fanOutLimit && r.total >= req.offset + EffectiveLimit(req.limit)))
  }

  /** What any computed answer is worth, whatever the arrival order: the page of one store that holds the entries of
      all targets that answered from their stores; it is partial if and only if some target did not. */
  lemma AnswersAsOne(c: Record, fanOutLimit: int, stores: map<string, set<Entry>>)
    requires Genuine(c, fanOutLimit) && Truthful(c, fanOutLimit, stores) && IdsIdentify(Answering(c, fanOutLimit, stores))
    requires fanOutLimit <= MAX_INT32 && c.req.offset + EffectiveLimit(c.req.limit) <= MAX_INT32 && Parsed(c.req.query).Ok?
    ensures PageOf(c.req, Answering(c, fanOutLimit, stores), fanOutLimit, c.result)
    ensures c.result.partial <==> exists id :: id in c.targets && c.ask(id, NodeRequest(c.req, fanOutLimit)).None?
  {
    StoresUnion(c, fanOutLimit, stores);
    ReachedFrom(c, fanOutLimit, stores);
    ReachedIsOneStore(c.req, fanOutLimit, StoresOf(c.parts, stores), c.parts);
    PartialIffFailed(c.parts, c.targets, c.ask, NodeRequest(c.req, fanOutLimit));
  }

  /** The entries of all targets. */
  ghost function AllEntries(targets: set<string>, stores: map<string, set<Entry>>): set<Entry> {
    set id, e | id in targets && id in stores && e in stores[id] :: e
  }

  /** Every target answers the request from its own store. */
  ghost predicate AllReply(targets: set<string>, ask: Ask, req: Request, stores: map<string, set<Entry>>) {
    forall id :: id in targets ==> ask(id, req).Some? && id in stores && Gives(ask(id, req), req, stores[id])
  }

  /** When every target answers from its own store, a computed answer is the page of one store with all their entries. */
  lemma AllAnswer(c: Record, fanOutLimit: int, stores: map<string, set<Entry>>)
    requires Genuine(c, fanOutLimit) && AllReply(c.targets, c.ask, NodeRequest(c.req, fanOutLimit), stores)
    requires IdsIdentify(AllEntries(c.targets, stores)) && fanOutLimit <= MAX_INT32 && Fits(c.req)
    ensures !c.result.partial && PageOf(c.req, AllEntries(c.targets, stores), fanOutLimit, c.result)
  {
    assert Answering(c, fanOutLimit, stores) == AllEntries(c.targets, stores);
    AnswersAsOne(c, fanOutLimit, stores);
  }

  /** Whatever the stores hold: when every target answers from its own, the page of one store with all their entries. */
  ghost predicate PageOfTargets(targets: set<string>, ask: Ask, req: Request, fanOutLimit: int, r: QueryResult)
    requires req.limit >= 0
  {
    forall stores :: AllReply(targets, ask, NodeRequest(req, fanOutLimit), stores) && IdsIdentify(AllEntries(targets, stores)) ==>
      !r.partial && PageOf(req, AllEntries(targets, stores), fanOutLimit, r)
  }

  lemma RecordIsPage(c: Record, fanOutLimit: int)
    requires Genuine(c, fanOutLimit) && fanOutLimit <= MAX_INT32 && Fits(c.req)
    ensures PageOfTargets(c.targets, c.ask, c.req, fanOutLimit, c.result)
  {
    forall stores | AllReply(c.targets, c.ask, NodeRequest(c.req, fanOutLimit), stores) && IdsIdentify(AllEntries(c.targets, stores))
      ensures !c.result.partial && PageOf(c.req, AllEntries(c.targets, stores), fanOutLimit, c.result)
    {
      AllAnswer(c, fanOutLimit, stores);
    }
  }

  /** The query parses and the page ends within int32. */
  predicate Fits(req: Request)
  {
    Parsed(req.query).Ok? && req.limit >= 0 && req.offset + EffectiveLimit(req.limit) <= MAX_INT32
  }

  /** Whatever the targets' stores hold: the page of one store with the entries of those that answered. */
  ghost predicate IsOneStore(c: Record, fanOutLimit: int, r: QueryResult)
    requires c.req.limit >= 0
  {
    && (forall stores :: Truthful(c, fanOutLimit, stores) && IdsIdentify(Answering(c, fanOutLimit, stores)) ==>
          PageOf(c.req, Answering(c, fanOutLimit, stores), fanOutLimit, r))
    && (r.partial <==> exists id :: id in c.targets && c.ask(id, NodeRequest(c.req, fanOutLimit)).None?)
  }

  lemma RecordIsOneStore(c: Record, fanOutLimit: int)
    requires Genuine(c, fanOutLimit) && fanOutLimit <= MAX_INT32 && Fits(c.req)
    ensures IsOneStore(c, fanOutLimit, c.result)
  {
    forall stores | Truthful(c, fanOutLimit, stores) && IdsIdentify(Answering(c, fanOutLimit, stores))
      ensures PageOf(c.req, Answering(c, fanOutLimit, stores), fanOutLimit, c.result)
    {
      AnswersAsOne(c, fanOutLimit, stores);
    }
    PartialIffFailed(c.parts, c.targets, c.ask, NodeRequest(c.req, fanOutLimit));
  }

  predicate NoBars(req: Request) {
    '|' !in req.query && '|' !in req.namespace && '|' !in req.service
  }

  class FanOutExecutor {
    const fanOutLimit: int
    const cache: QueryCache<QueryResult>

    /** Every answer computed so far. */
    ghost var computed: iset<Record>

    /** A cached slot was computed, completely, for a request with the slot's key. */
    ghost predicate Backed(x: Slot<QueryResult>)
      reads this
    {
      !x.value.partial && exists c :: c in computed && Preimage(c.req) == x.key && c.result == x.value && c.at == x.at
    }

    ghost predicate Valid()
      reads this, cache, cache.Repr()
    {
      && this !in cache.Repr() && cache.Valid()
      && (forall c :: c in computed ==> Genuine(c, fanOutLimit))
      && forall x :: x in cache.model ==> Backed(x)
    }

    constructor (fanOutLimit: int, ttl: int, maxItems: int)
      ensures Valid() && fresh(cache.Repr()) && cache.model == [] && cache.ttl == ttl && cache.maxSize == maxItems
      ensures this.fanOutLimit == fanOutLimit
    {
      this.fanOutLimit := fanOutLimit;
      cache := new QueryCache<QueryResult>(ttl, maxItems);
      computed := iset{};
    }

    /** An answer computed no longer than the TTL ago for a request with the same key: for this very request, unless
        one of its text fields has a bar. */
    ghost predicate Recalls(c: Record, req: Request, now: int) {
      && Genuine(c, fanOutLimit) && !c.result.partial && now - c.at <= cache.ttl
      && Preimage(c.req) == Preimage(req) && (NoBars(req) ==> c.req == req)
    }

    /** Look the request up. */
    method Lookup(req: Request, now: int) returns (r: Option<QueryResult>, ghost c: Record)
      requires Valid()
      modifies cache.Repr()
      ensures Valid() && cache.Repr() <= old(cache.Repr())
      ensures (cache.model, r) == Got(old(cache.model), Preimage(req), now, cache.ttl)
      ensures r.Some? ==> c in computed && c.result == r.value && Recalls(c, req, now)
    {
      ghost var before := cache.model;
      r := cache.Get(Preimage(req), now);
      GotWithin(before, Preimage(req), now, cache.ttl);
      c := Record(req, {}, (_, _) => None, [], QueryResult([], 0, false), 0);
      if r.Some? {
        ghost var x := before[Find(before, Preimage(req))];
        assert x in before && Backed(x);
        c :| c in computed && Preimage(c.req) == x.key && c.result == x.value && c.at == x.at;
        if NoBars(req) {
          NoBarsNoOther(req, c.req);
        }
      }
    }

    /** The request that goes to every node: the whole window up to the end of the page, without an offset. */
    method NodeQuery(req: Request) returns (nodeReq: Request, clientLimit: int)
      requires IsRequest(req)
      ensures nodeReq == NodeRequest(req, fanOutLimit) && clientLimit == EffectiveLimit(req.limit)
    {
      clientLimit := req.limit;
      if clientLimit == 0 {
        clientLimit := 100;
      }
      var nodeLimit := ToInt32(req.offset + clientLimit);
      if fanOutLimit > nodeLimit {
        nodeLimit := fanOutLimit;
      }
      nodeReq := Request(req.query, req.namespace, req.service, req.start, req.end, nodeLimit, 0);
    }

    /** Computed at this time, for this request, from the replies of the cluster's targets. */
    ghost predicate IsFor(c: Record, req: Request, cs: ClusterState, ask: Ask, at: int) {
      c.req == req && c.targets == Targets(cs) && c.ask == ask && c.at == at
    }

    /** Fan out and merge. */
    method Gather(req: Request, cs: ClusterState, ask: Ask, now: int) returns (out: QueryResult, ghost c: Record)
      requires IsRequest(req)
      ensures Genuine(c, fanOutLimit) && c.result == out && IsFor(c, req, cs, ask, now)
    {
      var nodeReq, clientLimit := NodeQuery(req);
      var targets := ChooseTargets(cs);
      var parts := Collect(targets, ask, nodeReq);
      out := MergeResults(parts, req.offset, clientLimit);
      c := Record(req, targets, ask, parts, out, now);
    }

    /** Execute after a miss: fan out, merge, and cache complete results only. */
    method Compute(req: Request, cs: ClusterState, ask: Ask, now: int) returns (out: QueryResult, ghost c: Record)
      requires Valid() && IsRequest(req)
      modifies this`computed, cache.Repr()
      ensures Valid() && fresh(cache.Repr() - old(cache.Repr()))
      ensures computed == old(computed) + iset{c} && c.result == out && IsFor(c, req, cs, ask, now)
      ensures cache.model == if out.partial then old(cache.model)
                             else CacheModel.Put(old(cache.model), Preimage(req), out, now, cache.maxSize)
    {
      out, c := Gather(req, cs, ask, now);
      Remember(c);
      if !out.partial {
        PutResult(req, out, now, c);
      }
    }

    ghost method Remember(c: Record)
      requires Valid() && Genuine(c, fanOutLimit)
      modifies this`computed
      ensures Valid() && computed == old(computed) + iset{c}
    {
      var before := computed;
      computed := computed + iset{c};
      forall x | x in cache.model ensures Backed(x) {
        var d :| d in before && Preimage(d.req) == x.key && d.result == x.value && d.at == x.at;
        assert d in computed;
      }
    }

    method PutResult(req: Request, out: QueryResult, now: int, ghost c: Record)
      requires Valid() && c in computed && c.req == req && c.result == out && c.at == now && !out.partial
      modifies cache.Repr()
      ensures Valid() && fresh(cache.Repr() - old(cache.Repr()))
      ensures cache.model == CacheModel.Put(old(cache.model), Preimage(req), out, now, cache.maxSize)
    {
      ghost var before := cache.model;
      cache.Put(Preimage(req), out, now);
      PutWithin(before, Preimage(req), out, now, cache.maxSize);
      assert Backed(Slot(Preimage(req), out, now));
    }

    /** Where the answer comes from: on a hit it is the cached one and nothing is computed; a canceled request gets
        none; otherwise one record is computed, for this request and from the targets' replies. */
    ghost predicate Answered(req: Request, cs: ClusterState, ask: Ask, canceled: bool, now: int, later: int,
        before: Slots<QueryResult>, known: iset<Record>, after: Slots<QueryResult>, known': iset<Record>, r: Option<QueryResult>, c: Record)
    {
      var (model, hit) := Got(before, Preimage(req), now, cache.ttl);
      if hit.Some? then
        r == hit && after == model && known' == known && c in known && c.result == r.value && Recalls(c, req, now)
      else if canceled then r == None && after == model && known' == known
      else
        && r == Some(c.result) && known' == known + iset{c} && IsFor(c, req, cs, ask, later)
        && after == if c.result.partial then model else CacheModel.Put(model, Preimage(req), c.result, later, cache.maxSize)
    }

    /** Execute: look up, then fan out unless there is a hit or the request is canceled. */
    method Execute(req: Request, cs: ClusterState, ask: Ask, canceled: bool, now: int, later: int)
      returns (r: Option<QueryResult>, ghost c: Record)
      requires Valid() && IsRequest(req)
      modifies this`computed, cache.Repr()
      ensures Valid() && fresh(cache.Repr() - old(cache.Repr()))
      ensures Answered(req, cs, ask, canceled, now, later, old(cache.model), old(computed), cache.model, computed, r, c)
    {
      r, c := Lookup(req, now);
      if r.Some? {
        return;
      }
      if canceled {
        return None, c;
      }
      var out;
      out, c := Compute(req, cs, ask, later);
      r := Some(out);
    }

    /** What a caller gets. After a miss, when every target replies from its store, the page of one store that holds
        the entries of all targets. After a hit for a request without a bar in its text fields, the same for this very
        request, with the targets and replies of the time it was computed, no longer than the TTL ago. When some
        targets fail, the page of one store with the entries of the others. */
    method Answer(req: Request, cs: ClusterState, ask: Ask, canceled: bool, now: int, later: int)
      returns (r: Option<QueryResult>, ghost c: Record)
      requires Valid() && IsRequest(req) && fanOutLimit <= MAX_INT32
      modifies this`computed, cache.Repr()
      ensures Valid() && fresh(cache.Repr() - old(cache.Repr()))
      ensures Answered(req, cs, ask, canceled, now, later, old(cache.model), old(computed), cache.model, computed, r, c)
      ensures r.Some? ==> InResultOrder(r.value.entries)
      ensures r.Some? && c.req == req && Fits(req) ==> IsOneStore(c, fanOutLimit, r.value)
      ensures Got(old(cache.model), Preimage(req), now, cache.ttl).1.Some? && NoBars(req) ==> c.req == req
      ensures Got(old(cache.model), Preimage(req), now, cache.ttl).1.None? && !canceled ==>
        forall id :: id in c.targets <==> id in cs.nodes && cs.nodes[id].status == Healthy && cs.nodes[id].address != ""
      ensures Got(old(cache.model), Preimage(req), now, cache.ttl).1.None? && !canceled && Fits(req) ==>
        PageOfTargets(c.targets, ask, req, fanOutLimit, r.value)
    {
      r, c := Execute(req, cs, ask, canceled, now, later);
      if r.Some? {
        MergedInOrder(c.parts, c.req.offset, EffectiveLimit(c.req.limit));
      }
      if r.Some? && c.req == req && Fits(req) {
        RecordIsOneStore(c, fanOutLimit);
        RecordIsPage(c, fanOutLimit);
      }
    }
  }

  lemma GotWithin<V>(s: Slots<V>, key: string, now: int, ttl: int)
    ensures forall x :: x in Got(s, key, now, ttl).0 ==> x in s
  {
  }

  lemma PutWithin<V>(s: Slots<V>, key: string, value: V, now: int, maxSize: int)
    ensures forall x :: x in CacheModel.Put(s, key, value, now, maxSize) ==> x in s || x == Slot(key, value, now)
  {
  }
}
