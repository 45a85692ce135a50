/** The coordinator: merging node answers, and distributed paging as one big store.

Each node is asked for the first max(fanOutLimit, offset + limit) matches of its own ranking.
The merged page must be the page of the global ranking over all nodes' entries.
*/
module Coordinator {
  import opened Ordering
  import opened Entries
  import opened Parser
  import opened Executor

  datatype Part = Answered(node: string, entries: seq<Entry>) | Failed(node: string)

  function Collected(parts: seq<Part>): seq<Entry> {
    if parts == [] then []
    else
      var n := |parts| - 1;
      Collected(parts[..n]) + if parts[n].Answered? then parts[n].entries else []
  }

  predicate AnyFailed(parts: seq<Part>) {
    exists i :: 0 <= i < |parts| && parts[i].Failed?
  }

  ghost function Distinctly(parts: seq<Part>): (s: set<Entry>)
    ensures IdsIdentify(s)
  {
    DedupKeeps(Collected(parts));
    DistinctIdsIdentify(Dedup(Collected(parts)));
    ToSet(Dedup(Collected(parts)))
  }

  /** One page of the ranking of everything that was answered, one entry per ID. */
  ghost function Merged(parts: seq<Part>, offset: nat, limit: nat): QueryResult {
    var ranked := Rank(Distinctly(parts));
    QueryResult(Page(ranked, offset, limit), ToInt32(|ranked|), AnyFailed(parts))
  }

  /** Append the entries with a new ID. */
  method AddPart(es: seq<Entry>, had: seq<Entry>, known: set<string>, ghost before: seq<Entry>)
    returns (combined: seq<Entry>, seen: set<string>)
    requires had == Dedup(before) && known == Ids(before)
    ensures combined == Dedup(before + es) && seen == Ids(before + es)
  {
    combined, seen := had, known;
    AppendNone(before);
    assert es[..0] == [];
    for j := 0 to |es|
      invariant combined == Dedup(before + es[..j]) && seen == Ids(before + es[..j])
    {
      TakeNext(es, j);
      Associate(before, es[..j], [es[j]]);
      DedupStep(before + es[..j], es[j]);
      if es[j].id in seen {
        continue;
      }
      seen := seen + {es[j].id};
      combined := combined + [es[j]];
    }
    assert es[..|es|] == es;
  }

  /** The loops of MergeResults: skip failed parts, keep the first entry of every ID. */
  method Combine(parts: seq<Part>) returns (combined: seq<Entry>, partial: bool)
    ensures combined == Dedup(Collected(parts)) && partial == AnyFailed(parts)
  {
    combined, partial := [], false;
    var seen: set<string> := {};
    for i := 0 to |parts|
      invariant combined == Dedup(Collected(parts[..i])) && seen == Ids(Collected(parts[..i]))
      invariant partial == AnyFailed(parts[..i])
    {
      assert parts[..i + 1][..i] == parts[..i];
      assert AnyFailed(parts[..i + 1]) <==> AnyFailed(parts[..i]) || parts[i].Failed? by {
        assert parts[..i + 1][i] == parts[i];
        assert forall j :: 0 <= j < i ==> parts[..i + 1][j] == parts[..i][j];
      }
      if parts[i].Failed? {
        partial := true;
        assert Collected(parts[..i + 1]) == Collected(parts[..i]);
        continue;
      }
      combined, seen := AddPart(parts[i].entries, combined, seen, Collected(parts[..i]));
    }
    assert parts[..|parts|] == parts;
  }

  lemma MergedInOrder(parts: seq<Part>, offset: nat, limit: nat)
    ensures InResultOrder(Merged(parts, offset, limit).entries)
  {
    RankInOrder(Distinctly(parts), offset, limit);
  }

  method MergeResults(parts: seq<Part>, offset: int, limit: int) returns (out: QueryResult)
    requires offset >= 0
    ensures out == Merged(parts, offset, if limit > 0 then limit else 0) && InResultOrder(out.entries)
  {
    MergedInOrder(parts, offset, if limit > 0 then limit else 0);
    var combined, partial := Combine(parts);
    DedupKeeps(Collected(parts));
    BeforeWeak();
    var sorted := Sort(combined, Before);
    SortedIsRank(combined, sorted);
    var total := ToInt32(|sorted|);
    var off := offset;
    if off > |sorted| {
      off := |sorted|;
    }
    sorted := sorted[off..];
    if limit > 0 && limit < |sorted| {
      sorted := sorted[..limit];
    }
    out := QueryResult(sorted, total, partial);
  }

  // ------------------------------------------------------- order independence

  ghost predicate AnsweredBy(e: Entry, p: Part) {
    p.Answered? && e in p.entries
  }

  lemma {:induction false} CollectedMembers(parts: seq<Part>)
    ensures forall e :: e in Collected(parts) <==> exists p :: p in parts && AnsweredBy(e, p)
  {
    if parts != [] {
      var n := |parts| - 1;
      CollectedMembers(parts[..n]);
      SplitLast(parts);
      forall e ensures e in Collected(parts) <==> exists p :: p in parts && AnsweredBy(e, p) {
        if AnsweredBy(e, parts[n]) {
          assert parts[n] in parts;
        }
        if p :| p in parts && AnsweredBy(e, p) {
          assert p in parts[..n] || p == parts[n];
        }
      }
    }
  }

  /** The merged answer does not depend on the order in which nodes answered. */
  lemma MergeOrderIndependent(parts: seq<Part>, parts': seq<Part>, offset: nat, limit: nat)
    requires multiset(parts) == multiset(parts') && IdsIdentify(ToSet(Collected(parts)))
    ensures Merged(parts, offset, limit) == Merged(parts', offset, limit)
  {
    SameElements(parts, parts');
    CollectedMembers(parts);
    CollectedMembers(parts');
    assert forall p :: p in parts <==> p in ToSet(parts);
    assert forall p :: p in parts' <==> p in ToSet(parts');
    FailedMember(parts);
    FailedMember(parts');
    assert ToSet(Collected(parts)) == ToSet(Collected(parts'));
    DedupSet(Collected(parts));
    DedupSet(Collected(parts'));
  }

  lemma FailedMember(parts: seq<Part>)
    ensures AnyFailed(parts) <==> exists p :: p in parts && p.Failed?
  {
  }

  // ------------------------------------------------------------ one big store

  ghost function Union(stores: seq<set<Entry>>): set<Entry> {
    set i, e | 0 <= i < |stores| && e in stores[i] :: e
  }

  lemma PartIdentifies(all: set<Entry>, part: set<Entry>)
    requires IdsIdentify(all) && part <= all
    ensures IdsIdentify(part)
  {
  }

  /** A node's first `n` matches; nothing when IDs are ambiguous. */
  ghost function Top(m: set<Entry>, n: nat): set<Entry> {
    if IdsIdentify(m) then ToSet(Prefix(Rank(m), n)) else {}
  }

  ghost function Tops(ms: seq<set<Entry>>, n: nat): set<Entry> {
    set i, e | 0 <= i < |ms| && e in Top(ms[i], n) :: e
  }

  /** An entry among the first `n` overall is among the first `n` of every node that has it. */
  lemma GlobalTopIsLocalTop(ms: seq<set<Entry>>, n: nat, k: nat)
    requires IdsIdentify(Union(ms)) && k < n && k < |Rank(Union(ms))|
    ensures Rank(Union(ms))[k] in Tops(ms, n)
  {
    var e := Rank(Union(ms))[k];
    assert e in ToSet(Rank(Union(ms)));
    var i :| 0 <= i < |ms| && e in ms[i];
    TopOfPart(ms[i], Union(ms), n, k);
  }

  lemma TopOfPart(m: set<Entry>, u: set<Entry>, n: nat, k: nat)
    requires IdsIdentify(u) && m <= u && k < n && k < |Rank(u)| && Rank(u)[k] in m
    ensures Rank(u)[k] in Top(m, n)
  {
    PartIdentifies(u, m);
    var j := RankPlace(m, u, k);
    assert Prefix(Rank(m), n)[j] == Rank(u)[k];
  }

  lemma TopsWithin(ms: seq<set<Entry>>, n: nat)
    requires IdsIdentify(Union(ms))
    ensures Tops(ms, n) <= Union(ms) && IdsIdentify(Tops(ms, n))
  {
    forall e | e in Tops(ms, n) ensures e in Union(ms) {
      var i :| 0 <= i < |ms| && e in Top(ms[i], n);
      assert e in ToSet(Rank(ms[i]));
    }
  }

  // ----------------------------------------------------------------- fan-out

  /** max(fanOutLimit, offset + clientLimit) in int32 arithmetic. */
  function NodeLimit(fanOutLimit: int, offset: int, limit: int): int {
    var window := ToInt32(offset + limit);
    if fanOutLimit > window then fanOutLimit else window
  }

  function NodeRequest(req: Request, fanOutLimit: int): Request
    requires req.limit >= 0
  {
    req.(limit := NodeLimit(fanOutLimit, req.offset, EffectiveLimit(req.limit)), offset := 0)
  }

  /** The part is what a node with exactly these entries replies. */
  ghost predicate Replied(p: Part, req: Request, store: set<Entry>) {
    IdsIdentify(store) &&
      match FullScan(req, store)
      case Success(r) => p.Answered? && p.entries == r.entries
      case Failure(_) => p.Failed?
  }

  ghost predicate RepliesFrom(parts: seq<Part>, req: Request, stores: seq<set<Entry>>) {
    |parts| == |stores| && forall i :: 0 <= i < |parts| ==> Replied(parts[i], req, stores[i])
  }

  /** The same when some nodes fail: what they hold is out of reach, and counts as nothing. */
  ghost predicate Reached(parts: seq<Part>, req: Request, stores: seq<set<Entry>>) {
    |parts| == |stores| &&
    forall i :: 0 <= i < |parts| ==> if parts[i].Failed? then stores[i] == {} else Replied(parts[i], req, stores[i])
  }

  ghost predicate IsRequest(req: Request) {
    0 <= req.limit <= MAX_INT32 && 0 <= req.offset <= MAX_INT32
  }

  ghost function Matches(req: Request, ast: Option<Node>, stores: seq<set<Entry>>): (ms: seq<set<Entry>>)
    ensures |ms| == |stores| && forall i :: 0 <= i < |ms| ==> ms[i] == Matching(req, ast, stores[i])
  {
    seq(|stores|, i requires 0 <= i < |stores| => Matching(req, ast, stores[i]))
  }

  lemma UnionMatches(req: Request, ast: Option<Node>, stores: seq<set<Entry>>)
    ensures Union(Matches(req, ast, stores)) == Matching(req, ast, Union(stores))
  {
    var ms := Matches(req, ast, stores);
    forall e | e in Matching(req, ast, Union(stores)) ensures e in Union(ms) {
      var i :| 0 <= i < |stores| && e in stores[i];
      assert e in ms[i];
    }
    forall e | e in Union(ms) ensures e in Matching(req, ast, Union(stores)) {
      var i :| 0 <= i < |ms| && e in ms[i];
      assert e in stores[i];
    }
  }

  /** What the nodes answer together is the union of their first `n` matches. */
  lemma RepliesCollect(parts: seq<Part>, req: Request, ast: Option<Node>, stores: seq<set<Entry>>, n: nat)
    requires Reached(parts, req, stores) && Parsed(req.query) == Ok(ast)
    requires req.offset == 0 && req.limit == n && n > 0
    ensures ToSet(Collected(parts)) == Tops(Matches(req, ast, stores), n)
  {
    var ms := Matches(req, ast, stores);
    forall i | 0 <= i < |parts| ensures GivenBy(parts[i]) == Top(ms[i], n) {
      ReachedIsTop(parts[i], req, ast, stores[i], n);
    }
    CollectedMembers(parts);
    TopsCollected(parts, ms, n);
  }

  /** The entries that a part contributes. */
  ghost function GivenBy(p: Part): set<Entry> {
    if p.Answered? then ToSet(p.entries) else {}
  }

  lemma TopsCollected(parts: seq<Part>, ms: seq<set<Entry>>, n: nat)
    requires |parts| == |ms| && forall i :: 0 <= i < |parts| ==> GivenBy(parts[i]) == Top(ms[i], n)
    requires forall e :: e in Collected(parts) <==> exists p :: p in parts && AnsweredBy(e, p)
    ensures ToSet(Collected(parts)) == Tops(ms, n)
  {
    forall e | e in Collected(parts) ensures e in Tops(ms, n) {
      var p :| p in parts && AnsweredBy(e, p);
      var i :| 0 <= i < |parts| && parts[i] == p;
      assert e in GivenBy(parts[i]);
    }
    forall e | e in Tops(ms, n) ensures e in Collected(parts) {
      var i :| 0 <= i < |ms| && e in Top(ms[i], n);
      assert e in GivenBy(parts[i]) && AnsweredBy(e, parts[i]);
    }
  }

  lemma ReachedIsTop(p: Part, req: Request, ast: Option<Node>, store: set<Entry>, n: nat)
    requires if p.Failed? then store == {} else Replied(p, req, store)
    requires Parsed(req.query) == Ok(ast) && req.offset == 0 && req.limit == n && n > 0
    ensures GivenBy(p) == Top(Matching(req, ast, store), n)
  {
    if p.Failed? {
      assert Matching(req, ast, store) == {};
      EmptySet(Rank({}));
    } else {
      ReplyIsTop(p, req, ast, store, n);
    }
  }

  lemma ReplyIsTop(p: Part, req: Request, ast: Option<Node>, store: set<Entry>, n: nat)
    requires Replied(p, req, store) && Parsed(req.query) == Ok(ast)
    requires req.offset == 0 && req.limit == n && n > 0
    ensures p.Answered? && ToSet(p.entries) == Top(Matching(req, ast, store), n)
  {
    var m := Matching(req, ast, store);
    assert m <= store;
    PartIdentifies(store, m);
    assert Page(Rank(m), 0, n) == Prefix(Rank(m), n);
  }

  /** Whichever nodes fail, when offset + limit fits in int32 the page is the page of a single store that holds
      the entries of the nodes that answered. The total is at most the true count, and below it only if it is at least the
      configured fan-out limit and the end of the page. */
  lemma ReachedIsOneStore(req: Request, fanOutLimit: int, stores: seq<set<Entry>>, parts: seq<Part>)
    requires IsRequest(req) && fanOutLimit <= MAX_INT32
    requires IdsIdentify(Union(stores)) && Parsed(req.query).Ok?
    requires req.offset + EffectiveLimit(req.limit) <= MAX_INT32
    requires Reached(parts, NodeRequest(req, fanOutLimit), stores)
    ensures var out, one := Merged(parts, req.offset, EffectiveLimit(req.limit)), FullScan(req, Union(stores)).value;
      && out.entries == one.entries
      && var count := |Matching(req, Parsed(req.query).value, Union(stores))|;
         count <= MAX_INT32 ==>
           out.total <= count && (out.total >= count || (out.total >= fanOutLimit && out.total >= req.offset + EffectiveLimit(req.limit)))
  {
    var ast := Parsed(req.query).value;
    var nodeReq := NodeRequest(req, fanOutLimit);
    ToInt32Fits(req.offset + EffectiveLimit(req.limit));
    SameMatches(req, nodeReq, ast, stores);
    UnionMatches(req, ast, stores);
    PartIdentifies(Union(stores), Matching(req, ast, Union(stores)));
    RepliesCollect(parts, nodeReq, ast, stores, nodeReq.limit);
    MergedTops(parts, Matches(nodeReq, ast, stores), nodeReq.limit, req.offset, EffectiveLimit(req.limit));
  }

  /** When every target answers, this is the page of a single store that holds all entries. */
  lemma FanOutIsOneStore(req: Request, fanOutLimit: int, stores: seq<set<Entry>>, parts: seq<Part>)
    requires IsRequest(req) && fanOutLimit <= MAX_INT32
    requires IdsIdentify(Union(stores)) && Parsed(req.query).Ok?
    requires req.offset + EffectiveLimit(req.limit) <= MAX_INT32
    requires RepliesFrom(parts, NodeRequest(req, fanOutLimit), stores)
    ensures var out, one := Merged(parts, req.offset, EffectiveLimit(req.limit)), FullScan(req, Union(stores)).value;
      && !out.partial && out.entries == one.entries
      && var count := |Matching(req, Parsed(req.query).value, Union(stores))|;
         count <= MAX_INT32 ==>
           out.total <= count && (out.total >= count || (out.total >= fanOutLimit && out.total >= req.offset + EffectiveLimit(req.limit)))
  {
    NoneFailed(req, fanOutLimit, stores, parts);
    ReachedIsOneStore(req, fanOutLimit, stores, parts);
  }

  lemma NoneFailed(req: Request, fanOutLimit: int, stores: seq<set<Entry>>, parts: seq<Part>)
    requires IsRequest(req) && fanOutLimit <= MAX_INT32 && Parsed(req.query).Ok?
    requires req.offset + EffectiveLimit(req.limit) <= MAX_INT32
    requires RepliesFrom(parts, NodeRequest(req, fanOutLimit), stores)
    ensures !AnyFailed(parts) && Reached(parts, NodeRequest(req, fanOutLimit), stores)
  {
    forall i | 0 <= i < |parts| ensures parts[i].Answered? {
      assert Replied(parts[i], NodeRequest(req, fanOutLimit), stores[i]);
    }
  }

  /** Merging the nodes' first `n` gives every page within the first `n` of the global ranking. */
  lemma MergedTops(parts: seq<Part>, ms: seq<set<Entry>>, n: nat, offset: nat, limit: nat)
    requires IdsIdentify(Union(ms)) && ToSet(Collected(parts)) == Tops(ms, n)
    requires 0 < limit && offset + limit <= n
    ensures Merged(parts, offset, limit).entries == Page(Rank(Union(ms)), offset, limit)
    ensures |Union(ms)| <= MAX_INT32 ==> var total := Merged(parts, offset, limit).total;
      total <= |Union(ms)| && (total == |Union(ms)| || total >= n)
  {
    var d, u := Tops(ms, n), Union(ms);
    TopsWithin(ms, n);
    FirstAreTops(ms, n);
    DistinctlyIs(parts, d);
    SameFirst(d, u, n, offset, limit);
    ToInt32Fits(|d|);
    RankCount(d);
  }

  lemma FirstAreTops(ms: seq<set<Entry>>, n: nat)
    requires IdsIdentify(Union(ms))
    ensures forall i :: 0 <= i < n && i < |Rank(Union(ms))| ==> Rank(Union(ms))[i] in Tops(ms, n)
  {
    forall i | 0 <= i < n && i < |Rank(Union(ms))| ensures Rank(Union(ms))[i] in Tops(ms, n) {
      GlobalTopIsLocalTop(ms, n, i);
    }
  }

  lemma DistinctlyIs(parts: seq<Part>, d: set<Entry>)
    requires ToSet(Collected(parts)) == d && IdsIdentify(d)
    ensures Distinctly(parts) == d
  {
    DedupSet(Collected(parts));
  }

  // ------------------------------------------------------------------- pages

  /** Page k of the distributed query, answered with the k-th list of replies. */
  ghost predicate PageReplies(req: Request, fanOutLimit: int, stores: seq<set<Entry>>, replies: seq<seq<Part>>)
    requires req.limit > 0
  {
    forall k :: 0 <= k < |replies| ==>
      RepliesFrom(replies[k], NodeRequest(req.(offset := k * req.limit), fanOutLimit), stores)
  }

  ghost function ClusterPages(req: Request, replies: seq<seq<Part>>): seq<Entry>
    requires req.limit > 0
  {
    if replies == [] then []
    else
      var k := |replies| - 1;
      ClusterPages(req, replies[..k]) + Merged(replies[k], k * req.limit, req.limit).entries
  }

  /** Successive pages of the cluster tile the global ranking: no gap, no repeat. */
  lemma {:induction false} ClusterPagesTile(req: Request, fanOutLimit: int, stores: seq<set<Entry>>, replies: seq<seq<Part>>)
    requires 0 < req.limit <= MAX_INT32 && fanOutLimit <= MAX_INT32 && |replies| * req.limit <= MAX_INT32
    requires IdsIdentify(Union(stores)) && Parsed(req.query).Ok? && PageReplies(req, fanOutLimit, stores, replies)
    ensures IdsIdentify(Matching(req, Parsed(req.query).value, Union(stores)))
    ensures ClusterPages(req, replies) ==
      Pages(Rank(Matching(req, Parsed(req.query).value, Union(stores))), req.limit, |replies|)
  {
    var m := Matching(req, Parsed(req.query).value, Union(stores));
    PartIdentifies(Union(stores), m);
    if replies != [] {
      var k := |replies| - 1;
      var offset := k * req.limit;
      Product(k, req.limit);
      assert PageReplies(req, fanOutLimit, stores, replies[..k]);
      ClusterPagesTile(req, fanOutLimit, stores, replies[..k]);
      OnePage(req, fanOutLimit, stores, replies[k], offset);
    }
  }

  lemma Product(a: nat, b: nat)
    ensures a * b >= 0 && (a + 1) * b == a * b + b
  {
  }

  lemma OnePage(req: Request, fanOutLimit: int, stores: seq<set<Entry>>, parts: seq<Part>, offset: nat)
    requires 0 < req.limit && fanOutLimit <= MAX_INT32 && offset + req.limit <= MAX_INT32
    requires IdsIdentify(Union(stores)) && Parsed(req.query).Ok?
    requires RepliesFrom(parts, NodeRequest(req.(offset := offset), fanOutLimit), stores)
    requires IdsIdentify(Matching(req, Parsed(req.query).value, Union(stores)))
    ensures Merged(parts, offset, req.limit).entries ==
      Page(Rank(Matching(req, Parsed(req.query).value, Union(stores))), offset, req.limit)
  {
    var page := req.(offset := offset);
    FanOutIsOneStore(page, fanOutLimit, stores, parts);
    SameAccepted(req, page, Parsed(req.query).value, Union(stores));
  }

  lemma SameAccepted(req: Request, other: Request, ast: Option<Node>, all: set<Entry>)
    requires other == req.(limit := other.limit, offset := other.offset)
    ensures Matching(other, ast, all) == Matching(req, ast, all)
  {
    assert forall e :: Accepts(other, ast, e) <==> Accepts(req, ast, e);
  }

  lemma SameMatches(req: Request, nodeReq: Request, ast: Option<Node>, stores: seq<set<Entry>>)
    requires nodeReq == req.(limit := nodeReq.limit, offset := nodeReq.offset)
    ensures Matches(nodeReq, ast, stores) == Matches(req, ast, stores)
  {
    assert forall e :: Accepts(nodeReq, ast, e) <==> Accepts(req, ast, e);
    forall i | 0 <= i < |stores| ensures Matching(nodeReq, ast, stores[i]) == Matching(req, ast, stores[i]) {
    }
  }
}
