/** Exactly when distributed paging is right: the int32 sum offset + limit must not overflow. */
module Window {
  import opened Ordering
  import opened Entries
  import opened Parser
  import opened Executor
  import opened Coordinator

  /** If the nodes hold `stores` and all answer, the merged page is the page of one big store. */
  ghost predicate PageCorrect(req: Request, fanOutLimit: int, stores: seq<set<Entry>>, parts: seq<Part>)
    requires IsRequest(req)
  {
    Parsed(req.query).Ok? && IdsIdentify(Union(stores)) && RepliesFrom(parts, NodeRequest(req, fanOutLimit), stores) ==>
      Merged(parts, req.offset, EffectiveLimit(req.limit)).entries == FullScan(req, Union(stores)).value.entries
  }

  /** The same for every query and every cluster. */
  ghost predicate WindowCorrect(offset: int, limit: int, fanOutLimit: int) {
    forall req: Request, stores, parts :: IsRequest(req) && req.offset == offset && req.limit == limit ==>
      PageCorrect(req, fanOutLimit, stores, parts)
  }

  /** A node's reply to a request. */
  ghost function Reply(req: Request, store: set<Entry>): (p: Part)
    requires IdsIdentify(store)
    ensures Replied(p, req, store)
  {
    match FullScan(req, store)
    case Success(r) => Answered("", r.entries)
    case Failure(_) => Failed("")
  }

  // ----------------------------------------------- a store with n ranked entries

  function Numbered(i: nat): Entry {
    Entry(seq(i, _ => 'a'), -(i as int), 0, "", "", "", "", map[])
  }

  function Numbers(n: nat): (s: seq<Entry>)
    ensures |s| == n && forall i :: 0 <= i < n ==> s[i] == Numbered(i)
  {
    seq(n, i requires 0 <= i < n => Numbered(i))
  }

  lemma NumbersRanked(n: nat)
    ensures DistinctIds(Numbers(n)) && IdsIdentify(ToSet(Numbers(n)))
    ensures Rank(ToSet(Numbers(n))) == Numbers(n)
  {
    var s := Numbers(n);
    forall i, j | 0 <= i < j < n ensures s[i].id != s[j].id && Before(s[i], s[j]) {
      assert |s[i].id| == i && |s[j].id| == j;
    }
    DistinctIdsIdentify(s);
    RankOf(s);
  }

  lemma AnyMatches(req: Request, s: set<Entry>)
    requires req == ANYTHING.(limit := req.limit, offset := req.offset)
    ensures Parsed(req.query) == Ok(None) && Matching(req, None, s) == s
  {
  }

  lemma PageLength(s: seq<Entry>, offset: nat, limit: nat)
    requires limit > 0
    ensures |Page(s, offset, limit)| ==
      if offset >= |s| then 0 else if |s| - offset < limit then |s| - offset else limit
  {
  }

  function Got(limit: int, n: nat): nat {
    if limit < 0 then 0 else if EffectiveLimit(limit) < n then EffectiveLimit(limit) else n
  }

  /** One node with n numbered entries sends the first of them. */
  lemma OneReply(req: Request, n: nat)
    requires req == ANYTHING.(limit := req.limit) && IdsIdentify(ToSet(Numbers(n)))
    ensures Collected([Reply(req, ToSet(Numbers(n)))]) == Numbers(Got(req.limit, n))
  {
    var part := Reply(req, ToSet(Numbers(n)));
    CollectedOne(part);
    if req.limit < 0 {
      assert Numbers(0) == [];
    } else {
      ScanFirst(req, n);
    }
  }

  lemma CollectedOne(part: Part)
    ensures Collected([part]) == if part.Answered? then part.entries else []
  {
    assert [part][..0] == [];
  }

  lemma FirstNumbers(n: nat, limit: nat)
    requires limit > 0
    ensures Page(Numbers(n), 0, limit) == Numbers(if limit < n then limit else n)
  {
  }

  lemma ScanFirst(req: Request, n: nat)
    requires req == ANYTHING.(limit := req.limit) && req.limit >= 0 && IdsIdentify(ToSet(Numbers(n)))
    ensures FullScan(req, ToSet(Numbers(n))).Success?
    ensures FullScan(req, ToSet(Numbers(n))).value.entries == Numbers(Got(req.limit, n))
  {
    AnyMatches(req, ToSet(Numbers(n)));
    NumbersRanked(n);
    FirstNumbers(n, EffectiveLimit(req.limit));
  }

  lemma MergedLength(parts: seq<Part>, k: nat, offset: nat, limit: nat)
    requires Collected(parts) == Numbers(k) && limit > 0
    ensures |Merged(parts, offset, limit).entries| == if offset >= k then 0 else if k - offset < limit then k - offset else limit
  {
    NumbersRanked(k);
    DedupDistinct(Numbers(k));
    assert Distinctly(parts) == ToSet(Numbers(k));
    PageLength(Numbers(k), offset, limit);
  }

  lemma ScanLength(req: Request, n: nat)
    requires req == ANYTHING.(limit := req.limit, offset := req.offset) && IsRequest(req)
    requires IdsIdentify(ToSet(Numbers(n)))
    ensures FullScan(req, ToSet(Numbers(n))).Success?
    ensures var lim := EffectiveLimit(req.limit);
      |FullScan(req, ToSet(Numbers(n))).value.entries| ==
        if req.offset >= n then 0 else if n - req.offset < lim then n - req.offset else lim
  {
    AnyMatches(req, ToSet(Numbers(n)));
    NumbersRanked(n);
    PageLength(Numbers(n), req.offset, EffectiveLimit(req.limit));
  }

  /** What a node sends when the int32 sum wrapped: never as far as the window reaches. */
  function Sent(offset: nat, limit: nat, fanOutLimit: int): (e: nat)
    requires limit <= MAX_INT32 && offset <= MAX_INT32 && fanOutLimit <= MAX_INT32
    requires offset + EffectiveLimit(limit) > MAX_INT32
    ensures e < offset + EffectiveLimit(limit)
    ensures forall n: nat :: n > e ==> Got(NodeLimit(fanOutLimit, offset, EffectiveLimit(limit)), n) == e
  {
    ToInt32Fits(offset + EffectiveLimit(limit));
    var n := NodeLimit(fanOutLimit, offset, EffectiveLimit(limit));
    if n < 0 then 0 else EffectiveLimit(n)
  }

  /** A node that sends e of n entries, with a window that reaches past e, yields a shorter page. */
  lemma ShortPage(req: Request, nodeReq: Request, n: nat, e: nat)
    requires req == ANYTHING.(limit := req.limit, offset := req.offset) && IsRequest(req)
    requires nodeReq == ANYTHING.(limit := nodeReq.limit) && IdsIdentify(ToSet(Numbers(n)))
    requires Got(nodeReq.limit, n) == e < n && req.offset < n <= req.offset + EffectiveLimit(req.limit)
    ensures Merged([Reply(nodeReq, ToSet(Numbers(n)))], req.offset, EffectiveLimit(req.limit)).entries
         != FullScan(req, ToSet(Numbers(n))).value.entries
  {
    OneReply(nodeReq, n);
    MergedLength([Reply(nodeReq, ToSet(Numbers(n)))], e, req.offset, EffectiveLimit(req.limit));
    ScanLength(req, n);
  }

  /** When offset + limit overflows int32, a store with one entry more than a node sends, or one more
      than the offset, gets a wrong page, whatever the fan-out limit. */
  lemma Overflow(offset: nat, limit: nat, fanOutLimit: int) returns (req: Request, store: set<Entry>)
    requires limit <= MAX_INT32 && offset <= MAX_INT32 && fanOutLimit <= MAX_INT32
    requires offset + EffectiveLimit(limit) > MAX_INT32
    ensures IsRequest(req) && req.offset == offset && req.limit == limit && Parsed(req.query).Ok? && IdsIdentify(store)
    ensures Merged([Reply(NodeRequest(req, fanOutLimit), store)], offset, EffectiveLimit(limit)).entries
         != FullScan(req, store).value.entries
  {
    req := ANYTHING.(limit := limit, offset := offset);
    var e := Sent(offset, limit, fanOutLimit);
    var n := (if e < offset then offset else e) + 1;
    NumbersRanked(n);
    store := ToSet(Numbers(n));
    ShortPage(req, NodeRequest(req, fanOutLimit), n, e);
  }

  lemma UnionOne(store: set<Entry>)
    ensures Union([store]) == store
  {
    assert [store][0] == store;
  }

  lemma WrongPage(req: Request, fanOutLimit: int, store: set<Entry>)
    requires IsRequest(req) && Parsed(req.query).Ok? && IdsIdentify(store)
    requires Merged([Reply(NodeRequest(req, fanOutLimit), store)], req.offset, EffectiveLimit(req.limit)).entries
          != FullScan(req, store).value.entries
    ensures !PageCorrect(req, fanOutLimit, [store], [Reply(NodeRequest(req, fanOutLimit), store)])
  {
    UnionOne(store);
  }

  lemma OverflowBreaks(offset: nat, limit: nat, fanOutLimit: int)
    requires limit <= MAX_INT32 && offset <= MAX_INT32 && fanOutLimit <= MAX_INT32
    requires offset + EffectiveLimit(limit) > MAX_INT32
    ensures !WindowCorrect(offset, limit, fanOutLimit)
  {
    var req, store := Overflow(offset, limit, fanOutLimit);
    WrongPage(req, fanOutLimit, store);
    Counterexample(req, fanOutLimit, [store], [Reply(NodeRequest(req, fanOutLimit), store)]);
  }

  lemma Counterexample(req: Request, fanOutLimit: int, stores: seq<set<Entry>>, parts: seq<Part>)
    requires IsRequest(req)
    ensures !PageCorrect(req, fanOutLimit, stores, parts) ==> !WindowCorrect(req.offset, req.limit, fanOutLimit)
  {
  }

  lemma FitsCorrect(req: Request, fanOutLimit: int, stores: seq<set<Entry>>, parts: seq<Part>)
    requires IsRequest(req) && -0x8000_0000 <= fanOutLimit <= MAX_INT32
    requires req.offset + EffectiveLimit(req.limit) <= MAX_INT32
    ensures PageCorrect(req, fanOutLimit, stores, parts)
  {
    if Parsed(req.query).Ok? && IdsIdentify(Union(stores)) && RepliesFrom(parts, NodeRequest(req, fanOutLimit), stores) {
      FanOutIsOneStore(req, fanOutLimit, stores, parts);
    }
  }

  /** Distributed paging is right for every query and cluster exactly when offset + limit fits in int32. */
  lemma WindowCorrectIff(offset: int, limit: int, fanOutLimit: int)
    requires 0 <= limit <= MAX_INT32 && 0 <= offset <= MAX_INT32
    requires -0x8000_0000 <= fanOutLimit <= MAX_INT32
    ensures WindowCorrect(offset, limit, fanOutLimit) <==> offset + EffectiveLimit(limit) <= MAX_INT32
  {
    if offset + EffectiveLimit(limit) <= MAX_INT32 {
      forall req: Request, stores, parts | IsRequest(req) && req.offset == offset && req.limit == limit
        ensures PageCorrect(req, fanOutLimit, stores, parts)
      {
        FitsCorrect(req, fanOutLimit, stores, parts);
      }
    } else {
      OverflowBreaks(offset, limit, fanOutLimit);
    }
  }
}
