/** Local query execution: index pruning, bloom pruning, read, deduplicate, filter, sort, page.

The reference is `FullScan`: look at every entry on disk, keep the matching ones, rank them
and cut the page. `Execute` must return the same answer although it reads far less.
*/
module Executor {
  import opened Ordering
  import opened Entries
  import opened Text
  import opened Parser
  import opened Index

  const DEFAULT_LIMIT: nat := 100

  datatype Request = Request(
    query: string,
    namespace: string,
    service: string,
    start: int,
    end: int,
    limit: int,
    offset: int)

  datatype QueryResult = QueryResult(entries: seq<Entry>, total: int, partial: bool)

  datatype Outcome<+T> = Success(value: T) | Failure(reason: Reason)
  datatype Reason = NegativeLimit | NegativeOffset | BadQuery(error: ParseError) | Canceled | ReadFailed

  /** A bloom filter is a set of strings that contains at least what was added to it. */
  type Bloom = set<string>

  // ---------------------------------------------------------------- matching

  predicate MatchField(e: Entry, field: string, value: string) {
    var f := ToLower(field);
    if f == "level" then EqualFold(e.level, value)
    else if f == "service" then e.service == value
    else if f == "namespace" then e.namespace == value
    else if f == "message" then ToLower(value) in Tokens(e.message)
    else (if field in e.fields then e.fields[field] else "") == value
  }

  predicate MatchesNode(e: Entry, node: Node) {
    match node
    case And(l, r) => MatchesNode(e, l) && MatchesNode(e, r)
    case Or(l, r) => MatchesNode(e, l) || MatchesNode(e, r)
    case Term(t) => t in Tokens(e.message)
    case Field(f, v) => MatchField(e, f, v)
  }

  predicate MatchesAst(e: Entry, ast: Option<Node>) {
    ast.Some? ==> MatchesNode(e, ast.value)
  }

  /** The request accepts the entry: query, namespace, service and time range. */
  predicate Accepts(req: Request, ast: Option<Node>, e: Entry) {
    && (req.namespace == "" || e.namespace == req.namespace)
    && (req.service == "" || e.service == req.service)
    && MatchesAst(e, ast)
    && (req.start > 0 ==> e.timestamp >= req.start)
    && (req.end > 0 ==> e.timestamp <= req.end)
  }

  /** Tokens every match must contain: the terms that are not under an OR. */
  function CollectTermTokens(node: Node): seq<string> {
    match node
    case And(l, r) => CollectTermTokens(l) + CollectTermTokens(r)
    case Or(_, _) => []
    case Term(t) => [t]
    case Field(_, _) => []
  }

  function IndexTokens(ast: Option<Node>): seq<string> {
    if ast.Some? then CollectTermTokens(ast.value) else []
  }

  lemma {:induction false} RequiredTokens(e: Entry, node: Node)
    requires MatchesNode(e, node)
    ensures forall t :: t in CollectTermTokens(node) ==> t in Tokens(e.message)
  {
    match node
    case And(l, r) =>
      RequiredTokens(e, l);
      RequiredTokens(e, r);
    case Or(_, _) =>
    case Term(_) =>
    case Field(_, _) =>
  }

  // ------------------------------------------------------------------ blooms

  /** tokenizeEntry: what a segment's bloom filter holds of one entry. */
  function TokenizeEntry(e: Entry): seq<string> {
    Tokens(e.message) + [ToLower(e.level), ToLower(e.service), ToLower(e.namespace)]
  }

  function BloomTokens(es: seq<Entry>): set<string> {
    set e, t | e in es && t in TokenizeEntry(e) :: t
  }

  predicate BloomDefiniteMiss(bf: Bloom, node: Node) {
    match node
    case And(l, r) => BloomDefiniteMiss(bf, l) || BloomDefiniteMiss(bf, r)
    case Or(_, _) => false
    case Term(t) => t !in bf
    case Field(_, v) => ToLower(v) !in bf
  }

  predicate IsBuiltinField(field: string) {
    ToLower(field) in {"level", "service", "namespace", "message"}
  }

  /** Values of custom fields that every match must carry; blooms never hold them. */
  function CustomValues(node: Node): set<string> {
    match node
    case And(l, r) => CustomValues(l) + CustomValues(r)
    case Or(_, _) => {}
    case Term(_) => {}
    case Field(f, v) => if IsBuiltinField(f) then {} else {ToLower(v)}
  }

  lemma BuiltinInBloom(e: Entry, field: string, value: string)
    requires IsBuiltinField(field) && MatchField(e, field, value)
    ensures ToLower(value) in TokenizeEntry(e)
  {
    var tail := [ToLower(e.level), ToLower(e.service), ToLower(e.namespace)];
    assert forall t :: t in tail ==> t in TokenizeEntry(e);
    if ToLower(field) == "level" {
      assert ToLower(value) == ToLower(e.level);
      assert tail[0] in tail;
    } else if ToLower(field) == "service" {
      assert tail[1] in tail;
    } else if ToLower(field) == "namespace" {
      assert tail[2] in tail;
    }
  }

  /** With a matching entry in the segment, the bloom test drops the segment exactly when the
      filter lacks the value of a required custom field. */
  lemma {:induction false} BloomMissExactly(bf: Bloom, e: Entry, node: Node)
    requires MatchesNode(e, node) && ToSet(TokenizeEntry(e)) <= bf
    ensures BloomDefiniteMiss(bf, node) <==> !(CustomValues(node) <= bf)
  {
    match node
    case And(l, r) =>
      BloomMissExactly(bf, e, l);
      BloomMissExactly(bf, e, r);
    case Or(_, _) =>
    case Term(t) =>
      assert t in ToSet(TokenizeEntry(e));
    case Field(f, v) =>
      if IsBuiltinField(f) {
        BuiltinInBloom(e, f, v);
        assert ToLower(v) in ToSet(TokenizeEntry(e));
      } else {
        assert ToLower(v) in CustomValues(node);
      }
  }

  /** Queries without required custom fields never lose a match to bloom pruning. */
  lemma BloomNeverLoses(bf: Bloom, es: seq<Entry>, e: Entry, node: Node)
    requires CustomValues(node) == {}
    requires BloomTokens(es) <= bf && e in es && MatchesNode(e, node)
    ensures !BloomDefiniteMiss(bf, node)
  {
    assert forall t :: t in TokenizeEntry(e) ==> t in BloomTokens(es);
    BloomMissExactly(bf, e, node);
  }

  /** A custom field filter does lose matches: the filter built from this segment rules it out. */
  lemma BloomLosesCustomField()
    ensures exists es: seq<Entry>, e: Entry, node: Node ::
      e in es && MatchesNode(e, node) && BloomDefiniteMiss(BloomTokens(es), node)
  {
    var e := Entry("1", 1, 1, "ns", "svc", "info", "", map["user" := "bob"]);
    var node := Field("user", "bob");
    assert "user"[0] != "level"[0] && "user"[0] != "service"[0] && "user"[0] != "namespace"[0] && "user"[0] != "message"[0];
    assert ToLower("user") == "user" && ToLower("bob") == "bob";
    assert MatchesNode(e, node);
    assert Tokens("") == [];
    assert ToLower("info")[0] == 'i' && ToLower("svc")[0] == 's' && ToLower("ns")[0] == 'n' && "bob"[0] == 'b';
    assert TokenizeEntry(e) == [ToLower("info"), ToLower("svc"), ToLower("ns")];
    assert "bob" !in TokenizeEntry(e);
    assert forall t :: t in BloomTokens([e]) ==> t in TokenizeEntry(e);
    assert e in [e];
  }

  // --------------------------------------------------------------- reference

  ghost function EntriesOf(disk: Contents): set<Entry> {
    set p, e | p in disk && e in disk[p] :: e
  }

  ghost function Matching(req: Request, ast: Option<Node>, all: set<Entry>): set<Entry> {
    set e | e in all && Accepts(req, ast, e)
  }

  function EffectiveLimit(limit: nat): nat {
    if limit == 0 then DEFAULT_LIMIT else limit
  }

  ghost function ScanResult(req: Request, ast: Option<Node>, all: set<Entry>): QueryResult
    requires IdsIdentify(all) && req.limit >= 0 && req.offset >= 0
  {
    AnswerFrom(req, ast, Matching(req, ast, all))
  }

  /** The answer of a store that holds exactly `all` and looks at every entry. */
  ghost function FullScan(req: Request, all: set<Entry>): Outcome<QueryResult>
    requires IdsIdentify(all)
  {
    if req.limit < 0 then Failure(NegativeLimit)
    else if req.offset < 0 then Failure(NegativeOffset)
    else
      match Parsed(req.query)
      case Err(e) => Failure(BadQuery(e))
      case Ok(ast) => Success(ScanResult(req, ast, all))
  }

  // --------------------------------------------------------------- execution

  /** ReadSegments: the entries of the paths in order. Paths not on disk are skipped; a file that cannot be
      read fails the whole call. */
  method ReadSegmentsOr(paths: seq<Path>, disk: Contents, broken: set<Path>) returns (all: Option<seq<Entry>>)
    ensures all == if ReadFails(paths, disk, broken) then None else Some(Log(paths, disk))
  {
    var out: seq<Entry> := [];
    for i := 0 to |paths|
      invariant out == Log(paths[..i], disk) && !ReadFails(paths[..i], disk, broken)
    {
      assert paths[..i + 1][..i] == paths[..i];
      TakeNext(paths, i);
      if paths[i] !in disk {
        continue;
      }
      if paths[i] in broken {
        assert paths[i] in paths;
        return None;
      }
      out := out + disk[paths[i]];
    }
    assert paths[..|paths|] == paths;
    all := Some(out);
  }

  /** The same on readable files. */
  method ReadSegments(paths: seq<Path>, disk: Contents) returns (all: seq<Entry>)
    ensures all == Log(paths, disk)
  {
    var r := ReadSegmentsOr(paths, disk, {});
    all := r.value;
  }

  function Log(paths: seq<Path>, disk: Contents): seq<Entry> {
    if paths == [] then []
    else
      var n := |paths| - 1;
      Log(paths[..n], disk) + At(disk, paths[n])
  }

  lemma {:induction false} LogMembers(paths: seq<Path>, disk: Contents)
    ensures forall e :: e in Log(paths, disk) <==> exists p :: p in paths && e in At(disk, p)
  {
    if paths != [] {
      var n := |paths| - 1;
      LogMembers(paths[..n], disk);
      SplitLast(paths);
      forall e ensures e in Log(paths, disk) <==> exists p :: p in paths && e in At(disk, p) {
        if e in At(disk, paths[n]) {
          assert paths[n] in paths;
        }
        if p :| p in paths && e in At(disk, p) {
          assert p in paths[..n] || p == paths[n];
        }
      }
    }
  }

  /** Compact `raw` in place so that its first `j` places hold the first entry of every ID. */
  method DedupInPlace(raw: array<Entry>) returns (j: nat)
    modifies raw
    ensures j <= raw.Length && raw[..j] == Dedup(old(raw[..]))
  {
    var seen: set<string> := {};
    j := 0;
    ghost var was := raw[..];
    ghost var done: seq<Entry> := [];
    for i := 0 to raw.Length
      invariant j <= i && done == was[..i]
      invariant forall k :: i <= k < raw.Length ==> raw[k] == was[k]
      invariant seen == Ids(done)
      invariant raw[..j] == Dedup(done)
    {
      var entry := raw[i];
      ghost var before := raw[..j];
      DedupStep(done, entry);
      if entry.id !in seen {
        seen := seen + {entry.id};
        raw[j] := entry;
        j := j + 1;
        assert raw[..j] == before + [entry];
      }
      done := done + [entry];
    }
    assert done == was;
  }

  function Filtered(req: Request, ast: Option<Node>, s: seq<Entry>): seq<Entry> {
    Keep(s, e => Accepts(req, ast, e))
  }

  lemma FilteredKeeps(req: Request, ast: Option<Node>, s: seq<Entry>)
    ensures forall e :: e in Filtered(req, ast, s) <==> e in s && Accepts(req, ast, e)
    ensures DistinctIds(s) ==> DistinctIds(Filtered(req, ast, s))
  {
    KeepMembers(s, e => Accepts(req, ast, e));
    KeepDistinctIds(s, e => Accepts(req, ast, e));
  }

  method Filter(req: Request, ast: Option<Node>, raw: seq<Entry>) returns (out: seq<Entry>)
    ensures out == Filtered(req, ast, raw)
  {
    out := [];
    for i := 0 to |raw|
      invariant out == Filtered(req, ast, raw[..i])
    {
      KeepNext(raw, i, e => Accepts(req, ast, e));
      var e := raw[i];
      if req.namespace != "" && e.namespace != req.namespace {
        continue;
      }
      if req.service != "" && e.service != req.service {
        continue;
      }
      if !MatchesAst(e, ast) {
        continue;
      }
      if req.start > 0 && e.timestamp < req.start {
        continue;
      }
      if req.end > 0 && e.timestamp > req.end {
        continue;
      }
      out := out + [e];
    }
    assert raw[..|raw|] == raw;
  }

  /** Skip the segments whose bloom filter rules out a match. */
  method BloomPrune(paths: seq<Path>, ast: Option<Node>, blooms: map<Path, Bloom>) returns (kept: seq<Path>)
    requires Ascending(paths, Below)
    ensures Ascending(kept, Below)
    ensures forall p :: p in kept <==> p in paths && !Skipped(p, ast, blooms)
  {
    kept := [];
    for i := 0 to |paths|
      invariant Ascending(kept, Below)
      invariant forall p :: p in kept <==> p in paths[..i] && !Skipped(p, ast, blooms)
    {
      TakeNext(paths, i);
      assert forall p :: p in kept ==> Below(p, paths[i]);
      if paths[i] in blooms && ast.Some? && BloomDefiniteMiss(blooms[paths[i]], ast.value) {
        continue;
      }
      kept := kept + [paths[i]];
    }
    assert paths[..|paths|] == paths;
  }

  predicate Skipped(p: Path, ast: Option<Node>, blooms: map<Path, Bloom>) {
    p in blooms && ast.Some? && BloomDefiniteMiss(blooms[p], ast.value)
  }

  /** The segments whose bloom filter lets the query through. */
  function Visible(disk: Contents, ast: Option<Node>, blooms: map<Path, Bloom>): Contents {
    map p | p in disk && !Skipped(p, ast, blooms) :: disk[p]
  }

  /** The paths a query reads, by what the index says of them. */
  ghost predicate Kept(kept: seq<Path>, req: Request, ast: Option<Node>, c: Contents, blooms: map<Path, Bloom>) {
    && Ascending(kept, Below)
    && forall p :: p in kept <==>
         && Candidate(At(c, p), IndexTokens(ast), req.namespace, req.service, req.start, req.end)
         && !Skipped(p, ast, blooms)
  }

  /** A segment with an accepted entry passes every pruning test of the index. */
  lemma AcceptedIsCandidate(req: Request, ast: Option<Node>, es: seq<Entry>, e: Entry)
    requires e in es && Accepts(req, ast, e)
    ensures Candidate(es, IndexTokens(ast), req.namespace, req.service, req.start, req.end)
  {
    if ast.Some? {
      RequiredTokens(e, ast.value);
    }
    forall t | t in IndexTokens(ast) ensures Holds(Token, es, t) {
      assert Filed(Token, e, t);
    }
    assert req.start > 0 ==> SomeFrom(es, req.start);
    assert req.end > 0 ==> SomeUntil(es, req.end);
    if req.namespace != "" {
      assert Filed(Namespace, e, req.namespace);
    }
    if req.service != "" {
      assert Filed(Service, e, req.service);
    }
  }

  /** The index contents are those of the disk, and perhaps of paths that are no longer on disk. */
  ghost predicate Describes(c: Contents, disk: Contents) {
    forall p :: p in disk ==> At(c, p) == disk[p]
  }

  /** The matches in the read segments are all matches in the visible segments. */
  lemma PrunedReadFindsAll(req: Request, ast: Option<Node>, c: Contents, disk: Contents, blooms: map<Path, Bloom>, kept: seq<Path>)
    requires Describes(c, disk) && Kept(kept, req, ast, c, blooms)
    ensures ToSet(Log(kept, disk)) <= EntriesOf(disk)
    ensures Matching(req, ast, ToSet(Log(kept, disk))) == Matching(req, ast, EntriesOf(Visible(disk, ast, blooms)))
  {
    var visible := Visible(disk, ast, blooms);
    LogMembers(kept, disk);
    forall e | e in EntriesOf(visible) && Accepts(req, ast, e) ensures e in Log(kept, disk) {
      var p :| p in visible && e in visible[p];
      AcceptedIsCandidate(req, ast, disk[p], e);
      assert p in kept;
    }
    forall e | e in Log(kept, disk) ensures e in EntriesOf(disk) && e in EntriesOf(visible) {
      var p :| p in kept && e in At(disk, p);
      assert p in disk && visible[p] == disk[p];
    }
  }

  /** The entry is in a segment without a filter, or with one that holds all its tokens. */
  ghost predicate FoundAt(e: Entry, disk: Contents, blooms: map<Path, Bloom>, p: Path) {
    e in At(disk, p) && (p in blooms ==> ToSet(TokenizeEntry(e)) <= blooms[p])
  }

  ghost predicate Found(e: Entry, disk: Contents, blooms: map<Path, Bloom>) {
    exists p :: FoundAt(e, disk, blooms, p)
  }

  /** Every entry is found in some segment, though a filter beside another copy may lack its tokens. */
  ghost predicate Covered(disk: Contents, blooms: map<Path, Bloom>) {
    forall e :: e in EntriesOf(disk) ==> Found(e, disk, blooms)
  }

  /** Pruning hides no found match of a query without required custom fields. */
  lemma FoundIsVisible(req: Request, ast: Option<Node>, disk: Contents, blooms: map<Path, Bloom>, e: Entry)
    requires Found(e, disk, blooms) && Accepts(req, ast, e) && (ast.Some? ==> CustomValues(ast.value) == {})
    ensures e in EntriesOf(Visible(disk, ast, blooms))
  {
    var p :| FoundAt(e, disk, blooms, p);
    if ast.Some? && p in blooms {
      BloomMissExactly(blooms[p], e, ast.value);
    }
    assert p in disk && e in Visible(disk, ast, blooms)[p];
  }

  lemma VisibleWithin(disk: Contents, ast: Option<Node>, blooms: map<Path, Bloom>)
    ensures EntriesOf(Visible(disk, ast, blooms)) <= EntriesOf(disk)
  {
    forall e | e in EntriesOf(Visible(disk, ast, blooms)) ensures e in EntriesOf(disk) {
      var p :| p in Visible(disk, ast, blooms) && e in Visible(disk, ast, blooms)[p];
      assert p in disk && e in disk[p];
    }
  }

  lemma VisibleFindsAll(req: Request, ast: Option<Node>, disk: Contents, blooms: map<Path, Bloom>)
    requires Covered(disk, blooms) && (ast.Some? ==> CustomValues(ast.value) == {})
    ensures Matching(req, ast, EntriesOf(Visible(disk, ast, blooms))) == Matching(req, ast, EntriesOf(disk))
  {
    VisibleWithin(disk, ast, blooms);
    forall e | e in EntriesOf(disk) && Accepts(req, ast, e) ensures e in EntriesOf(Visible(disk, ast, blooms)) {
      FoundIsVisible(req, ast, disk, blooms, e);
    }
  }

  /** The conjunction of the terms and of `rest`. */
  function AllTerms(tokens: seq<string>, rest: Node): Node {
    if tokens == [] then rest
    else And(AllTerms(tokens[..|tokens| - 1], rest), Term(tokens[|tokens| - 1]))
  }

  /** The query that asks for every token the filters hold of an entry. */
  function Fingerprint(e: Entry): Node {
    AllTerms(Tokens(e.message), And(And(Field("level", e.level), Field("service", e.service)), Field("namespace", e.namespace)))
  }

  lemma {:induction false} AllTermsMiss(bf: Bloom, tokens: seq<string>, rest: Node)
    ensures BloomDefiniteMiss(bf, AllTerms(tokens, rest)) <==> BloomDefiniteMiss(bf, rest) || !(ToSet(tokens) <= bf)
    ensures CustomValues(AllTerms(tokens, rest)) == CustomValues(rest)
  {
    if tokens != [] {
      var n := |tokens| - 1;
      AllTermsMiss(bf, tokens[..n], rest);
      SplitLast(tokens);
      ToSetConcat(tokens[..n], [tokens[n]]);
      assert ToSet([tokens[n]]) == {tokens[n]};
    }
  }

  lemma {:induction false} AllTermsMatch(e: Entry, tokens: seq<string>, rest: Node)
    requires MatchesNode(e, rest) && forall t :: t in tokens ==> t in Tokens(e.message)
    ensures MatchesNode(e, AllTerms(tokens, rest))
  {
    if tokens != [] {
      SplitLast(tokens);
      AllTermsMatch(e, tokens[..|tokens| - 1], rest);
    }
  }

  lemma BuiltinNames()
    ensures ToLower("level") == "level" && ToLower("service") == "service" && ToLower("namespace") == "namespace"
    ensures "service" != "level" && "namespace" != "level" && "namespace" != "service"
  {
    assert |"level"| == 5 && |"service"| == 7 && |"namespace"| == 9;
  }

  lemma FingerprintExact(e: Entry, bf: Bloom)
    ensures MatchesNode(e, Fingerprint(e)) && CustomValues(Fingerprint(e)) == {}
    ensures BloomDefiniteMiss(bf, Fingerprint(e)) <==> !(ToSet(TokenizeEntry(e)) <= bf)
  {
    var l, s, n := Field("level", e.level), Field("service", e.service), Field("namespace", e.namespace);
    var rest := And(And(l, s), n);
    BuiltinNames();
    assert CustomValues(l) == {} && CustomValues(s) == {} && CustomValues(n) == {};
    assert MatchesNode(e, l) && MatchesNode(e, s) && MatchesNode(e, n);
    assert CustomValues(And(l, s)) == {} && MatchesNode(e, And(l, s));
    assert BloomDefiniteMiss(bf, And(l, s)) <==> ToLower(e.level) !in bf || ToLower(e.service) !in bf;
    AllTermsMiss(bf, Tokens(e.message), rest);
    AllTermsMatch(e, Tokens(e.message), rest);
    var tail := [ToLower(e.level), ToLower(e.service), ToLower(e.namespace)];
    ToSetConcat(Tokens(e.message), tail);
    assert ToSet(tail) == {ToLower(e.level), ToLower(e.service), ToLower(e.namespace)};
  }

  const ANYTHING := Request("", "", "", 0, 0, 0, 0)

  /** Filters hide no match of any query without required custom fields if and only if every entry is in some
      segment whose filter, if any, holds all its tokens. */
  lemma HarmlessIffCovered(disk: Contents, blooms: map<Path, Bloom>)
    ensures Covered(disk, blooms) <==>
      forall req, ast: Option<Node> :: (ast.Some? ==> CustomValues(ast.value) == {}) ==>
        Matching(req, ast, EntriesOf(Visible(disk, ast, blooms))) == Matching(req, ast, EntriesOf(disk))
  {
    if Covered(disk, blooms) {
      forall req, ast: Option<Node> | ast.Some? ==> CustomValues(ast.value) == {}
        ensures Matching(req, ast, EntriesOf(Visible(disk, ast, blooms))) == Matching(req, ast, EntriesOf(disk))
      {
        VisibleFindsAll(req, ast, disk, blooms);
      }
    } else {
      var e :| e in EntriesOf(disk) && !Found(e, disk, blooms);
      Hidden(e, disk, blooms);
    }
  }

  /** An entry that is found nowhere is hidden from its own fingerprint. */
  lemma Hidden(e: Entry, disk: Contents, blooms: map<Path, Bloom>)
    requires e in EntriesOf(disk) && !Found(e, disk, blooms)
    ensures var ast := Some(Fingerprint(e));
      && CustomValues(ast.value) == {}
      && Matching(ANYTHING, ast, EntriesOf(Visible(disk, ast, blooms))) != Matching(ANYTHING, ast, EntriesOf(disk))
  {
    var ast := Some(Fingerprint(e));
    FingerprintExact(e, {});
    assert e in Matching(ANYTHING, ast, EntriesOf(disk));
    if e in EntriesOf(Visible(disk, ast, blooms)) {
      var p :| p in Visible(disk, ast, blooms) && e in Visible(disk, ast, blooms)[p];
      if p in blooms {
        FingerprintExact(e, blooms[p]);
      }
      assert FoundAt(e, disk, blooms, p);
    }
  }

  /** The entries that survive deduplication and filtering of what was read. */
  ghost function Survivors(req: Request, ast: Option<Node>, raw: seq<Entry>): (s: set<Entry>)
    ensures IdsIdentify(s)
  {
    DedupKeeps(raw);
    FilteredKeeps(req, ast, Dedup(raw));
    DistinctIdsIdentify(Filtered(req, ast, Dedup(raw)));
    ToSet(Filtered(req, ast, Dedup(raw)))
  }

  lemma SurvivorsMatch(req: Request, ast: Option<Node>, raw: seq<Entry>)
    requires IdsIdentify(ToSet(raw))
    ensures Survivors(req, ast, raw) == Matching(req, ast, ToSet(raw))
  {
    DedupSet(raw);
    FilteredKeeps(req, ast, Dedup(raw));
    assert forall e :: e in Dedup(raw) <==> e in ToSet(Dedup(raw));
  }

  ghost function AnswerFrom(req: Request, ast: Option<Node>, s: set<Entry>): QueryResult
    requires IdsIdentify(s) && req.limit >= 0 && req.offset >= 0
  {
    var ranked := Rank(s);
    QueryResult(Page(ranked, req.offset, EffectiveLimit(req.limit)), ToInt32(|ranked|), false)
  }

  /** A page has as many entries as the limit, 100 by default, or as the offset leaves. */
  lemma PageLength(req: Request, ast: Option<Node>, s: set<Entry>)
    requires IdsIdentify(s) && req.limit >= 0 && req.offset >= 0
    ensures var limit := if req.limit == 0 then 100 else req.limit; var n := |AnswerFrom(req, ast, s).entries|;
      n == if |s| <= req.offset then 0 else if |s| - req.offset < limit then |s| - req.offset else limit
  {
    RankCount(s);
  }

  /** Deduplicate in place, filter and sort. */
  method RankSurvivors(req: Request, ast: Option<Node>, raw: seq<Entry>) returns (ranked: seq<Entry>)
    ensures ranked == Rank(Survivors(req, ast, raw))
  {
    var buffer := new Entry[|raw|](i requires 0 <= i < |raw| => raw[i]);
    assert buffer[..] == raw;
    var j := DedupInPlace(buffer);
    var filtered := Filter(req, ast, buffer[..j]);
    BeforeWeak();
    ranked := Sort(filtered, Before);
    DedupKeeps(raw);
    FilteredKeeps(req, ast, Dedup(raw));
    SortedIsRank(filtered, ranked);
  }

  method CutPage(ranked: seq<Entry>, offset: nat, limit: nat) returns (page: seq<Entry>)
    requires limit > 0
    ensures page == Page(ranked, offset, limit)
  {
    var off := offset;
    if off > |ranked| {
      off := |ranked|;
    }
    page := ranked[off..];
    var n := limit;
    if n > |page| {
      n := |page|;
    }
    page := page[..n];
  }

  /** What can go wrong around a query: cancellation before and after resolving, and files that cannot be read. */
  datatype Faults = Faults(canceled: bool, canceledLater: bool, broken: set<Path>)

  const NO_FAULTS := Faults(false, false, {})

  ghost predicate ReadFails(paths: seq<Path>, disk: Contents, broken: set<Path>) {
    exists p :: p in paths && p in disk && p in broken
  }

  /** What a query must answer, given the segments it read and the faults it met. */
  ghost predicate AnswersUnder(req: Request, kept: seq<Path>, disk: Contents, faults: Faults, r: Outcome<QueryResult>) {
    if req.limit < 0 then r == Failure(NegativeLimit)
    else if req.offset < 0 then r == Failure(NegativeOffset)
    else if faults.canceled then r == Failure(Canceled)
    else if Parsed(req.query).Err? then r == Failure(BadQuery(Parsed(req.query).error))
    else if kept != [] && faults.canceledLater then r == Failure(Canceled)
    else if ReadFails(kept, disk, faults.broken) then r == Failure(ReadFailed)
    else Answers(req, Log(kept, disk), r)
  }

  /** The same without faults. */
  ghost predicate Answers(req: Request, raw: seq<Entry>, r: Outcome<QueryResult>) {
    if req.limit < 0 then r == Failure(NegativeLimit)
    else if req.offset < 0 then r == Failure(NegativeOffset)
    else
      match Parsed(req.query)
      case Err(e) => r == Failure(BadQuery(e))
      case Ok(ast) => r == Success(AnswerFrom(req, ast, Survivors(req, ast, raw)))
  }

  /** The request is well formed and was not canceled before it was parsed. */
  predicate Proceeds(req: Request, faults: Faults) {
    req.limit >= 0 && req.offset >= 0 && !faults.canceled && Parsed(req.query).Ok?
  }

  /** LocalExecutor.Execute. The index describes `c`, the segment files hold `disk`. */
  method Execute(req: Request, idx: Index, ghost c: Contents, disk: Contents, blooms: map<Path, Bloom>, faults: Faults)
    returns (r: Outcome<QueryResult>, kept: seq<Path>)
    requires idx.Agrees(c)
    ensures AnswersUnder(req, kept, disk, faults, r)
    ensures Proceeds(req, faults) ==> Kept(kept, req, Parsed(req.query).value, c, blooms)
    ensures r.Success? ==> InResultOrder(r.value.entries)
  {
    kept := [];
    if req.limit < 0 {
      return Failure(NegativeLimit), [];
    }
    var limit := if req.limit == 0 then DEFAULT_LIMIT else req.limit;
    if req.offset < 0 {
      return Failure(NegativeOffset), [];
    }
    if faults.canceled {
      return Failure(Canceled), [];
    }
    var parsed := Parse(req.query);
    if parsed.Err? {
      return Failure(BadQuery(parsed.error)), [];
    }
    var ast := parsed.value;
    var paths := idx.Resolve(IndexTokens(ast), req.namespace, req.service, req.start, req.end, c);
    var pruned := BloomPrune(paths, ast, blooms);
    if pruned != [] && faults.canceledLater {
      return Failure(Canceled), pruned;
    }
    var raw := ReadSegmentsOr(pruned, disk, faults.broken);
    if raw.None? {
      return Failure(ReadFailed), pruned;
    }
    var ranked := RankSurvivors(req, ast, raw.value);
    var page := CutPage(ranked, req.offset, limit);
    RankInOrder(Survivors(req, ast, raw.value), req.offset, limit);
    r := Success(QueryResult(page, ToInt32(|ranked|), false));
    kept := pruned;
  }

  /** Filters are off, or they cover the disk and the query requires no custom field. */
  ghost predicate BloomsHarmless(ast: Option<Node>, disk: Contents, blooms: map<Path, Bloom>) {
    blooms == map[] || (Covered(disk, blooms) && (ast.Some? ==> CustomValues(ast.value) == {}))
  }

  /** When the index describes the disk, an answer is the full scan of the visible segments,
      and the full scan of the whole disk when the blooms are harmless. Paths that the index still has although their
      files are gone change nothing. */
  lemma ExecuteIsFullScan(req: Request, c: Contents, disk: Contents, blooms: map<Path, Bloom>, kept: seq<Path>, r: Outcome<QueryResult>)
    requires IdsIdentify(EntriesOf(disk))
    requires Answers(req, Log(kept, disk), r)
    requires Describes(c, disk) && (r.Success? ==> Kept(kept, req, Parsed(req.query).value, c, blooms))
    ensures r.Failure? ==> r == FullScan(req, EntriesOf(disk))
    ensures r.Success? ==>
      var ast := Parsed(req.query).value;
      && EntriesOf(Visible(disk, ast, blooms)) <= EntriesOf(disk)
      && r == FullScan(req, EntriesOf(Visible(disk, ast, blooms)))
      && (BloomsHarmless(ast, disk, blooms) ==> r == FullScan(req, EntriesOf(disk)))
  {
    if r.Success? {
      var ast := Parsed(req.query).value;
      PrunedReadFindsAll(req, ast, c, disk, blooms, kept);
      SurvivorsMatch(req, ast, Log(kept, disk));
      if BloomsHarmless(ast, disk, blooms) {
        HarmlessFindsAll(req, ast, disk, blooms);
      }
    }
  }

  /** Harmless filters hide no match. */
  lemma HarmlessFindsAll(req: Request, ast: Option<Node>, disk: Contents, blooms: map<Path, Bloom>)
    requires BloomsHarmless(ast, disk, blooms)
    ensures Matching(req, ast, EntriesOf(Visible(disk, ast, blooms))) == Matching(req, ast, EntriesOf(disk))
  {
    if blooms == map[] {
      assert Visible(disk, ast, blooms) == disk;
    } else {
      VisibleFindsAll(req, ast, disk, blooms);
    }
  }
}
