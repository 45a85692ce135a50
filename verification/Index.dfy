/** The in-memory inverted index over segment files.

A segment path is its sequence number. `Agrees` says that the four maps describe exactly
the given segment contents; every operation moves the index from agreement with the old
contents to agreement with the new ones, and agreement determines the index.
*/
module Index {
  import opened Ordering
  import opened Entries
  import opened Text

  type Path = nat
  type Contents = map<Path, seq<Entry>>
  type Postings = map<string, set<Path>>

  datatype Bounds = Bounds(min: int, max: int)

  datatype Attribute = Token | Service | Namespace

  /** The index files entry `e` under key `k` of attribute `a`; an empty service is not filed. */
  ghost predicate Filed(a: Attribute, e: Entry, k: string) {
    match a
    case Token => k in Tokens(e.message)
    case Service => e.service != "" && k == e.service
    case Namespace => k == e.namespace
  }

  ghost predicate Holds(a: Attribute, es: seq<Entry>, k: string) {
    exists e :: e in es && Filed(a, e, k)
  }

  ghost predicate SomeFrom(es: seq<Entry>, t: int) {
    exists e :: e in es && e.timestamp >= t
  }

  ghost predicate SomeUntil(es: seq<Entry>, t: int) {
    exists e :: e in es && e.timestamp <= t
  }

  ghost predicate IsBounds(es: seq<Entry>, b: Bounds) {
    && (forall e :: e in es ==> b.min <= e.timestamp <= b.max)
    && (exists e :: e in es && e.timestamp == b.min)
    && (exists e :: e in es && e.timestamp == b.max)
  }

  function At(c: Contents, p: Path): seq<Entry> {
    if p in c then c[p] else []
  }

  function Extended(c: Contents, p: Path, e: Entry): Contents {
    c[p := At(c, p) + [e]]
  }

  function Appended(c: Contents, p: Path, es: seq<Entry>): Contents {
    c[p := At(c, p) + es]
  }

  lemma AppendedStep(c: Contents, p: Path, es: seq<Entry>, e: Entry)
    ensures Extended(Appended(c, p, es), p, e) == Appended(c, p, es + [e])
  {
    assert At(c, p) + es + [e] == At(c, p) + (es + [e]);
  }

  ghost predicate Posted(m: Postings, k: string, p: Path) {
    k in m && p in m[k]
  }

  /** Some entry of segment `p` is filed under `k`. */
  ghost predicate HoldsAt(a: Attribute, c: Contents, p: Path, k: string) {
    Holds(a, At(c, p), k)
  }

  ghost predicate PostingsAgree(a: Attribute, m: Postings, c: Contents) {
    && (forall k, p :: Posted(m, k, p) <==> HoldsAt(a, c, p, k))
    && (forall k :: k in m ==> m[k] != {})
  }

  ghost predicate MetaAgrees(meta: map<Path, Bounds>, c: Contents) {
    && (forall p :: p in meta <==> At(c, p) != [])
    && (forall p :: p in meta ==> IsBounds(At(c, p), meta[p]))
  }

  // --------------------------------------------------------- posting updates

  function Post(m: Postings, k: string, p: Path): Postings {
    m[k := (if k in m then m[k] else {}) + {p}]
  }

  function Unpost(m: Postings, p: Path): Postings {
    map k | k in m && m[k] - {p} != {} :: m[k] - {p}
  }

  /** Posting adds exactly one pair, and leaves no posting set empty. */
  lemma PostAdds(m: Postings, key: string, path: Path)
    ensures forall k, q :: Posted(Post(m, key, path), k, q) <==> Posted(m, k, q) || (k == key && q == path)
    ensures (forall k :: k in m ==> m[k] != {}) ==> forall k :: k in Post(m, key, path) ==> Post(m, key, path)[k] != {}
  {
  }

  lemma UnpostAgrees(a: Attribute, m: Postings, c: Contents, p: Path)
    requires PostingsAgree(a, m, c)
    ensures PostingsAgree(a, Unpost(m, p), c - {p})
  {
    var m', c' := Unpost(m, p), c - {p};
    forall k, q ensures Posted(m', k, q) <==> HoldsAt(a, c', q, k) {
      assert Posted(m, k, q) <==> HoldsAt(a, c, q, k);
    }
  }

  lemma HoldsExtended(a: Attribute, es: seq<Entry>, e: Entry, k: string)
    ensures Holds(a, es + [e], k) <==> Holds(a, es, k) || Filed(a, e, k)
  {
    if Filed(a, e, k) {
      assert e in es + [e];
    }
    if Holds(a, es, k) {
      var d :| d in es && Filed(a, d, k);
      assert d in es + [e];
    }
  }

  /** `m'` is `m` with path `p` filed under exactly the keys of `e` added. */
  lemma AddAgrees(a: Attribute, m: Postings, m': Postings, c: Contents, p: Path, e: Entry)
    requires PostingsAgree(a, m, c)
    requires forall k, q :: Posted(m', k, q) <==> Posted(m, k, q) || (q == p && Filed(a, e, k))
    requires forall k :: k in m' ==> m'[k] != {}
    ensures PostingsAgree(a, m', Extended(c, p, e))
  {
    var c' := Extended(c, p, e);
    forall k, q ensures Posted(m', k, q) <==> HoldsAt(a, c', q, k) {
      assert Posted(m, k, q) <==> HoldsAt(a, c, q, k);
      if q == p {
        HoldsExtended(a, At(c, p), e, k);
      }
    }
  }

  /** Agreement only looks at which entries a segment holds, not at their order or number. */
  lemma PostingsOnSets(a: Attribute, m: Postings, c: Contents, c': Contents)
    requires PostingsAgree(a, m, c) && SameEntries(c, c')
    ensures PostingsAgree(a, m, c')
  {
    forall k, p ensures Posted(m, k, p) <==> HoldsAt(a, c', p, k) {
      assert Posted(m, k, p) <==> HoldsAt(a, c, p, k);
      InSets(c, c', p);
    }
  }

  lemma MetaOnSets(meta: map<Path, Bounds>, c: Contents, c': Contents)
    requires MetaAgrees(meta, c) && SameEntries(c, c')
    ensures MetaAgrees(meta, c')
  {
    forall p ensures p in meta <==> At(c', p) != [] {
      InSets(c, c', p);
    }
    forall p | p in meta ensures IsBounds(At(c', p), meta[p]) {
      assert IsBounds(At(c, p), meta[p]);
      InSets(c, c', p);
    }
  }

  /** `c` holds, as sets, exactly the given paths of `disk`. */
  ghost predicate Covers(c: Contents, paths: seq<Path>, disk: Contents) {
    forall p :: ToSet(At(c, p)) == if p in paths then ToSet(At(disk, p)) else {}
  }

  lemma CoversStep(c: Contents, paths: seq<Path>, disk: Contents, p: Path)
    requires Covers(c, paths, disk) && p in disk
    ensures Covers(Appended(c, p, disk[p]), paths + [p], disk)
  {
    var c' := Appended(c, p, disk[p]);
    forall q ensures ToSet(At(c', q)) == if q in paths + [p] then ToSet(At(disk, q)) else {} {
      assert ToSet(At(c, q)) == if q in paths then ToSet(At(disk, q)) else {};
      ToSetConcat(At(c, p), disk[p]);
    }
  }

  lemma AppendedNothing(c: Contents, p: Path)
    ensures SameEntries(c, Appended(c, p, []))
  {
    assert At(c, p) + [] == At(c, p);
  }

  lemma CoversAll(c: Contents, paths: seq<Path>, disk: Contents)
    requires Covers(c, paths, disk) && forall p :: p in paths ==> p in disk
    ensures SameEntries(c, map p | p in paths && p in disk :: disk[p])
  {
    var d := map p | p in paths && p in disk :: disk[p];
    forall p ensures ToSet(At(c, p)) == ToSet(At(d, p)) {
    }
  }

  ghost predicate SameEntries(c: Contents, c': Contents) {
    forall p :: ToSet(At(c, p)) == ToSet(At(c', p))
  }

  lemma InSets(c: Contents, c': Contents, p: Path)
    requires SameEntries(c, c')
    ensures forall e :: e in At(c, p) <==> e in At(c', p)
    ensures At(c, p) == [] <==> At(c', p) == []
  {
    assert ToSet(At(c, p)) == ToSet(At(c', p));
    assert forall e :: e in At(c, p) <==> e in ToSet(At(c, p));
    assert forall e :: e in At(c', p) <==> e in ToSet(At(c', p));
    if At(c, p) != [] {
      assert At(c, p)[0] in At(c', p);
    }
    if At(c', p) != [] {
      assert At(c', p)[0] in At(c, p);
    }
  }

  lemma PostingsUnique(a: Attribute, m: Postings, m': Postings, c: Contents)
    requires PostingsAgree(a, m, c) && PostingsAgree(a, m', c)
    ensures m == m'
  {
    forall k, p ensures Posted(m, k, p) <==> Posted(m', k, p) {
      assert Posted(m, k, p) <==> HoldsAt(a, c, p, k);
    }
    forall k | k in m ensures k in m' && m'[k] == m[k] {
      var p :| p in m[k];
      assert Posted(m, k, p) && Posted(m', k, p);
      assert forall q :: q in m[k] <==> Posted(m, k, q);
      assert forall q :: q in m'[k] <==> Posted(m', k, q);
    }
    forall k | k in m' ensures k in m {
      var p :| p in m'[k];
      assert Posted(m', k, p) && Posted(m, k, p);
    }
  }

  lemma BoundsExtended(es: seq<Entry>, b: Bounds, e: Entry)
    requires IsBounds(es, b)
    ensures IsBounds(es + [e], Bounds(if e.timestamp < b.min then e.timestamp else b.min,
                                      if e.timestamp > b.max then e.timestamp else b.max))
  {
    assert forall d :: d in es ==> d in es + [e];
    assert e in es + [e];
  }

  lemma BoundsDecide(es: seq<Entry>, b: Bounds, t: int)
    requires IsBounds(es, b)
    ensures b.max >= t <==> SomeFrom(es, t)
    ensures b.min <= t <==> SomeUntil(es, t)
  {
  }

  lemma BoundsUnique(es: seq<Entry>, b: Bounds, b': Bounds)
    requires IsBounds(es, b) && IsBounds(es, b')
    ensures b == b'
  {
  }

  /** The path set a query may need: every pruning test asks for a witness in the segment. */
  ghost predicate Candidate(es: seq<Entry>, tokens: seq<string>, namespace: string, service: string, start: int, end: int) {
    && es != []
    && (forall t :: t in tokens ==> Holds(Token, es, t))
    && (namespace != "" ==> Holds(Namespace, es, namespace))
    && (service != "" ==> Holds(Service, es, service))
    && (start > 0 ==> SomeFrom(es, start))
    && (end > 0 ==> SomeUntil(es, end))
  }

  /** Segment `p` holds every one of the tokens. */
  ghost predicate HoldsAll(c: Contents, p: Path, tokens: seq<string>) {
    forall t :: t in tokens ==> HoldsAt(Token, c, p, t)
  }

  lemma HoldsAllSnoc(c: Contents, tokens: seq<string>, t: string)
    ensures forall p :: HoldsAll(c, p, tokens + [t]) <==> HoldsAll(c, p, tokens) && HoldsAt(Token, c, p, t)
  {
    forall p ensures HoldsAll(c, p, tokens + [t]) <==> HoldsAll(c, p, tokens) && HoldsAt(Token, c, p, t) {
      assert forall u :: u in tokens + [t] <==> u in tokens || u == t;
    }
  }

  lemma HoldsAllPrefix(c: Contents, tokens: seq<string>, i: nat)
    requires i <= |tokens|
    ensures forall p :: HoldsAll(c, p, tokens) ==> HoldsAll(c, p, tokens[..i])
  {
    assert forall t :: t in tokens[..i] ==> t in tokens;
  }

  /** delete(segs, path) for every key, dropping keys whose set becomes empty. */
  method RemovePath(m: Postings, path: Path) returns (r: Postings)
    ensures r == Unpost(m, path)
  {
    r := m;
    var todo := m.Keys;
    while todo != {}
      invariant todo <= m.Keys && r.Keys <= m.Keys
      invariant forall k :: k in todo ==> k in r && r[k] == m[k]
      invariant forall k :: k in m && k !in todo ==>
        (k in r <==> m[k] - {path} != {}) && (k in r ==> r[k] == m[k] - {path})
      decreases |todo|
    {
      var k :| k in todo;
      todo := todo - {k};
      var segs := r[k] - {path};
      r := if |segs| == 0 then r - {k} else r[k := segs];
    }
  }

  /** Delete from the candidates every path that is not in `segs`. */
  method Intersect(candidates: set<Path>, segs: set<Path>) returns (r: set<Path>)
    ensures r == candidates * segs
  {
    r := candidates;
    var todo := candidates;
    while todo != {}
      invariant todo <= r <= candidates
      invariant forall p :: p in candidates && p !in todo ==> (p in r <==> p in segs)
      decreases |todo|
    {
      var p :| p in todo;
      todo := todo - {p};
      if p !in segs {
        r := r - {p};
      }
    }
  }

  /** The paths filed under `key`; `false` when the key is unknown and nothing can match. */
  method Narrow(a: Attribute, m: Postings, key: string, candidates: set<Path>, ghost c: Contents)
    returns (known: bool, r: set<Path>)
    requires PostingsAgree(a, m, c)
    ensures forall p :: p in r <==> p in candidates && HoldsAt(a, c, p, key)
    ensures !known ==> r == {}
  {
    assert forall p :: HoldsAt(a, c, p, key) <==> Posted(m, key, p);
    if key !in m {
      return false, {};
    }
    known := true;
    r := Intersect(candidates, m[key]);
  }

  predicate Overlaps(b: Bounds, start: int, end: int) {
    !(start > 0 && b.max < start) && !(end > 0 && b.min > end)
  }

  /** Delete the candidates whose time bounds miss the range. */
  method PruneByTime(meta: map<Path, Bounds>, candidates: set<Path>, start: int, end: int, ghost c: Contents)
    returns (r: set<Path>)
    requires MetaAgrees(meta, c) && candidates <= meta.Keys
    ensures forall p :: p in r <==>
      p in candidates && (start > 0 ==> SomeFrom(At(c, p), start)) && (end > 0 ==> SomeUntil(At(c, p), end))
  {
    r := DropOutside(meta, candidates, start, end);
    forall p | p in candidates
      ensures Overlaps(meta[p], start, end) <==>
        (start > 0 ==> SomeFrom(At(c, p), start)) && (end > 0 ==> SomeUntil(At(c, p), end))
    {
      BoundsDecide(At(c, p), meta[p], start);
      BoundsDecide(At(c, p), meta[p], end);
    }
  }

  method DropOutside(meta: map<Path, Bounds>, candidates: set<Path>, start: int, end: int) returns (r: set<Path>)
    requires candidates <= meta.Keys
    ensures r == set p | p in candidates && Overlaps(meta[p], start, end)
  {
    r := candidates;
    var todo := candidates;
    while todo != {}
      invariant todo <= r <= candidates
      invariant forall p :: p in candidates && p !in todo ==> (p in r <==> Overlaps(meta[p], start, end))
      decreases |todo|
    {
      var p :| p in todo;
      todo := todo - {p};
      if start > 0 && meta[p].max < start {
        r := r - {p};
      } else if end > 0 && meta[p].min > end {
        r := r - {p};
      }
    }
  }

  method SortPaths(s: set<Path>) returns (r: seq<Path>)
    ensures Ascending(r, Below) && ToSet(r) == s
  {
    var xs: seq<Path> := [];
    var todo := s;
    while todo != {}
      invariant todo <= s && ToSet(xs) == s - todo && Distinct(xs)
      decreases |todo|
    {
      var p :| p in todo;
      assert p !in ToSet(xs);
      todo := todo - {p};
      ToSetConcat(xs, [p]);
      assert ToSet([p]) == {p};
      xs := xs + [p];
    }
    r := Sort(xs, Below);
    SortedDistinct(xs, r, Below);
  }

  class Index {
    var tokenSegments: Postings
    var serviceSegments: Postings
    var namespaceSegments: Postings
    var segmentMeta: map<Path, Bounds>

    /** The index describes exactly the contents `c`. */
    ghost predicate Agrees(c: Contents)
      reads this
    {
      && PostingsAgree(Token, tokenSegments, c)
      && PostingsAgree(Service, serviceSegments, c)
      && PostingsAgree(Namespace, namespaceSegments, c)
      && MetaAgrees(segmentMeta, c)
    }

    constructor ()
      ensures Agrees(map[])
    {
      tokenSegments, serviceSegments, namespaceSegments := map[], map[], map[];
      segmentMeta := map[];
    }

    method Add(entry: Entry, path: Path, ghost c: Contents)
      requires Agrees(c)
      modifies this
      ensures Agrees(Extended(c, path, entry))
    {
      AddTokens(entry, path, c);
      AddService(entry, path, c);
      AddNamespace(entry, path, c);
      AddTime(entry, path, c);
    }

    method AddTokens(entry: Entry, path: Path, ghost c: Contents)
      requires PostingsAgree(Token, tokenSegments, c)
      modifies this`tokenSegments
      ensures PostingsAgree(Token, tokenSegments, Extended(c, path, entry))
    {
      var toks := Tokenize(entry.message);
      for i := 0 to |toks|
        invariant forall k, q :: Posted(tokenSegments, k, q) <==>
                    old(Posted(tokenSegments, k, q)) || (q == path && k in toks[..i])
        invariant forall k :: k in tokenSegments ==> tokenSegments[k] != {}
      {
        PostAdds(tokenSegments, toks[i], path);
        TakeNext(toks, i);
        tokenSegments := Post(tokenSegments, toks[i], path);
        assert forall k :: k in toks[..i + 1] <==> k in toks[..i] || k == toks[i];
      }
      assert toks[..|toks|] == toks;
      AddAgrees(Token, old(tokenSegments), tokenSegments, c, path, entry);
    }

    method AddService(entry: Entry, path: Path, ghost c: Contents)
      requires PostingsAgree(Service, serviceSegments, c)
      modifies this`serviceSegments
      ensures PostingsAgree(Service, serviceSegments, Extended(c, path, entry))
    {
      if entry.service != "" {
        serviceSegments := Post(serviceSegments, entry.service, path);
      }
      AddAgrees(Service, old(serviceSegments), serviceSegments, c, path, entry);
    }

    method AddNamespace(entry: Entry, path: Path, ghost c: Contents)
      requires PostingsAgree(Namespace, namespaceSegments, c)
      modifies this`namespaceSegments
      ensures PostingsAgree(Namespace, namespaceSegments, Extended(c, path, entry))
    {
      namespaceSegments := Post(namespaceSegments, entry.namespace, path);
      AddAgrees(Namespace, old(namespaceSegments), namespaceSegments, c, path, entry);
    }

    method AddTime(entry: Entry, path: Path, ghost c: Contents)
      requires MetaAgrees(segmentMeta, c)
      modifies this`segmentMeta
      ensures MetaAgrees(segmentMeta, Extended(c, path, entry))
    {
      var t := entry.timestamp;
      var meta := Bounds(t, t);
      if path in segmentMeta {
        meta := segmentMeta[path];
        if t < meta.min {
          meta := meta.(min := t);
        }
        if t > meta.max {
          meta := meta.(max := t);
        }
        BoundsExtended(At(c, path), segmentMeta[path], entry);
      } else {
        assert At(c, path) == [] && entry in [entry] && [] + [entry] == [entry];
      }
      segmentMeta := segmentMeta[path := meta];
    }

    method RemoveSegment(path: Path, ghost c: Contents)
      requires Agrees(c)
      modifies this
      ensures Agrees(c - {path})
    {
      UnpostAgrees(Token, tokenSegments, c, path);
      UnpostAgrees(Service, serviceSegments, c, path);
      UnpostAgrees(Namespace, namespaceSegments, c, path);
      segmentMeta := segmentMeta - {path};
      tokenSegments := RemovePath(tokenSegments, path);
      serviceSegments := RemovePath(serviceSegments, path);
      namespaceSegments := RemovePath(namespaceSegments, path);
    }

    /** The segments that hold every required token. */
    method ResolveTokens(tokens: seq<string>, ghost c: Contents) returns (candidates: set<Path>)
      requires Agrees(c)
      ensures forall p :: p in candidates <==> At(c, p) != [] && HoldsAll(c, p, tokens)
    {
      candidates := segmentMeta.Keys;
      for i := 0 to |tokens|
        invariant forall p :: p in candidates <==> At(c, p) != [] && HoldsAll(c, p, tokens[..i])
      {
        var known;
        known, candidates := Narrow(Token, tokenSegments, tokens[i], candidates, c);
        TakeNext(tokens, i);
        HoldsAllSnoc(c, tokens[..i], tokens[i]);
        if !known || |candidates| == 0 {
          assert candidates == {};
          HoldsAllPrefix(c, tokens, i + 1);
          return;
        }
      }
      assert tokens[..|tokens|] == tokens;
    }

    /** The sorted paths that pass every pruning test. */
    method Resolve(tokens: seq<string>, namespace: string, service: string, start: int, end: int, ghost c: Contents)
      returns (paths: seq<Path>)
      requires Agrees(c)
      ensures Ascending(paths, Below)
      ensures forall p :: p in paths <==> Candidate(At(c, p), tokens, namespace, service, start, end)
    {
      var known := true;
      var candidates := ResolveTokens(tokens, c);
      if namespace != "" {
        known, candidates := Narrow(Namespace, namespaceSegments, namespace, candidates, c);
      }
      if known && service != "" {
        known, candidates := Narrow(Service, serviceSegments, service, candidates, c);
      }
      candidates := PruneByTime(segmentMeta, candidates, start, end, c);
      paths := SortPaths(candidates);
      assert forall p :: p in paths <==> p in ToSet(paths);
    }

    /** Add the entries of one segment in order. */
    method AddAll(es: seq<Entry>, path: Path, ghost c: Contents)
      requires Agrees(c)
      modifies this
      ensures Agrees(Appended(c, path, es))
    {
      AppendedNothing(c, path);
      AgreesOnSets(c, Appended(c, path, es[..0]));
      assert es[..|es|] == es;
      ghost var d := Appended(c, path, es[..0]);
      for j := 0 to |es|
        invariant d == Appended(c, path, es[..j])
        invariant Agrees(d)
      {
        AppendedStep(c, path, es[..j], es[j]);
        TakeNext(es, j);
        Add(es[j], path, d);
        d := Extended(d, path, es[j]);
      }
    }

    /** Rebuild after a restart; fails on the first path that is not on disk or cannot be read. */
    method RebuildFromSegments(paths: seq<Path>, disk: Contents, broken: set<Path>) returns (ok: bool)
      requires Agrees(map[])
      modifies this
      ensures ok <==> forall p :: p in paths ==> p in disk && p !in broken
      ensures ok ==> Agrees(map p | p in paths && p in disk :: disk[p])
    {
      ghost var c: Contents := map[];
      for i := 0 to |paths|
        invariant Agrees(c)
        invariant forall p :: p in paths[..i] ==> p in disk && p !in broken
        invariant Covers(c, paths[..i], disk)
      {
        if paths[i] !in disk || paths[i] in broken {
          return false;
        }
        AddAll(disk[paths[i]], paths[i], c);
        CoversStep(c, paths[..i], disk, paths[i]);
        c := Appended(c, paths[i], disk[paths[i]]);
        TakeNext(paths, i);
      }
      assert paths[..|paths|] == paths;
      CoversAll(c, paths, disk);
      AgreesOnSets(c, map p | p in paths && p in disk :: disk[p]);
      ok := true;
    }

    lemma AgreesOnSets(c: Contents, c': Contents)
      requires Agrees(c) && SameEntries(c, c')
      ensures Agrees(c')
    {
      PostingsOnSets(Token, tokenSegments, c, c');
      PostingsOnSets(Service, serviceSegments, c, c');
      PostingsOnSets(Namespace, namespaceSegments, c, c');
      MetaOnSets(segmentMeta, c, c');
    }
  }

  /** Two indexes that describe the same contents are equal in all four maps. */
  lemma AgreementDetermines(i: Index, j: Index, c: Contents)
    requires i.Agrees(c) && j.Agrees(c)
    ensures i.tokenSegments == j.tokenSegments && i.serviceSegments == j.serviceSegments
    ensures i.namespaceSegments == j.namespaceSegments && i.segmentMeta == j.segmentMeta
  {
    PostingsUnique(Token, i.tokenSegments, j.tokenSegments, c);
    PostingsUnique(Service, i.serviceSegments, j.serviceSegments, c);
    PostingsUnique(Namespace, i.namespaceSegments, j.namespaceSegments, c);
    forall p | p in i.segmentMeta ensures i.segmentMeta[p] == j.segmentMeta[p] {
      BoundsUnique(At(c, p), i.segmentMeta[p], j.segmentMeta[p]);
    }
    assert i.segmentMeta.Keys == j.segmentMeta.Keys;
  }

  /** A removed path leaves no trace in any map and no empty posting set. */
  lemma RemovedLeavesNoTrace(i: Index, c: Contents, p: Path)
    requires i.Agrees(c) && At(c, p) == []
    ensures p !in i.segmentMeta
    ensures forall k :: !Posted(i.tokenSegments, k, p) && !Posted(i.serviceSegments, k, p) && !Posted(i.namespaceSegments, k, p)
    ensures forall k :: k in i.tokenSegments ==> i.tokenSegments[k] != {}
    ensures forall k :: k in i.serviceSegments ==> i.serviceSegments[k] != {}
    ensures forall k :: k in i.namespaceSegments ==> i.namespaceSegments[k] != {}
  {
    forall k ensures !Posted(i.tokenSegments, k, p) {
      assert !HoldsAt(Token, c, p, k);
    }
    forall k ensures !Posted(i.serviceSegments, k, p) {
      assert !HoldsAt(Service, c, p, k);
    }
    forall k ensures !Posted(i.namespaceSegments, k, p) {
      assert !HoldsAt(Namespace, c, p, k);
    }
  }
}
