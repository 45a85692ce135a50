/** One storage node: manager, index and compactor together, with ingestion, queries, crashes and restarts. */
module Nodes {
  import opened Ordering
  import opened Entries
  import opened Parser
  import opened Index
  import opened Executor
  import opened Store
  import opened Merging
  import opened Filters
  import opened Managers
  import opened Compaction
  import opened Passes
  import opened Compactors

  lemma AppendedFiles(s: Store, e: Entry, size: Entry -> nat, limit: int, bloom: bool)
    requires Quiet(s)
    ensures var t := AppendTo(s, e, size, limit, bloom); SameEntries(Extended(s.dir.files, Active(t), e), t.dir.files)
  {
    if Size(At(s.dir.files, Active(s)), size) + size(e) > limit {
      NewFile(s, bloom);
      SameExtended(s.dir.files, Rotated(s, bloom).dir.files, s.nextSeq, e);
    }
  }

  lemma SameExtended(f: Contents, g: Contents, p: Path, e: Entry)
    requires forall q :: At(g, q) == At(f, q)
    ensures SameEntries(Extended(f, p, e), Extended(g, p, e))
  {
    forall q: Path ensures At(Extended(f, p, e), q) == At(Extended(g, p, e), q) {
      assert At(g, q) == At(f, q) && At(g, p) == At(f, p);
    }
  }

  /** A recovered path list names exactly the files. */
  lemma RecoverLists(dir: Dir)
    ensures ToSet(Recover(dir).paths) == Recover(dir).dir.files.Keys
  {
    var matches := SortedPaths(dir.files.Keys);
    match ActiveOf(dir, matches)
    case None =>
      assert matches == [];
      assert dir.files == map[];
    case Some(active) =>
      assert active in ToSet(matches);
      var rest := KeepPaths(matches, {active});
      KeptPaths(matches, {active});
      assert ToSet(rest) == ToSet(matches) - {active};
      ToSetConcat(rest, [active]);
  }

  lemma ListedAll(paths: seq<Path>, files: Contents)
    requires ToSet(paths) == files.Keys
    ensures (map p | p in paths && p in files :: files[p]) == files && forall p :: p in paths ==> p in files
  {
    assert forall p :: p in files ==> p in ToSet(paths);
    assert forall p :: p in paths ==> p in ToSet(paths);
  }

  method BuildIndex(paths: seq<Path>, disk: Contents) returns (idx: Index, ok: bool)
    ensures fresh(idx) && (ToSet(paths) == disk.Keys ==> ok && idx.Agrees(disk))
  {
    idx := new Index();
    ok := idx.RebuildFromSegments(paths, disk, {});
    if ToSet(paths) == disk.Keys {
      ListedAll(paths, disk);
    }
  }

  // ------------------------------------------------- what crashes leave behind

  /** From this directory a restart finds a quiet store with sidecars that serve. */
  ghost predicate Restartable(d: Dir, bloom: bool, horizon: Option<int>) {
    var r := Recover(d);
    Quiet(r) && (bloom ==> SidecarsServe(r.dir, Active(r), horizon))
  }

  /** After a crash in an append: the log without or with the entry. */
  ghost predicate AppendSafe(d: Dir, s: Store, e: Entry, bloom: bool, horizon: Option<int>) {
    Restartable(d, bloom, horizon) && (StoreLog(Recover(d)) == StoreLog(s) || StoreLog(Recover(d)) == StoreLog(s) + [e])
  }

  /** After a crash in a merge pass: the same entries, in the same order up to repeats. */
  ghost predicate MergeSafe(d: Dir, s: Store, bloom: bool, horizon: Option<int>) {
    Restartable(d, bloom, horizon) && SameUpToRepeats(StoreLog(Recover(d)), StoreLog(s))
  }

  /** After a crash in a retention pass: a subsequence, without some entries older than the cutoff. */
  ghost predicate RetainSafe(d: Dir, s: Store, cutoff: int, bloom: bool, horizon: Option<int>) {
    && Restartable(d, bloom, Later(horizon, cutoff)) && Subsequence(StoreLog(Recover(d)), StoreLog(s))
    && forall e :: e in StoreLog(s) && e !in StoreLog(Recover(d)) ==> e.timestamp < cutoff
  }

  lemma AppendStatesSafe(s: Store, e: Entry, size: Entry -> nat, limit: int, bloom: bool, horizon: Option<int>)
    requires Quiet(s) && (bloom ==> SidecarsServe(s.dir, Active(s), horizon))
    ensures var cs := AppendChanges(s, e, size, limit, bloom);
      forall k :: 0 <= k <= |cs| ==> AppendSafe(Ran(s.dir, cs[..k]), s, e, bloom, horizon)
  {
    var cs := AppendChanges(s, e, size, limit, bloom);
    forall k | 0 <= k <= |cs| ensures AppendSafe(Ran(s.dir, cs[..k]), s, e, bloom, horizon) {
      AppendCrashKeeps(s, e, size, limit, bloom, k, horizon);
    }
  }

  lemma MergeStatesSafe(s: Store, small: Path -> bool, fault: seq<Path> -> MergeFault, bloom: bool, horizon: Option<int>)
    requires Quiet(s) && (bloom ==> SidecarsServe(s.dir, Active(s), horizon))
    ensures var cs := PassChanges(s, small, fault, bloom);
      forall k :: 0 <= k <= |cs| ==> MergeSafe(Ran(s.dir, cs[..k]), s, bloom, horizon)
  {
    var cs := PassChanges(s, small, fault, bloom);
    PassSafe(s, small, fault, bloom, horizon);
    forall k | 0 <= k <= |cs| ensures MergeSafe(Ran(s.dir, cs[..k]), s, bloom, horizon) {
      assert SafeState(s, bloom, horizon)(Ran(s.dir, cs[..k]));
    }
  }

  lemma RetainStatesSafe(s: Store, days: int, cutoff: int, bloom: bool, horizon: Option<int>)
    requires Quiet(s) && (bloom ==> SidecarsServe(s.dir, Active(s), horizon))
    ensures var cs := RetentionChanges(s, days, cutoff);
      forall k :: 0 <= k <= |cs| ==> RetainSafe(Ran(s.dir, cs[..k]), s, cutoff, bloom, horizon)
  {
    var cs := RetentionChanges(s, days, cutoff);
    RetentionThrough(s, days, cutoff);
    forall k | 0 <= k <= |cs| ensures RetainSafe(Ran(s.dir, cs[..k]), s, cutoff, bloom, horizon) {
      assert RetentionStates(s, cutoff)(Ran(s.dir, cs[..k]));
      RetentionCrashSafe(s, cutoff, Ran(s.dir, cs[..k]), horizon);
    }
  }

  lemma PurgedNone(s: Store, blooms: map<Path, Bloom>, t: Store, now: map<Path, Bloom>)
    requires Quiet(s) && IsPurged(t, now, s, blooms, {})
    ensures IsUntouched(t, s) && Quiet(t) && StoreLog(t) == StoreLog(s) && now == blooms
  {
    NonePurged(s, blooms);
    QuietSame(s, t);
  }

  lemma PurgedKeeps(s: Store, blooms: map<Path, Bloom>, t: Store, now: map<Path, Bloom>, bloom: bool, cutoff: int, horizon: Option<int>)
    requires Quiet(s) && FiltersServe(s, blooms, bloom, horizon) && IsPurged(t, now, s, blooms, ExpiredPaths(s, cutoff))
    ensures Quiet(t) && FiltersServe(t, now, bloom, Later(horizon, cutoff))
    ensures FiltersSound(s, blooms, bloom) ==> FiltersSound(t, now, bloom)
    ensures Subsequence(StoreLog(t), StoreLog(s))
    ensures forall e :: e in StoreLog(s) && e !in StoreLog(t) ==> e.timestamp < cutoff
  {
    var gone := ExpiredPaths(s, cutoff);
    RetentionDropsOld(s, gone, cutoff);
    DropKeepsFilters(s, blooms, gone, t, now, bloom, cutoff, horizon);
    QuietSame(Dropped(s, gone), t);
  }

  // ----------------------------------------------------------------- queries

  /** The query requires no custom field. */
  predicate CustomFree(query: string) {
    Parsed(query).Ok? && Parsed(query).value.Some? ==> CustomValues(Parsed(query).value.value) == {}
  }

  /** The full scan of a part of the entries that has all recent ones. */
  ghost predicate ScansRecent(req: Request, all: set<Entry>, horizon: Option<int>, r: Outcome<QueryResult>) {
    exists some: set<Entry> :: HasRecent(some, all, horizon) && IdsIdentify(some) && r == FullScan(req, some)
  }

  ghost predicate HasRecent(some: set<Entry>, all: set<Entry>, horizon: Option<int>) {
    some <= all && forall e :: e in all && Recent(e, horizon) ==> e in some
  }

  /** What is visible, and everything recent. */
  ghost function SeenOrRecent(disk: Contents, ast: Option<Node>, blooms: map<Path, Bloom>, horizon: Option<int>): set<Entry> {
    EntriesOf(Visible(disk, ast, blooms)) + set e | e in EntriesOf(disk) && Recent(e, horizon)
  }

  lemma RecentIsSeen(req: Request, ast: Option<Node>, disk: Contents, blooms: map<Path, Bloom>, horizon: Option<int>, e: Entry)
    requires Serves(disk, blooms, horizon) && (ast.Some? ==> CustomValues(ast.value) == {})
    requires e in EntriesOf(disk) && Recent(e, horizon) && Accepts(req, ast, e)
    ensures e in EntriesOf(Visible(disk, ast, blooms))
  {
    var p :| p in disk && e in disk[p];
    assert Due(disk, p, e, horizon);
    FoundIsVisible(req, ast, disk, blooms, e);
  }

  lemma SameMatches(req: Request, ast: Option<Node>, disk: Contents, blooms: map<Path, Bloom>, horizon: Option<int>)
    requires Serves(disk, blooms, horizon) && (ast.Some? ==> CustomValues(ast.value) == {})
    ensures Matching(req, ast, SeenOrRecent(disk, ast, blooms, horizon)) == Matching(req, ast, EntriesOf(Visible(disk, ast, blooms)))
  {
    forall e | e in EntriesOf(disk) && Recent(e, horizon) && Accepts(req, ast, e) ensures e in EntriesOf(Visible(disk, ast, blooms)) {
      RecentIsSeen(req, ast, disk, blooms, horizon, e);
    }
  }

  lemma SameScan(req: Request, a: set<Entry>, b: set<Entry>)
    requires IdsIdentify(a) && IdsIdentify(b) && Parsed(req.query).Ok?
    requires Matching(req, Parsed(req.query).value, a) == Matching(req, Parsed(req.query).value, b)
    ensures FullScan(req, a) == FullScan(req, b)
  {
  }

  lemma ServesFinds(req: Request, disk: Contents, blooms: map<Path, Bloom>, horizon: Option<int>, kept: seq<Path>, r: Outcome<QueryResult>)
    requires IdsIdentify(EntriesOf(disk)) && Serves(disk, blooms, horizon) && CustomFree(req.query)
    requires Answers(req, Log(kept, disk), r) && (r.Success? ==> Kept(kept, req, Parsed(req.query).value, disk, blooms))
    ensures ScansRecent(req, EntriesOf(disk), horizon, r)
  {
    ExecuteIsFullScan(req, disk, disk, blooms, kept, r);
    if r.Success? {
      var ast := Parsed(req.query).value;
      var some := SeenOrRecent(disk, ast, blooms, horizon);
      SeenIsPart(disk, ast, blooms, horizon);
      SameMatches(req, ast, disk, blooms, horizon);
      SameScan(req, some, EntriesOf(Visible(disk, ast, blooms)));
      ScansSome(req, EntriesOf(disk), some, horizon, r);
    } else {
      ScansSome(req, EntriesOf(disk), EntriesOf(disk), horizon, r);
    }
  }

  lemma SeenIsPart(disk: Contents, ast: Option<Node>, blooms: map<Path, Bloom>, horizon: Option<int>)
    ensures EntriesOf(Visible(disk, ast, blooms)) <= EntriesOf(disk)
    ensures HasRecent(SeenOrRecent(disk, ast, blooms, horizon), EntriesOf(disk), horizon)
  {
  }

  lemma ScansSome(req: Request, all: set<Entry>, some: set<Entry>, horizon: Option<int>, r: Outcome<QueryResult>)
    requires HasRecent(some, all, horizon) && IdsIdentify(some) && r == FullScan(req, some)
    ensures ScansRecent(req, all, horizon, r)
  {
  }

  // ---------------------------------------------------------------- the node

  class StorageNode {
    const manager: Manager
    const idx: Index

    constructor (manager: Manager, idx: Index)
      ensures this.manager == manager && this.idx == idx
    {
      this.manager, this.idx := manager, idx;
    }

    /** Path list, files, index and filters describe each other. */
    ghost predicate Serving(horizon: Option<int>)
      reads manager, idx
    {
      && Quiet(manager.State()) && idx.Agrees(manager.dir.files)
      && FiltersServe(manager.State(), manager.blooms, manager.bloomEnabled, horizon)
    }

    /** And every filter holds all tokens of its segment. */
    ghost predicate Sound()
      reads manager, idx
    {
      Serving(None) && FiltersSound(manager.State(), manager.blooms, manager.bloomEnabled)
    }

    /** On any directory: recover the manager, load filters, rebuild the index from the listed files. */
    static method Start(dir: Dir, size: Entry -> nat, limit: int, bloom: bool, ghost horizon: Option<int>) returns (n: StorageNode)
      ensures fresh(n) && fresh(n.manager) && fresh(n.idx) && n.manager.bloomEnabled == bloom
      ensures n.manager.State() == Recover(dir) && n.idx.Agrees(n.manager.dir.files)
      ensures n.manager.Did(dir, [], StartChanges(dir)) && n.manager.size == size && n.manager.limit == limit
      ensures n.Serving(horizon) <==> Restartable(dir, bloom, horizon)
      ensures Restartable(dir, bloom, None) && (bloom ==> SidecarsSound(Recover(dir).dir, Active(Recover(dir)))) ==> n.Sound()
    {
      var manager := new Manager(dir, size, limit, bloom);
      RecoverLists(dir);
      var idx, ok := BuildIndex(manager.paths, manager.dir.files);
      n := new StorageNode(manager, idx);
      if Quiet(Recover(dir)) {
        LoadedKeeps(Recover(dir), bloom, horizon);
        LoadedKeeps(Recover(dir), bloom, None);
      }
    }

    /** ReplicateEntry and the orchestrator's local write: append, then index under the returned path. */
    method Ingest(e: Entry, ghost horizon: Option<int>)
      requires Serving(horizon)
      modifies manager, idx
      ensures Serving(horizon) && (old(Sound()) ==> Sound())
      ensures manager.State() == AppendTo(old(manager.State()), e, manager.size, manager.limit, manager.bloomEnabled)
      ensures var cs := AppendChanges(old(manager.State()), e, manager.size, manager.limit, manager.bloomEnabled);
        && manager.Did(old(manager.dir), old(manager.changes), cs)
        && forall k :: 0 <= k <= |cs| ==> AppendSafe(Ran(old(manager.dir), cs[..k]), old(manager.State()), e, manager.bloomEnabled, horizon)
      ensures StoreLog(manager.State()) == StoreLog(old(manager.State())) + [e]
    {
      ghost var s, blooms, bloom := manager.State(), manager.blooms, manager.bloomEnabled;
      AppendExact(s, e, manager.size, manager.limit, bloom);
      AppendKeeps(s, blooms, e, manager.size, manager.limit, bloom, horizon);
      AppendKeeps(s, blooms, e, manager.size, manager.limit, bloom, None);
      AppendedFiles(s, e, manager.size, manager.limit, bloom);
      AppendStatesSafe(s, e, manager.size, manager.limit, bloom, horizon);
      var path := manager.AppendWithPath(e);
      idx.Add(e, path, s.dir.files);
      idx.AgreesOnSets(Extended(s.dir.files, path, e), manager.dir.files);
    }

    /** A merge pass merges the planned runs, through exactly the specified changes, each of which leaves a directory that
        restarts with the same entries; it keeps the node serving and its log as it is. */
    method Merge(threshold: int, fault: seq<Path> -> MergeFault, ghost horizon: Option<int>)
      requires Serving(horizon)
      modifies manager, idx
      ensures Serving(horizon) && (old(Sound()) ==> Sound())
      ensures var s, small := old(manager.State()), SmallIn(old(manager.dir).files, manager.size, threshold);
        var cs := PassChanges(s, small, fault, manager.bloomEnabled);
        && manager.State() == PassStore(s, small, fault, manager.bloomEnabled) && manager.Did(s.dir, old(manager.changes), cs)
        && forall k :: 0 <= k <= |cs| ==> MergeSafe(Ran(s.dir, cs[..k]), s, manager.bloomEnabled, horizon)
      ensures StoreLog(manager.State()) == StoreLog(old(manager.State())) && Active(manager.State()) == Active(old(manager.State()))
    {
      MergeStatesSafe(manager.State(), SmallIn(manager.dir.files, manager.size, threshold), fault, manager.bloomEnabled, horizon);
      var c := new Compactor(manager, idx);
      c.RunMergePass(threshold, fault, horizon);
      if old(Sound()) {
        SoundServes(manager.State(), manager.blooms, manager.bloomEnabled, None);
      }
    }

    /** A retention pass drops exactly the expired segments, through exactly the specified changes, and keeps the node
        serving; at its end and wherever it is cut short only entries older than the cutoff are gone, the rest in order. */
    method Retain(days: int, cutoff: int, ghost horizon: Option<int>)
      requires Serving(horizon)
      modifies manager, idx
      ensures Serving(if days <= 0 then horizon else Later(horizon, cutoff)) && (old(Sound()) ==> Sound())
      ensures var s := old(manager.State()); var cs := RetentionChanges(s, days, cutoff);
        && manager.State() == RetentionStore(s, days, cutoff) && manager.Did(s.dir, old(manager.changes), cs)
        && IsPurged(manager.State(), manager.blooms, s, old(manager.blooms), Overdue(s, days, cutoff))
        && forall k :: 0 <= k <= |cs| ==> RetainSafe(Ran(s.dir, cs[..k]), s, cutoff, manager.bloomEnabled, horizon)
      ensures Subsequence(StoreLog(manager.State()), StoreLog(old(manager.State())))
      ensures forall e :: e in StoreLog(old(manager.State())) && e !in StoreLog(manager.State()) ==> days > 0 && e.timestamp < cutoff
    {
      ghost var s, blooms := manager.State(), manager.blooms;
      RetainStatesSafe(s, days, cutoff, manager.bloomEnabled, horizon);
      var c := new Compactor(manager, idx);
      c.RunRetentionPass(days, cutoff);
      if days <= 0 {
        PurgedNone(s, blooms, manager.State(), manager.blooms);
        SubsequenceSelf(StoreLog(s));
      } else {
        PurgedKeeps(s, blooms, manager.State(), manager.blooms, manager.bloomEnabled, cutoff, horizon);
      }
      if old(Sound()) {
        SoundServes(manager.State(), manager.blooms, manager.bloomEnabled, None);
      }
    }

    /** A query without required custom fields is the full scan of entries of the log, among them all that are
        not older than the last retention cutoff; without a cutoff, of the whole log. */
    method Query(req: Request, ghost horizon: Option<int>) returns (r: Outcome<QueryResult>)
      requires Serving(horizon) && IdsIdentify(ToSet(StoreLog(manager.State())))
      ensures CustomFree(req.query) ==> ScansRecent(req, ToSet(StoreLog(manager.State())), horizon, r)
      ensures !manager.bloomEnabled || (CustomFree(req.query) && (horizon.None? || Sound())) ==>
        r == FullScan(req, ToSet(StoreLog(manager.State())))
    {
      QuietEntries(manager.State());
      var kept;
      r, kept := Execute(req, idx, manager.dir.files, manager.dir.files, manager.blooms, NO_FAULTS);
      if CustomFree(req.query) {
        ServesFinds(req, manager.dir.files, manager.blooms, horizon, kept, r);
      }
      if horizon.None? || Sound() {
        ServesCovers(manager.dir.files, manager.blooms);
      }
      ExecuteIsFullScan(req, manager.dir.files, manager.dir.files, manager.blooms, kept, r);
    }
  }

  // ------------------------------------------------------------------ crashes

  /** Wherever a merge is cut short: a restart on what it left, and then any query, answers as before the merge. */
  method QueryAfterMergeCrash(d: Dir, size: Entry -> nat, limit: int, bloom: bool, req: Request,
      ghost s: Store, ghost i: nat, ghost j: nat, ghost horizon: Option<int>)
    returns (r: Outcome<QueryResult>)
    requires Quiet(s) && IsRun(s, i, j) && (bloom ==> SidecarsServe(s.dir, Active(s), horizon))
    requires MidMerge(s.dir, s.paths[i..j], bloom, d) && IdsIdentify(ToSet(StoreLog(s)))
    ensures CustomFree(req.query) ==> ScansRecent(req, ToSet(StoreLog(s)), horizon, r)
    ensures !bloom || (CustomFree(req.query) && horizon.None?) ==> r == FullScan(req, ToSet(StoreLog(s)))
  {
    CrashAnywhereSafe(s, i, j, bloom, d);
    if bloom {
      CrashServes(s, i, j, d, horizon);
    }
    var n := StorageNode.Start(d, size, limit, bloom, horizon);
    r := n.Query(req, horizon);
  }

  // --------------------------------------------------------- late index updates

  /** An entry is appended to a segment and indexed under its path only after a merge has indexed it with the merged
      file. If the path is still a file with the entry, the index describes the disk as before; if the file is gone, the
      index now also has its path. */
  method AddLate(idx: Index, e: Entry, path: Path, ghost disk: Contents)
    requires idx.Agrees(disk) && (path in disk ==> e in disk[path])
    modifies idx
    ensures path in disk ==> idx.Agrees(disk)
    ensures path !in disk ==> idx.Agrees(Extended(disk, path, e)) && Describes(Extended(disk, path, e), disk)
  {
    idx.Add(e, path, disk);
    if path in disk {
      SameAfterRepeat(disk, path, e);
      idx.AgreesOnSets(Extended(disk, path, e), disk);
    }
  }

  lemma SameAfterRepeat(c: Contents, p: Path, e: Entry)
    requires p in c && e in c[p]
    ensures SameEntries(Extended(c, p, e), c)
  {
    ToSetConcat(c[p], [e]);
    assert ToSet([e]) == {e};
  }

  /** Every query that the entry matches then resolves the path of the missing file. */
  lemma StalePathResolved(c: Contents, p: Path, e: Entry, req: Request, ast: Option<Node>, kept: seq<Path>)
    requires Accepts(req, ast, e) && Kept(kept, req, ast, Extended(c, p, e), map[])
    ensures p in kept
  {
    AcceptedIsCandidate(req, ast, At(Extended(c, p, e), p), e);
  }

  /** But no answer changes: missing files are skipped, and the merged file has the entry. */
  method QueryAfterLateAdd(idx: Index, e: Entry, path: Path, disk: Contents, blooms: map<Path, Bloom>, req: Request)
    returns (r: Outcome<QueryResult>)
    requires idx.Agrees(disk) && (path in disk ==> e in disk[path]) && IdsIdentify(EntriesOf(disk))
    modifies idx
    ensures (Parsed(req.query).Ok? ==> BloomsHarmless(Parsed(req.query).value, disk, blooms)) ==> r == FullScan(req, EntriesOf(disk))
  {
    AddLate(idx, e, path, disk);
    ghost var c := if path in disk then disk else Extended(disk, path, e);
    var kept;
    r, kept := Execute(req, idx, c, disk, blooms, NO_FAULTS);
    ExecuteIsFullScan(req, c, disk, blooms, kept, r);
  }

  /** The index lags behind the disk: some appended entries are not yet indexed. */
  ghost predicate Lags(c: Contents, disk: Contents) {
    forall p, e :: e in At(c, p) ==> e in At(disk, p)
  }

  /** The entries on disk in the segments that what the index has of them makes candidates. */
  ghost function Reached(req: Request, ast: Option<Node>, c: Contents, disk: Contents): set<Entry> {
    set p, e | p in disk && e in disk[p] && Candidate(At(c, p), IndexTokens(ast), req.namespace, req.service, req.start, req.end) :: e
  }

  lemma LaggingRead(req: Request, ast: Option<Node>, c: Contents, disk: Contents, kept: seq<Path>)
    requires Lags(c, disk) && Kept(kept, req, ast, c, map[])
    ensures ToSet(Log(kept, disk)) == Reached(req, ast, c, disk) <= EntriesOf(disk) && EntriesOf(c) <= EntriesOf(disk)
    ensures Matching(req, ast, ToSet(Log(kept, disk))) == Matching(req, ast, EntriesOf(c) + Reached(req, ast, c, disk))
  {
    LogMembers(kept, disk);
    forall e | e in EntriesOf(c) ensures e in EntriesOf(disk) && (Accepts(req, ast, e) ==> e in Reached(req, ast, c, disk)) {
      var p :| p in c && e in c[p];
      assert e in At(disk, p);
      if Accepts(req, ast, e) {
        AcceptedIsCandidate(req, ast, At(c, p), e);
      }
    }
    forall e ensures e in Log(kept, disk) <==> e in Reached(req, ast, c, disk) {
      if e in Log(kept, disk) {
        var p :| p in kept && e in At(disk, p);
        assert p in disk;
      }
    }
  }

  /** Between an append and its index update, with any number of appends under way: without filters, a query is the full
      scan of everything indexed, and of an entry not yet indexed exactly if the rest of its segment is a candidate. */
  method QueryBeforeAdd(idx: Index, disk: Contents, req: Request, ghost c: Contents) returns (r: Outcome<QueryResult>)
    requires idx.Agrees(c) && Lags(c, disk) && IdsIdentify(EntriesOf(disk))
    ensures r.Success? ==>
      && Parsed(req.query).Ok?
      && var all := EntriesOf(c) + Reached(req, Parsed(req.query).value, c, disk); IdsIdentify(all) && r == FullScan(req, all)
    ensures r.Failure? ==> r == FullScan(req, EntriesOf(disk))
  {
    var kept;
    r, kept := Execute(req, idx, c, disk, map[], NO_FAULTS);
    if r.Success? {
      var ast := Parsed(req.query).value;
      LaggingRead(req, ast, c, disk, kept);
      SurvivorsMatch(req, ast, Log(kept, disk));
    }
  }
}
