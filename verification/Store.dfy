/** The segment store as values: directory, path list, recovery, and every step's effect on the log.

A segment is named by its sequence number; `Log` is what reading the path list returns. The
manager and the compactor (module `Compactors`) are proved to take exactly these steps.
*/
module Store {
  import opened Ordering
  import opened Entries
  import opened Index
  import opened Executor

  /** The data directory: segment files, leftover temp files, bloom sidecars, the ACTIVE marker. */
  datatype Dir = Dir(files: Contents, tmp: Contents, sidecars: map<Path, Bloom>, marker: Option<Path>)

  datatype Store = Store(dir: Dir, paths: seq<Path>, nextSeq: nat)

  /** One call that changes the directory; each is atomic. */
  datatype Change =
    | CreateSegment(p: Path)
    | AppendRecord(p: Path, e: Entry)
    | RemoveSegment(p: Path)
    | CreateTemp(p: Path)
    | AppendTemp(p: Path, e: Entry)
    | RemoveTemp(p: Path)
    | RenameTemp(p: Path)
    | WriteSidecar(p: Path, b: Bloom)
    | RemoveSidecar(p: Path)
    | WriteMarker(p: Path)

  function Changed(d: Dir, c: Change): Dir {
    match c
    case CreateSegment(p) => if p in d.files then d else d.(files := d.files[p := []])
    case AppendRecord(p, e) => d.(files := Extended(d.files, p, e))
    case RemoveSegment(p) => d.(files := d.files - {p})
    case CreateTemp(p) => if p in d.tmp then d else d.(tmp := d.tmp[p := []])
    case AppendTemp(p, e) => d.(tmp := Extended(d.tmp, p, e))
    case RemoveTemp(p) => d.(tmp := d.tmp - {p})
    case RenameTemp(p) => if p in d.tmp then d.(files := d.files[p := d.tmp[p]], tmp := d.tmp - {p}) else d
    case WriteSidecar(p, b) => d.(sidecars := d.sidecars[p := b])
    case RemoveSidecar(p) => d.(sidecars := d.sidecars - {p})
    case WriteMarker(p) => d.(marker := Some(p))
  }

  /** The directory after changes, one after the other. */
  function Ran(d: Dir, cs: seq<Change>): Dir {
    if cs == [] then d else Changed(Ran(d, cs[..|cs| - 1]), cs[|cs| - 1])
  }

  /** Wherever the changes are cut short, the directory is as it should be. */
  ghost predicate Through(d: Dir, cs: seq<Change>, ok: Dir -> bool) {
    forall k :: 0 <= k <= |cs| ==> ok(Ran(d, cs[..k]))
  }

  lemma RanNext(d: Dir, cs: seq<Change>, c: Change)
    ensures Ran(d, cs + [c]) == Changed(Ran(d, cs), c)
  {
    assert (cs + [c])[..|cs|] == cs;
  }

  lemma {:induction false} RanConcat(d: Dir, a: seq<Change>, b: seq<Change>)
    ensures Ran(d, a + b) == Ran(Ran(d, a), b)
  {
    if b == [] {
      AppendNone(a);
    } else {
      var n := |b| - 1;
      RanConcat(d, a, b[..n]);
      AppendLast(a, b);
      RanNext(d, a + b[..n], b[n]);
    }
  }

  lemma RanOne(d: Dir, c: Change)
    ensures Ran(d, [c]) == Changed(d, c)
  {
    assert [c][..0] == [];
  }

  lemma ThroughConcat(d: Dir, a: seq<Change>, b: seq<Change>, ok: Dir -> bool)
    requires Through(d, a, ok) && Through(Ran(d, a), b, ok)
    ensures Through(d, a + b, ok)
  {
    forall k | 0 <= k <= |a + b| ensures ok(Ran(d, (a + b)[..k])) {
      if k <= |a| {
        assert (a + b)[..k] == a[..k];
      } else {
        assert (a + b)[..k] == a + b[..k - |a|];
        RanConcat(d, a, b[..k - |a|]);
      }
    }
  }

  lemma ThroughThen(d: Dir, a: seq<Change>, mid: Dir, b: seq<Change>, to: Dir, ok: Dir -> bool)
    requires Ran(d, a) == mid && Through(d, a, ok) && Ran(mid, b) == to && Through(mid, b, ok)
    ensures Ran(d, a + b) == to && Through(d, a + b, ok)
  {
    RanConcat(d, a, b);
    ThroughConcat(d, a, b, ok);
  }

  lemma ThroughNone(d: Dir, ok: Dir -> bool)
    requires ok(d)
    ensures Through(d, [], ok)
  {
  }

  lemma ThroughOne(d: Dir, c: Change, ok: Dir -> bool)
    requires ok(d) && ok(Changed(d, c))
    ensures Through(d, [c], ok)
  {
    assert [c][..0] == [] && [c][..1] == [c];
  }

  lemma ThroughNext(d: Dir, cs: seq<Change>, c: Change, ok: Dir -> bool)
    requires Through(d, cs, ok) && ok(Changed(Ran(d, cs), c))
    ensures Through(d, cs + [c], ok)
  {
    assert cs[..|cs|] == cs;
    ThroughOne(Ran(d, cs), c, ok);
    ThroughConcat(d, cs, [c], ok);
  }

  // ------------------------------------------------------------ sorted paths

  ghost predicate IsSortedPaths(r: seq<Path>, s: set<Path>) {
    Ascending(r, Below) && ToSet(r) == s
  }

  lemma MaxExists(s: set<Path>) returns (m: Path)
    requires s != {}
    ensures m in s && forall x :: x in s ==> x <= m
  {
    m :| m in s;
    var rest := s - {m};
    while rest != {}
      invariant m in s && rest <= s
      invariant forall x :: x in s && x !in rest ==> x <= m
      decreases |rest|
    {
      var x :| x in rest;
      if x > m {
        m := x;
      }
      rest := rest - {x};
    }
  }

  lemma {:induction false} SortedPathsExist(s: set<Path>)
    ensures exists r :: IsSortedPaths(r, s)
  {
    if s == {} {
      assert IsSortedPaths([], s);
    } else {
      var m := MaxExists(s);
      SortedPathsExist(s - {m});
      var t :| IsSortedPaths(t, s - {m});
      assert forall i :: 0 <= i < |t| ==> t[i] in ToSet(t);
      ToSetConcat(t, [m]);
      assert IsSortedPaths(t + [m], s);
    }
  }

  ghost function SortedPaths(s: set<Path>): (r: seq<Path>)
    ensures Ascending(r, Below) && ToSet(r) == s
  {
    SortedPathsExist(s);
    var r :| IsSortedPaths(r, s);
    r
  }

  lemma SortedPathsIs(r: seq<Path>)
    requires Ascending(r, Below)
    ensures SortedPaths(ToSet(r)) == r
  {
    AscendingUnique(r, SortedPaths(ToSet(r)), Below);
  }

  // ---------------------------------------------------------------- recovery

  function KeepPaths(paths: seq<Path>, gone: set<Path>): seq<Path> {
    Keep(paths, p => p !in gone)
  }

  lemma KeptPaths(paths: seq<Path>, gone: set<Path>)
    ensures forall p :: p in KeepPaths(paths, gone) <==> p in paths && p !in gone
    ensures Ascending(paths, Below) ==> Ascending(KeepPaths(paths, gone), Below)
  {
    KeepMembers(paths, p => p !in gone);
    if Ascending(paths, Below) {
      KeepOrdered(paths, p => p !in gone, Below);
    }
  }

  /** The active segment on restart: the marked one if it exists, else the last by name. */
  function ActiveOf(dir: Dir, matches: seq<Path>): Option<Path> {
    if dir.marker.Some? && dir.marker.value in dir.files then dir.marker
    else if matches != [] then Some(matches[|matches| - 1])
    else None
  }

  /** nextSeqFromMatches: one more than the largest number, or 1. */
  function NextSeq(matches: seq<Path>): (n: nat)
    ensures forall p :: p in matches ==> p < n
  {
    if matches == [] then 1
    else
      var n := NextSeq(matches[..|matches| - 1]);
      SplitLast(matches);
      if matches[|matches| - 1] >= n then matches[|matches| - 1] + 1 else n
  }

  /** openNewSegment: create (or reopen) the next file, list it last and mark it active. */
  function OpenNew(s: Store): Store {
    Store(Changed(Changed(s.dir, CreateSegment(s.nextSeq)), WriteMarker(s.nextSeq)), s.paths + [s.nextSeq], s.nextSeq + 1)
  }

  /** NewManager on a directory. */
  ghost function Recover(dir: Dir): Store {
    var matches := SortedPaths(dir.files.Keys);
    match ActiveOf(dir, matches)
    case None => OpenNew(Store(dir, [], NextSeq(matches)))
    case Some(active) => Store(dir, KeepPaths(matches, {active}) + [active], NextSeq(matches))
  }

  // ------------------------------------------------------------------- steps

  ghost predicate PairOk(paths: seq<Path>, f: Contents, i: nat, j: nat) {
    i < j < |paths| ==> paths[i] < paths[j] || At(f, paths[i]) == []
  }

  ghost predicate TripleOk(paths: seq<Path>, i: nat, j: nat, k: nat) {
    i < j < k < |paths| ==> paths[i] < paths[j] || paths[i] < paths[k]
  }

  /** Listed by number, except that a segment may stand behind larger ones that are empty: those that rotations
      cut short by a crash left behind. No two segments stand behind the same larger one. */
  ghost predicate Orderly(paths: seq<Path>, f: Contents) {
    && (forall i, j :: PairOk(paths, f, i, j))
    && (forall i, j, k :: TripleOk(paths, i, j, k))
  }

  /** A valid marker names `active`; without one `active` is the last by name. */
  ghost predicate Marked(dir: Dir, active: Path) {
    if dir.marker.Some? && dir.marker.value in dir.files then dir.marker.value == active
    else forall p :: p in dir.files ==> p <= active
  }

  /** Between operations: the path list is an orderly list of the files, its last one the active segment. */
  ghost predicate Quiet(s: Store) {
    && s.paths != [] && Distinct(s.paths) && ToSet(s.paths) == s.dir.files.Keys
    && Orderly(s.paths, s.dir.files) && Marked(s.dir, Active(s))
    && forall p :: p in s.paths ==> p < s.nextSeq
  }

  function Active(s: Store): Path
    requires s.paths != []
  {
    s.paths[|s.paths| - 1]
  }

  function StoreLog(s: Store): seq<Entry> {
    Log(s.paths, s.dir.files)
  }

  /** Bytes of a segment file, given the framed size of an entry. */
  function Size(es: seq<Entry>, size: Entry -> nat): nat {
    if es == [] then 0 else Size(es[..|es| - 1], size) + size(es[|es| - 1])
  }

  /** rotate: close the active segment, writing its bloom sidecar if blooms are on. */
  function Rotated(s: Store, bloom: bool): Store
    requires s.paths != []
  {
    OpenNew(s.(dir := RotateDir(s, bloom, 0)))
  }

  /** The directory in the middle of a rotation: the sidecar written, then the new file created, then marked. */
  function RotateDir(s: Store, bloom: bool, stage: nat): Dir
    requires s.paths != []
  {
    var sealed := if bloom then Changed(s.dir, WriteSidecar(Active(s), BloomTokens(At(s.dir.files, Active(s))))) else s.dir;
    if stage == 0 then sealed
    else if stage == 1 then Changed(sealed, CreateSegment(s.nextSeq))
    else Changed(Changed(sealed, CreateSegment(s.nextSeq)), WriteMarker(s.nextSeq))
  }

  /** appendLocked: rotate if the record would cross the size limit, then append. */
  function AppendTo(s: Store, e: Entry, size: Entry -> nat, limit: int, bloom: bool): Store
    requires s.paths != []
  {
    var t := WithRoom(s, e, size, limit, bloom);
    t.(dir := Changed(t.dir, AppendRecord(Active(t), e)))
  }

  /** The store in which the entry fits: rotated if it would exceed the limit. */
  function WithRoom(s: Store, e: Entry, size: Entry -> nat, limit: int, bloom: bool): Store
    requires s.paths != []
  {
    if Size(At(s.dir.files, Active(s)), size) + size(e) > limit then Rotated(s, bloom) else s
  }

  /** The changes of a rotation, in order. */
  function RotateChanges(s: Store, bloom: bool): seq<Change>
    requires s.paths != []
  {
    (if bloom then [WriteSidecar(Active(s), BloomTokens(At(s.dir.files, Active(s))))] else [])
      + [CreateSegment(s.nextSeq), WriteMarker(s.nextSeq)]
  }

  function RoomChanges(s: Store, e: Entry, size: Entry -> nat, limit: int, bloom: bool): seq<Change>
    requires s.paths != []
  {
    if Size(At(s.dir.files, Active(s)), size) + size(e) > limit then RotateChanges(s, bloom) else []
  }

  /** The changes of an append, in order. */
  function AppendChanges(s: Store, e: Entry, size: Entry -> nat, limit: int, bloom: bool): seq<Change>
    requires s.paths != []
  {
    RoomChanges(s, e, size, limit, bloom) + [AppendRecord(Active(WithRoom(s, e, size, limit, bloom)), e)]
  }

  ghost predicate IsRun(s: Store, i: nat, j: nat) {
    i + 2 <= j < |s.paths|
  }

  /** mergeRun after the rename and the deletion of the first k - 1 merged-away files. */
  function MergedFiles(files: Contents, run: seq<Path>, k: nat): Contents
    requires 1 <= k <= |run|
  {
    files[run[0] := Log(run, files)] - ToSet(run[1..k])
  }

  function MergedDir(dir: Dir, run: seq<Path>, k: nat): Dir
    requires 1 <= k <= |run|
  {
    dir.(files := MergedFiles(dir.files, run, k))
  }

  /** A complete merge of the segments at places i up to j. */
  function MergedStore(s: Store, i: nat, j: nat): Store
    requires IsRun(s, i, j)
  {
    s.(dir := MergedDir(s.dir, s.paths[i..j], j - i), paths := s.paths[..i + 1] + s.paths[j..])
  }

  // ------------------------------------------------------------ log and paths

  lemma {:induction false} LogConcat(a: seq<Path>, b: seq<Path>, files: Contents)
    ensures Log(a + b, files) == Log(a, files) + Log(b, files)
  {
    if b == [] {
      AppendNone(a);
      AppendNone(Log(a, files));
    } else {
      var n := |b| - 1;
      LogConcat(a, b[..n], files);
      AppendLast(a, b);
      LogEnd(a + b[..n], b[n], files);
      Associate(Log(a, files), Log(b[..n], files), At(files, b[n]));
    }
  }

  lemma LogEnd(paths: seq<Path>, p: Path, files: Contents)
    ensures Log(paths + [p], files) == Log(paths, files) + At(files, p)
  {
    assert (paths + [p])[..|paths|] == paths;
  }

  lemma {:induction false} LogSame(paths: seq<Path>, f: Contents, g: Contents)
    requires forall p :: p in paths ==> At(f, p) == At(g, p)
    ensures Log(paths, f) == Log(paths, g)
  {
    if paths != [] {
      var n := |paths| - 1;
      LogSame(paths[..n], f, g);
    }
  }

  lemma LogOne(p: Path, files: Contents)
    ensures Log([p], files) == At(files, p)
  {
    assert [p][..0] == [];
  }

  /** The segments that hold entries. */
  function Busy(paths: seq<Path>, f: Contents): seq<Path> {
    Keep(paths, p => At(f, p) != [])
  }

  lemma BusyMembers(paths: seq<Path>, f: Contents)
    ensures forall p :: p in Busy(paths, f) <==> p in paths && At(f, p) != []
  {
    KeepMembers(paths, p => At(f, p) != []);
  }

  lemma BusyConcat(a: seq<Path>, b: seq<Path>, f: Contents)
    ensures Busy(a + b, f) == Busy(a, f) + Busy(b, f)
  {
    KeepConcat(a, b, p => At(f, p) != []);
  }

  /** Empty segments do not show in the log. */
  lemma {:induction false} BusyLog(paths: seq<Path>, f: Contents)
    ensures Log(Busy(paths, f), f) == Log(paths, f)
  {
    if paths != [] {
      var n := |paths| - 1;
      BusyLog(paths[..n], f);
      SplitLast(paths);
      BusyConcat(paths[..n], [paths[n]], f);
      LogEnd(Busy(paths[..n], f), paths[n], f);
      AppendNone(Busy(paths[..n], f));
      AppendNone(Log(paths[..n], f));
    }
  }

  lemma BusyOrder(paths: seq<Path>, f: Contents)
    requires Orderly(paths, f)
    ensures Ascending(Busy(paths, f), Below)
  {
    forall i, j | 0 <= i < j < |paths| && At(f, paths[i]) != [] && At(f, paths[j]) != [] ensures Below(paths[i], paths[j]) {
      assert PairOk(paths, f, i, j);
    }
    KeepOrdered(paths, p => At(f, p) != [], Below);
  }

  lemma SubsetOrderly(q: seq<Path>, paths: seq<Path>, m: seq<nat>, f: Contents, g: Contents)
    requires Orderly(paths, f) && Embeds(q, paths, m)
    requires forall p :: p in q && At(f, p) == [] ==> At(g, p) == []
    ensures Orderly(q, g)
  {
    forall i: nat, j: nat | i < j < |q| ensures PairOk(q, g, i, j) {
      assert Below(m[i], m[j]) && PairOk(paths, f, m[i], m[j]);
    }
    forall i: nat, j: nat, k: nat | i < j < k < |q| ensures TripleOk(q, i, j, k) {
      assert Below(m[i], m[j]) && Below(m[j], m[k]) && TripleOk(paths, m[i], m[j], m[k]);
    }
  }

  // -------------------------------------------------------- what recovery does

  /** Every file numbered above a valid marker is empty. */
  ghost predicate Recoverable(dir: Dir) {
    && dir.files.Keys != {}
    && (dir.marker.Some? && dir.marker.value in dir.files ==>
          forall p :: p in dir.files && dir.marker.value < p ==> At(dir.files, p) == [])
  }

  lemma LastIsLargest(paths: seq<Path>)
    requires Ascending(paths, Below) && paths != []
    ensures forall p :: p in paths ==> p <= paths[|paths| - 1]
  {
    forall i | 0 <= i < |paths| ensures paths[i] <= paths[|paths| - 1] {
      assert i < |paths| - 1 ==> Below(paths[i], paths[|paths| - 1]);
    }
  }

  /** A sorted list with one element moved to the end. */
  lemma MovedToEnd(sorted: seq<Path>, a: Path, f: Contents)
    requires Ascending(sorted, Below) && a in sorted && forall p :: p in sorted && a < p ==> At(f, p) == []
    ensures var r := KeepPaths(sorted, {a}) + [a]; Orderly(r, f) && Distinct(r) && ToSet(r) == ToSet(sorted)
  {
    var k := KeepPaths(sorted, {a});
    var r := k + [a];
    KeptPaths(sorted, {a});
    forall i: nat, j: nat | i < j < |r| ensures PairOk(r, f, i, j) {
      assert r[i] == k[i] && k[i] in k;
      assert j < |k| ==> Below(k[i], k[j]);
    }
    forall i: nat, j: nat, l: nat | i < j < l < |r| ensures TripleOk(r, i, j, l) {
      assert Below(k[i], k[j]);
    }
    forall i, j | 0 <= i < j < |r| ensures r[i] != r[j] {
      assert k[i] in k && (j < |k| ==> Below(k[i], k[j]));
    }
    ToSetConcat(k, [a]);
  }

  lemma RecoverShape(dir: Dir)
    requires Recoverable(dir)
    ensures Recover(dir).dir == dir && Quiet(Recover(dir))
  {
    var matches := SortedPaths(dir.files.Keys);
    EmptySet(matches);
    var a := ActiveOf(dir, matches).value;
    assert forall p :: p in matches <==> p in ToSet(matches);
    LastIsLargest(matches);
    MovedToEnd(matches, a, dir.files);
    assert forall p :: p in Recover(dir).paths <==> p in ToSet(Recover(dir).paths);
  }

  /** Reading a recovered store gives the non-empty files by number. */
  lemma RecoverReads(dir: Dir, q: seq<Path>)
    requires Recoverable(dir) && Ascending(q, Below) && forall p :: p in q <==> At(dir.files, p) != []
    ensures StoreLog(Recover(dir)) == Log(q, dir.files)
  {
    RecoverShape(dir);
    QuietReads(Recover(dir), q);
  }

  lemma QuietReads(s: Store, q: seq<Path>)
    requires Quiet(s) && Ascending(q, Below) && forall p :: p in q <==> At(s.dir.files, p) != []
    ensures StoreLog(s) == Log(q, s.dir.files)
  {
    QuietBusy(s);
    var b := Busy(s.paths, s.dir.files);
    assert ToSet(b) == ToSet(q);
    AscendingUnique(b, q, Below);
  }

  lemma QuietRecoverable(s: Store)
    requires Quiet(s)
    ensures Recoverable(s.dir) && forall p :: p in s.dir.files && Active(s) < p ==> At(s.dir.files, p) == []
  {
    var n := |s.paths| - 1;
    assert s.paths[n] in ToSet(s.paths);
    forall p | p in s.dir.files && Active(s) < p ensures At(s.dir.files, p) == [] {
      assert p in ToSet(s.paths);
      var i :| 0 <= i < |s.paths| && s.paths[i] == p;
      assert PairOk(s.paths, s.dir.files, i, n);
    }
  }

  lemma QuietBusy(s: Store)
    requires Quiet(s)
    ensures var q := Busy(s.paths, s.dir.files);
      Ascending(q, Below) && Log(q, s.dir.files) == StoreLog(s) && forall p :: p in q <==> At(s.dir.files, p) != []
  {
    BusyOrder(s.paths, s.dir.files);
    BusyMembers(s.paths, s.dir.files);
    BusyLog(s.paths, s.dir.files);
    assert forall p :: p in s.dir.files ==> p in ToSet(s.paths);
  }

  lemma RecoveredActive(dir: Dir, a: Path)
    requires Recoverable(dir) && a in dir.files && Marked(dir, a)
    ensures Active(Recover(dir)) == a
  {
    var matches := SortedPaths(dir.files.Keys);
    EmptySet(matches);
    assert forall p :: p in matches <==> p in ToSet(matches);
    LastIsLargest(matches);
    assert matches[|matches| - 1] in matches;
  }

  /** A restart between operations finds the same files, active segment and log. The order of the list may
      change, but only where empty segments stand. */
  lemma RestartExact(s: Store)
    requires Quiet(s)
    ensures var r := Recover(s.dir); Quiet(r) && r.dir == s.dir && Active(r) == Active(s) && StoreLog(r) == StoreLog(s)
  {
    QuietRecoverable(s);
    RecoverShape(s.dir);
    QuietBusy(s);
    RecoverReads(s.dir, Busy(s.paths, s.dir.files));
    assert Active(s) in ToSet(s.paths);
    RecoveredActive(s.dir, Active(s));
  }

  lemma OneEmptySegment(s: Store)
    requires s.paths == [1] && s.dir.files == map[1 := []] && s.dir.marker == Some(1) && s.nextSeq == 2
    ensures Quiet(s) && StoreLog(s) == []
  {
    LogOne(1, s.dir.files);
  }

  /** On a directory without segments, the first one is created. */
  lemma FirstSegment(dir: Dir)
    requires dir.files == map[]
    ensures Quiet(Recover(dir)) && StoreLog(Recover(dir)) == []
    ensures Recover(dir).dir == Changed(Changed(dir, CreateSegment(1)), WriteMarker(1))
  {
    EmptySet(SortedPaths(dir.files.Keys));
    assert dir.files.Keys == {} && dir.files[1 := []] == map[1 := []];
    assert Recover(dir).paths == [] + [1] == [1];
    OneEmptySegment(Recover(dir));
  }

  /** Interrupted before the marker write, a restart finds it. */
  lemma FirstSegmentCrash(dir: Dir)
    requires dir.files == map[]
    ensures var d := Changed(dir, CreateSegment(1)); Quiet(Recover(d)) && StoreLog(Recover(d)) == [] && Recover(d).dir == d
  {
    var d := Changed(dir, CreateSegment(1));
    assert d.files == map[1 := []];
    RecoverShape(d);
    RecoverReads(d, []);
  }

  // ----------------------------------------------------------------- appends

  lemma LogNew(paths: seq<Path>, files: Contents, p: Path)
    requires p !in files
    ensures Log(paths + [p], files[p := []]) == Log(paths, files)
  {
    LogSame(paths, files, files[p := []]);
    assert (paths + [p])[..|paths|] == paths;
  }

  /** In a quiet store the log holds exactly the entries on disk. */
  lemma QuietEntries(s: Store)
    requires Quiet(s)
    ensures EntriesOf(s.dir.files) == ToSet(StoreLog(s))
  {
    LogMembers(s.paths, s.dir.files);
    forall e | e in EntriesOf(s.dir.files) ensures e in StoreLog(s) {
      var p :| p in s.dir.files && e in s.dir.files[p];
      assert p in ToSet(s.paths) && e in At(s.dir.files, p);
    }
    forall e | e in StoreLog(s) ensures e in EntriesOf(s.dir.files) {
      var p :| p in s.paths && e in At(s.dir.files, p);
      assert p in s.dir.files;
    }
  }

  lemma ExtendOrderly(paths: seq<Path>, f: Contents, p: Path)
    requires Orderly(paths, f) && forall q :: q in paths ==> q < p
    ensures Orderly(paths + [p], f)
  {
    var r := paths + [p];
    forall i: nat, j: nat | i < j < |r| ensures PairOk(r, f, i, j) {
      assert PairOk(paths, f, i, j) && paths[i] in paths;
    }
    forall i: nat, j: nat, k: nat | i < j < k < |r| ensures TripleOk(r, i, j, k) {
      assert TripleOk(paths, i, j, k) && paths[i] in paths;
    }
  }

  lemma OrderlySame(paths: seq<Path>, f: Contents, g: Contents)
    requires Orderly(paths, f) && forall p :: p in paths && At(f, p) == [] ==> At(g, p) == []
    ensures Orderly(paths, g)
  {
    forall i: nat, j: nat | i < j < |paths| ensures PairOk(paths, g, i, j) {
      assert PairOk(paths, f, i, j) && paths[i] in paths;
    }
  }

  lemma OpenNewQuiet(s: Store)
    requires Quiet(s)
    ensures Quiet(OpenNew(s)) && StoreLog(OpenNew(s)) == StoreLog(s) && At(OpenNew(s).dir.files, s.nextSeq) == []
  {
    var p, t := s.nextSeq, OpenNew(s);
    assert p !in s.dir.files by {
      assert p !in ToSet(s.paths);
    }
    ExtendOrderly(s.paths, s.dir.files, p);
    OrderlySame(t.paths, s.dir.files, t.dir.files);
    ToSetConcat(s.paths, [p]);
    LogNew(s.paths, s.dir.files, p);
  }

  /** Appending to the last of distinct segments appends to the log. */
  lemma LogExtended(paths: seq<Path>, files: Contents, e: Entry)
    requires Distinct(paths) && paths != []
    ensures Log(paths, Extended(files, paths[|paths| - 1], e)) == Log(paths, files) + [e]
  {
    var n := |paths| - 1;
    LogSame(paths[..n], files, Extended(files, paths[n], e));
    Associate(Log(paths[..n], files), At(files, paths[n]), [e]);
  }

  lemma AppendActive(s: Store, e: Entry)
    requires Quiet(s)
    ensures var t := s.(dir := Changed(s.dir, AppendRecord(Active(s), e)));
      Quiet(t) && StoreLog(t) == StoreLog(s) + [e]
  {
    var n := |s.paths| - 1;
    var g := Extended(s.dir.files, Active(s), e);
    LogExtended(s.paths, s.dir.files, e);
    assert Active(s) in ToSet(s.paths);
    assert g.Keys == s.dir.files.Keys;
    forall i: nat, j: nat | i < j <= n ensures PairOk(s.paths, g, i, j) {
      assert PairOk(s.paths, s.dir.files, i, j) && s.paths[i] != s.paths[n];
    }
  }

  lemma SealedQuiet(s: Store, bloom: bool)
    requires Quiet(s)
    ensures var t := s.(dir := RotateDir(s, bloom, 0)); Quiet(t) && StoreLog(t) == StoreLog(s) && Active(t) == Active(s)
  {
  }

  /** Appending, with or without rotation, adds the entry at the end of the log. */
  lemma AppendExact(s: Store, e: Entry, size: Entry -> nat, limit: int, bloom: bool)
    requires Quiet(s)
    ensures Quiet(AppendTo(s, e, size, limit, bloom))
    ensures StoreLog(AppendTo(s, e, size, limit, bloom)) == StoreLog(s) + [e]
  {
    if Size(At(s.dir.files, Active(s)), size) + size(e) > limit {
      var t := s.(dir := RotateDir(s, bloom, 0));
      SealedQuiet(s, bloom);
      OpenNewQuiet(t);
      AppendActive(OpenNew(t), e);
    } else {
      AppendActive(s, e);
    }
  }

  /** A crash anywhere in a rotation: restart finds the same log. Between file creation and marker write it
      reopens the old active segment, with the new empty file listed before it. */
  lemma RotateCrashKeepsLog(s: Store, bloom: bool, stage: nat)
    requires Quiet(s)
    ensures var r := Recover(RotateDir(s, bloom, stage));
      && r.dir == RotateDir(s, bloom, stage) && Quiet(r) && StoreLog(r) == StoreLog(s)
      && Active(r) == (if stage == 0 || (stage == 1 && s.dir.marker == Some(Active(s))) then Active(s) else s.nextSeq)
  {
    var t := s.(dir := RotateDir(s, bloom, 0));
    SealedQuiet(s, bloom);
    if stage == 0 {
      RestartExact(t);
    } else if stage == 1 {
      CreatedKeepsLog(t);
    } else {
      OpenNewQuiet(t);
      RestartExact(OpenNew(t));
    }
  }

  lemma RotateCut(s: Store, bloom: bool, k: nat)
    requires s.paths != [] && k <= |RotateChanges(s, bloom)|
    ensures Ran(s.dir, RotateChanges(s, bloom)[..k]) ==
      if bloom && k == 0 then s.dir else RotateDir(s, bloom, if bloom then k - 1 else k)
  {
    var cs := RotateChanges(s, bloom);
    assert cs[..0] == [];
    if k > 0 {
      assert cs[..k][..k - 1] == cs[..k - 1];
      RotateCut(s, bloom, k - 1);
    }
  }

  lemma RotateRuns(s: Store, bloom: bool)
    requires s.paths != []
    ensures Ran(s.dir, RotateChanges(s, bloom)) == Rotated(s, bloom).dir
  {
    var cs := RotateChanges(s, bloom);
    assert cs[..|cs|] == cs;
    RotateCut(s, bloom, |cs|);
  }

  lemma AppendRuns(s: Store, e: Entry, size: Entry -> nat, limit: int, bloom: bool)
    requires s.paths != []
    ensures Ran(s.dir, RoomChanges(s, e, size, limit, bloom)) == WithRoom(s, e, size, limit, bloom).dir
    ensures Ran(s.dir, AppendChanges(s, e, size, limit, bloom)) == AppendTo(s, e, size, limit, bloom).dir
  {
    RotateRuns(s, bloom);
    RanNext(s.dir, RoomChanges(s, e, size, limit, bloom), AppendRecord(Active(WithRoom(s, e, size, limit, bloom)), e));
  }

  /** An append that is cut short has done part of a rotation, or everything. */
  lemma AppendCut(s: Store, e: Entry, size: Entry -> nat, limit: int, bloom: bool, k: nat)
    requires s.paths != [] && k <= |AppendChanges(s, e, size, limit, bloom)|
    ensures var d := Ran(s.dir, AppendChanges(s, e, size, limit, bloom)[..k]);
      || d == s.dir || d == AppendTo(s, e, size, limit, bloom).dir
      || (exists stage :: 0 <= stage <= 2 && d == RotateDir(s, bloom, stage))
  {
    var cs, room := AppendChanges(s, e, size, limit, bloom), RoomChanges(s, e, size, limit, bloom);
    if k == |cs| {
      assert cs[..k] == cs;
      AppendRuns(s, e, size, limit, bloom);
    } else {
      assert cs[..k] == room[..k];
      if room != [] {
        RotateCut(s, bloom, k);
      }
    }
  }

  lemma CreatedKeepsLog(t: Store)
    requires Quiet(t)
    ensures var d := Changed(t.dir, CreateSegment(t.nextSeq)); var r := Recover(d);
      && r.dir == d && Quiet(r) && StoreLog(r) == StoreLog(t)
      && Active(r) == if t.dir.marker == Some(Active(t)) then Active(t) else t.nextSeq
  {
    var d, q := Changed(t.dir, CreateSegment(t.nextSeq)), Busy(t.paths, t.dir.files);
    assert t.nextSeq !in ToSet(t.paths);
    assert forall p :: At(d.files, p) == At(t.dir.files, p);
    QuietRecoverable(t);
    QuietBusy(t);
    assert Active(t) in ToSet(t.paths);
    RecoverShape(d);
    RecoverReads(d, q);
    LogSame(q, t.dir.files, d.files);
    if t.dir.marker == Some(Active(t)) {
      RecoveredActive(d, Active(t));
    } else {
      assert forall p :: p in t.dir.files ==> p in ToSet(t.paths);
      RecoveredActive(d, t.nextSeq);
    }
  }
}
