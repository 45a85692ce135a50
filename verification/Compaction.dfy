/** Merge and retention passes as directory states: which states they pass through, and what a restart makes of
each of them. Module `Passes` shows that the passes go through no others. */
module Compaction {
  import opened Ordering
  import opened Entries
  import opened Index
  import opened Executor
  import opened Store
  import opened Merging
  import opened Filters

  // ----------------------------------------------------------- merge states

  /** The sidecars once the merged one is written: no foreign ones, none changed but the merged file's. */
  ghost predicate SidecarsMerged(d: Dir, d0: Dir, run: seq<Path>, bloom: bool)
    requires run != []
  {
    forall p :: p in d.sidecars ==>
      if bloom && p == run[0] then BloomTokens(Log(run, d0.files)) <= d.sidecars[p]
      else p in d0.sidecars && d.sidecars[p] == d0.sidecars[p]
  }

  /** Renamed, but the old sidecar still stands beside the merged file. */
  ghost predicate InWindow(d0: Dir, run: seq<Path>, d: Dir)
    requires run != []
  {
    d.files == MergedFiles(d0.files, run, 1) && d.sidecars == d0.sidecars
  }

  /** The directory states a merge of `run` passes through, starting from `d0`. */
  ghost predicate MidMerge(d0: Dir, run: seq<Path>, bloom: bool, d: Dir)
    requires run != []
  {
    && d.marker == d0.marker
    && ( || (d.files == d0.files && d.sidecars == d0.sidecars)
         || InWindow(d0, run, d)
         || (SidecarsMerged(d, d0, run, bloom) && exists k :: 1 <= k <= |run| && d.files == MergedFiles(d0.files, run, k)))
  }

  // ------------------------------------------------------------ crash safety

  /** Recovery looks at files and marker only. */
  lemma RecoverLooksAtFiles(d: Dir, d': Dir)
    requires d.files == d'.files && d.marker == d'.marker && d.files.Keys != {}
    ensures Recover(d) == Recover(d').(dir := d)
  {
    EmptySet(SortedPaths(d.files.Keys));
  }

  /** A restart finds the same entries, the same log once repeated IDs are dropped, and the same active segment. */
  ghost predicate SafeToRecover(d: Dir, s: Store)
    requires s.paths != []
  {
    var r := Recover(d);
    r.dir == d && Quiet(r) && Active(r) == Active(s) && SameUpToRepeats(StoreLog(r), StoreLog(s))
  }

  lemma CrashBefore(s: Store, d: Dir)
    requires Quiet(s) && d.files == s.dir.files && d.marker == s.dir.marker
    ensures SafeToRecover(d, s)
  {
    RestartExact(s);
    assert Active(s) in ToSet(s.paths);
    RecoverLooksAtFiles(d, s.dir);
    QuietSame(Recover(s.dir), Recover(d));
  }

  lemma CrashAfter(s: Store, i: nat, j: nat, m: nat, d: Dir)
    requires Quiet(s) && IsRun(s, i, j) && i < m <= j
    requires d.files == MergedFiles(s.dir.files, s.paths[i..j], m - i) && d.marker == s.dir.marker
    ensures SafeToRecover(d, s)
  {
    var d' := MergedDir(s.dir, s.paths[i..j], m - i);
    MergeCrashSafe(s, i, j, m);
    MidMergeRecoverable(s, i, j, m);
    RecoverLooksAtFiles(d, d');
    QuietSame(Recover(d'), Recover(d));
  }

  lemma QuietSame(s: Store, t: Store)
    requires Quiet(s) && t.paths == s.paths && t.nextSeq == s.nextSeq
    requires t.dir.files == s.dir.files && t.dir.marker == s.dir.marker
    ensures Quiet(t) && StoreLog(t) == StoreLog(s) && Active(t) == Active(s)
  {
  }

  /** Wherever mergeRun is interrupted, restart finds the pre-merge entries, and the log up to repeats. */
  lemma CrashAnywhereSafe(s: Store, i: nat, j: nat, bloom: bool, d: Dir)
    requires Quiet(s) && IsRun(s, i, j) && MidMerge(s.dir, s.paths[i..j], bloom, d)
    ensures SafeToRecover(d, s)
  {
    if d.files == s.dir.files {
      CrashBefore(s, d);
    } else {
      var k :| 1 <= k <= j - i && d.files == MergedFiles(s.dir.files, s.paths[i..j], k);
      CrashAfter(s, i, j, i + k, d);
    }
  }

  // ------------------------------------------------------- filters in merges

  /** `g` holds the run's log in the run's first file; the run's other files are as in `f` or gone. */
  ghost predicate MergedInto(f: Contents, g: Contents, run: seq<Path>)
    requires run != []
  {
    && At(g, run[0]) == Log(run, f)
    && (forall p :: p !in run ==> At(g, p) == At(f, p))
    && (forall p :: p in run && p != run[0] ==> At(g, p) == At(f, p) || At(g, p) == [])
  }

  lemma MergedFilesInto(files: Contents, run: seq<Path>, k: nat)
    requires 1 <= k <= |run| && Distinct(run)
    ensures MergedInto(files, MergedFiles(files, run, k), run)
    ensures k == 1 ==> forall p :: p != run[0] ==> At(MergedFiles(files, run, k), p) == At(files, p)
  {
    assert run[0] !in run[1..k];
  }

  lemma LogHas(run: seq<Path>, f: Contents, q: Path, e: Entry)
    requires q in run && e in At(f, q)
    ensures e in Log(run, f)
  {
    LogMembers(run, f);
  }

  lemma IntoMembers(f: Contents, g: Contents, run: seq<Path>, p: Path, e: Entry) returns (q: Path)
    requires run != [] && MergedInto(f, g, run) && e in At(g, p)
    ensures e in At(f, q)
  {
    q := p;
    if p == run[0] {
      LogMembers(run, f);
      q :| q in run && e in At(f, q);
    }
  }

  lemma FoundAfterMerge(f: Contents, F: map<Path, Bloom>, g: Contents, G: map<Path, Bloom>, run: seq<Path>, e: Entry, q: Path)
    requires run != [] && MergedInto(f, g, run) && (run[0] in G ==> BloomTokens(Log(run, f)) <= G[run[0]])
    requires forall p :: p in G && p != run[0] ==> p in F && G[p] == F[p]
    requires FoundAt(e, f, F, q)
    ensures Found(e, g, G)
  {
    if q in run {
      LogHas(run, f, q, e);
      assert forall t :: t in TokenizeEntry(e) ==> t in BloomTokens(Log(run, f));
      assert FoundAt(e, g, G, run[0]);
    } else {
      assert run[0] in run;
      assert FoundAt(e, g, G, q);
    }
  }

  /** With a full filter beside the merged file and all others unchanged, the filters keep their promises. */
  lemma MergeKeeps(f: Contents, F: map<Path, Bloom>, g: Contents, G: map<Path, Bloom>, run: seq<Path>, horizon: Option<int>)
    requires run != [] && MergedInto(f, g, run) && (run[0] in G ==> BloomTokens(Log(run, f)) <= G[run[0]])
    requires forall p :: p in G && p != run[0] ==> p in F && G[p] == F[p]
    ensures Full(f, F) ==> Full(g, G)
    ensures Serves(f, F, horizon) ==> Serves(g, G, horizon)
  {
    if Serves(f, F, horizon) {
      forall p, e | Due(g, p, e, horizon) ensures Found(e, g, G) {
        var p' := IntoMembers(f, g, run, p, e);
        assert Due(f, p', e, horizon);
        var q :| FoundAt(e, f, F, q);
        FoundAfterMerge(f, F, g, G, run, e, q);
      }
    }
  }

  lemma FoundInWindow(f: Contents, F: map<Path, Bloom>, g: Contents, run: seq<Path>, e: Entry, q: Path)
    requires run != [] && MergedInto(f, g, run) && (forall p :: p != run[0] ==> At(g, p) == At(f, p)) && FoundAt(e, f, F, q)
    ensures FoundAt(e, g, F, q)
  {
    if q == run[0] {
      LogHas(run, f, q, e);
    }
  }

  /** Between the rename and the sidecar write the old filters still serve: what the old filter beside the merged
      file misses is still in the files that were merged. */
  lemma WindowServes(f: Contents, F: map<Path, Bloom>, g: Contents, run: seq<Path>, horizon: Option<int>)
    requires run != [] && MergedInto(f, g, run) && Serves(f, F, horizon)
    requires forall p :: p != run[0] ==> At(g, p) == At(f, p)
    ensures Serves(g, F, horizon)
  {
    forall p, e | Due(g, p, e, horizon) ensures Found(e, g, F) {
      var p' := IntoMembers(f, g, run, p, e);
      assert Due(f, p', e, horizon);
      var q :| FoundAt(e, f, F, q);
      FoundInWindow(f, F, g, run, e, q);
    }
  }

  lemma RunApart(s: Store, i: nat, j: nat)
    requires Quiet(s) && IsRun(s, i, j)
    ensures Distinct(s.paths[i..j]) && Active(s) !in s.paths[i..j] && forall p :: p in s.paths[i..j] ==> p in s.dir.files
  {
    var n := |s.paths| - 1;
    forall a | i <= a < j ensures s.paths[a] != s.paths[n] && s.paths[a] in s.dir.files {
      assert s.paths[a] in ToSet(s.paths);
    }
  }

  /** After a crash anywhere in a merge, the sidecars still serve, whatever the window leaves behind. */
  lemma CrashServes(s: Store, i: nat, j: nat, d: Dir, horizon: Option<int>)
    requires Quiet(s) && IsRun(s, i, j) && SidecarsServe(s.dir, Active(s), horizon) && MidMerge(s.dir, s.paths[i..j], true, d)
    ensures SidecarsServe(d, Active(s), horizon)
  {
    var run, f := s.paths[i..j], s.dir.files;
    var F, G := s.dir.sidecars - {Active(s)}, d.sidecars - {Active(s)};
    RunApart(s, i, j);
    if d.files == f && d.sidecars == s.dir.sidecars {
    } else if InWindow(s.dir, run, d) {
      MergedFilesInto(f, run, 1);
      WindowServes(f, F, d.files, run, horizon);
    } else {
      var k :| 1 <= k <= |run| && d.files == MergedFiles(f, run, k);
      MergedFilesInto(f, run, k);
      MergeKeeps(f, F, d.files, G, run, horizon);
    }
  }

  /** The plain promise, that every sidecar holds its segment's tokens, is kept at every interruption except in
      the window, and there exactly when the old sidecar happens to cover the merged entries. */
  lemma SidecarsAtCrash(s: Store, i: nat, j: nat, d: Dir)
    requires Quiet(s) && IsRun(s, i, j) && SidecarsSound(s.dir, Active(s)) && MidMerge(s.dir, s.paths[i..j], true, d)
    ensures SidecarsSound(d, Active(s)) <==>
      InWindow(s.dir, s.paths[i..j], d) && s.paths[i] in s.dir.sidecars ==>
        BloomTokens(Log(s.paths[i..j], s.dir.files)) <= s.dir.sidecars[s.paths[i]]
  {
    var run, f := s.paths[i..j], s.dir.files;
    var F, G := s.dir.sidecars - {Active(s)}, d.sidecars - {Active(s)};
    RunApart(s, i, j);
    assert run[0] == s.paths[i] && run[0] in run;
    if InWindow(s.dir, run, d) {
      MergedFilesInto(f, run, 1);
      assert run[0] in s.dir.sidecars ==> run[0] in G;
    } else if d.files != f || d.sidecars != s.dir.sidecars {
      var k :| 1 <= k <= |run| && d.files == MergedFiles(f, run, k);
      MergedFilesInto(f, run, k);
      MergeKeeps(f, F, d.files, G, run, None);
    }
  }

  /** The loaded filters after the path list update: reloaded from the merged sidecar. */
  function ReloadedBlooms(blooms: map<Path, Bloom>, dir: Dir, run: seq<Path>, bloom: bool): map<Path, Bloom>
    requires run != []
  {
    if !bloom then blooms
    else
      var rest := blooms - ToSet(run[1..]) - {run[0]};
      if run[0] in dir.sidecars then rest[run[0] := dir.sidecars[run[0]]] else rest
  }

  /** The directory with the sidecar of the merged file written, if there are tokens. */
  function WithMergedSidecar(d0: Dir, run: seq<Path>, bloom: bool): Dir
    requires run != []
  {
    var tokens := BloomTokens(Log(run, d0.files));
    if bloom && tokens != {} then d0.(sidecars := d0.sidecars[run[0] := tokens]) else d0
  }

  /** The loaded filters after a merge: the merged file's is the one just written, the merged-away ones are gone. */
  ghost predicate BloomsMerged(now: map<Path, Bloom>, before: map<Path, Bloom>, d0: Dir, run: seq<Path>, bloom: bool)
    requires run != []
  {
    now == ReloadedBlooms(before, WithMergedSidecar(d0, run, bloom), run, bloom)
  }

  /** The merged store, up to temp files. */
  ghost predicate IsMerged(t: Store, s: Store, i: nat, j: nat, bloom: bool)
    requires IsRun(s, i, j)
  {
    && t.dir.files == MergedFiles(s.dir.files, s.paths[i..j], j - i) && t.dir.marker == s.dir.marker
    && t.dir.sidecars == WithMergedSidecar(s.dir, s.paths[i..j], bloom).sidecars - ToSet(s.paths[i..j][1..])
    && t.paths == s.paths[..i + 1] + s.paths[j..] && t.nextSeq == s.nextSeq
  }

  /** A complete merge keeps the filters' promises, loaded and stored. */
  lemma MergeKeepsFilters(s: Store, blooms: map<Path, Bloom>, i: nat, j: nat, t: Store, now: map<Path, Bloom>, bloom: bool, horizon: Option<int>)
    requires Quiet(s) && IsRun(s, i, j) && IsMerged(t, s, i, j, bloom) && BloomsMerged(now, blooms, s.dir, s.paths[i..j], bloom)
    ensures FiltersSound(s, blooms, bloom) ==> FiltersSound(t, now, bloom)
    ensures FiltersServe(s, blooms, bloom, horizon) ==> FiltersServe(t, now, bloom, horizon)
  {
    assert Active(t) == Active(s);
    if bloom {
      MergeKeepsLoaded(s, blooms, i, j, t, now, horizon);
      MergeKeepsStored(s, i, j, t, horizon);
    } else {
      NoFilters(t.dir.files, horizon);
    }
  }

  lemma MergeKeepsLoaded(s: Store, blooms: map<Path, Bloom>, i: nat, j: nat, t: Store, now: map<Path, Bloom>, horizon: Option<int>)
    requires Quiet(s) && IsRun(s, i, j) && IsMerged(t, s, i, j, true) && BloomsMerged(now, blooms, s.dir, s.paths[i..j], true)
    ensures Closed(s, blooms) ==> Closed(t, now)
    ensures Full(s.dir.files, blooms) ==> Full(t.dir.files, now)
    ensures Serves(s.dir.files, blooms, horizon) ==> Serves(t.dir.files, now, horizon)
  {
    var run := s.paths[i..j];
    var d := WithMergedSidecar(s.dir, run, true);
    RunApart(s, i, j);
    MergedFilesInto(s.dir.files, run, j - i);
    MergedSidecars(t.dir, s.dir, run);
    ReloadedClosed(s, blooms, i, j, t, d);
    ReloadedKeeps(s.dir.files, blooms, t.dir.files, d, s.dir, run, horizon);
  }

  lemma MergeKeepsStored(s: Store, i: nat, j: nat, t: Store, horizon: Option<int>)
    requires Quiet(s) && IsRun(s, i, j) && IsMerged(t, s, i, j, true)
    ensures SidecarsSound(s.dir, Active(s)) ==> SidecarsSound(t.dir, Active(s))
    ensures SidecarsServe(s.dir, Active(s), horizon) ==> SidecarsServe(t.dir, Active(s), horizon)
  {
    var run, a := s.paths[i..j], Active(s);
    RunApart(s, i, j);
    MergedFilesInto(s.dir.files, run, j - i);
    MergedSidecars(t.dir, s.dir, run);
    MergeKeeps(s.dir.files, s.dir.sidecars - {a}, t.dir.files, t.dir.sidecars - {a}, run, horizon);
  }

  lemma MergedSidecars(t: Dir, d0: Dir, run: seq<Path>)
    requires run != [] && t.sidecars == WithMergedSidecar(d0, run, true).sidecars - ToSet(run[1..])
    ensures SidecarsMerged(WithMergedSidecar(d0, run, true), d0, run, true) && SidecarsMerged(t, d0, run, true)
  {
  }

  lemma ReloadedKeeps(f: Contents, blooms: map<Path, Bloom>, g: Contents, d: Dir, d0: Dir, run: seq<Path>, horizon: Option<int>)
    requires run != [] && MergedInto(f, g, run) && d0.files == f && SidecarsMerged(d, d0, run, true)
    ensures var now := ReloadedBlooms(blooms, d, run, true);
      (Full(f, blooms) ==> Full(g, now)) && (Serves(f, blooms, horizon) ==> Serves(g, now, horizon))
  {
    MergeKeeps(f, blooms, g, ReloadedBlooms(blooms, d, run, true), run, horizon);
  }

  lemma NoFilters(files: Contents, horizon: Option<int>)
    ensures Full(files, map[]) && Serves(files, map[], horizon)
  {
    FullServes(files, map[], horizon);
  }

  lemma ReloadedClosed(s: Store, blooms: map<Path, Bloom>, i: nat, j: nat, t: Store, d: Dir)
    requires Quiet(s) && IsRun(s, i, j) && IsMerged(t, s, i, j, true)
    ensures Closed(s, blooms) ==> Closed(t, ReloadedBlooms(blooms, d, s.paths[i..j], true))
  {
    var run := s.paths[i..j];
    RunApart(s, i, j);
    assert run[0] in run && Active(t) == Active(s);
    MergedKeys(s.dir.files, run, j - i);
    assert run[1..j - i] == run[1..];
  }

  // ------------------------------------------------- what the window can do

  /** Two closed segments with one entry each, their sidecars, and an empty active one. */
  function TwoClosed(a: Entry, b: Entry): Store {
    Store(Dir(map[1 := [a], 2 := [b], 3 := []], map[], map[1 := BloomTokens([a]), 2 := BloomTokens([b])], Some(3)), [1, 2, 3], 4)
  }

  lemma TwoClosedQuiet(a: Entry, b: Entry)
    ensures Quiet(TwoClosed(a, b))
  {
  }

  lemma TwoClosedSound(a: Entry, b: Entry)
    ensures SidecarsSound(TwoClosed(a, b).dir, 3)
  {
  }

  lemma TwoClosedLog(f: Contents, a: Entry, b: Entry)
    requires At(f, 1) == [a] && At(f, 2) == [b]
    ensures Log([1, 2], f) == [a, b]
  {
    assert [1, 2][..1] == [1] && [1][..0] == [];
    assert Log([1], f) == [] + [a] == [a] && [a] + [b] == [a, b];
  }

  /** The directory in the window of that merge. */
  function WindowDir(a: Entry, b: Entry): Dir {
    TwoClosed(a, b).dir.(files := map[1 := [a, b], 2 := [b], 3 := []])
  }

  lemma WindowIsMidMerge(a: Entry, b: Entry)
    ensures var s := TwoClosed(a, b); IsRun(s, 0, 2) && MidMerge(s.dir, s.paths[0..2], true, WindowDir(a, b))
  {
    var s, d := TwoClosed(a, b), WindowDir(a, b);
    TwoClosedLog(s.dir.files, a, b);
    assert s.paths[0..2] == [1, 2] && [1, 2][1..1] == [] && ToSet<Path>([]) == {};
    assert d.files == MergedFiles(s.dir.files, [1, 2], 1);
  }

  /** Whenever the second entry has a token that the first lacks, a crash in the window leaves a sidecar that
      misses a token of its segment; the sidecars still serve, because the other copy is still there. */
  lemma WindowLeavesStaleSidecar(a: Entry, b: Entry)
    requires !(ToSet(TokenizeEntry(b)) <= BloomTokens([a]))
    ensures var s := TwoClosed(a, b);
      Quiet(s) && SidecarsSound(s.dir, 3) && IsRun(s, 0, 2) && MidMerge(s.dir, s.paths[0..2], true, WindowDir(a, b))
    ensures !SidecarsSound(WindowDir(a, b), 3) && SidecarsServe(WindowDir(a, b), 3, None)
  {
    TwoClosedQuiet(a, b);
    TwoClosedSound(a, b);
    WindowIsMidMerge(a, b);
    var d := WindowDir(a, b);
    var t :| t in TokenizeEntry(b) && t !in BloomTokens([a]);
    assert b in [a, b] && t in BloomTokens(At(d.files, 1));
    assert 1 in d.sidecars - {3};
    FullServes(TwoClosed(a, b).dir.files, TwoClosed(a, b).dir.sidecars - {3}, None);
    CrashServes(TwoClosed(a, b), 0, 2, d, None);
  }

  lemma WindowRecovers(a: Entry, b: Entry)
    ensures var r := Recover(WindowDir(a, b)); Quiet(r) && r.dir == WindowDir(a, b) && Active(r) == 3
  {
    TwoClosedQuiet(a, b);
    WindowIsMidMerge(a, b);
    CrashAnywhereSafe(TwoClosed(a, b), 0, 2, true, WindowDir(a, b));
  }

  /** And when a retention pass then drops the other copy, the entry is on disk but hidden from the query for
      its own tokens. */
  lemma StaleSidecarHides(a: Entry, b: Entry, cutoff: int)
    requires !(ToSet(TokenizeEntry(b)) <= BloomTokens([a])) && 0 < b.timestamp < cutoff <= a.timestamp
    ensures var r := Recover(WindowDir(a, b)); var t := Dropped(r, ExpiredPaths(r, cutoff));
      && ExpiredPaths(r, cutoff) == {2} && b in EntriesOf(t.dir.files) && !Covered(t.dir.files, Loaded(r, true) - {2})
  {
    var r := Recover(WindowDir(a, b));
    WindowRecovers(a, b);
    WindowExpires(a, b, cutoff, r);
    WindowLoads(r, a, b);
    WindowFiles(r, a, b);
    WindowHides(a, b, r.dir.files - {2}, Loaded(r, true) - {2});
  }

  lemma WindowFiles(r: Store, a: Entry, b: Entry)
    requires r.dir == WindowDir(a, b)
    ensures Dropped(r, {2}).dir.files == r.dir.files - {2} == map[1 := [a, b], 3 := []]
  {
  }

  lemma WindowHides(a: Entry, b: Entry, f: Contents, blooms: map<Path, Bloom>)
    requires !(ToSet(TokenizeEntry(b)) <= BloomTokens([a]))
    requires f == map[1 := [a, b], 3 := []] && 1 in blooms && blooms[1] == BloomTokens([a])
    ensures b in EntriesOf(f) && !Covered(f, blooms)
  {
    assert b in f[1];
    assert !Found(b, f, blooms);
  }

  lemma WindowExpires(a: Entry, b: Entry, cutoff: int, r: Store)
    requires Quiet(r) && r.dir == WindowDir(a, b) && Active(r) == 3 && 0 < b.timestamp < cutoff <= a.timestamp
    ensures ExpiredPaths(r, cutoff) == {2}
  {
    assert [b][..0] == [] && [a, b][..1] == [a] && [a][..0] == [];
    assert MaxTimestamp([b]) == b.timestamp && MaxTimestamp([a]) == a.timestamp && MaxTimestamp([a, b]) == a.timestamp;
    forall p ensures p in ExpiredPaths(r, cutoff) <==> p == 2 {
      assert p in ToSet(r.paths) <==> p in {1, 2, 3};
    }
  }

  lemma WindowLoads(r: Store, a: Entry, b: Entry)
    requires Quiet(r) && r.dir == WindowDir(a, b) && Active(r) == 3
    ensures 1 in Loaded(r, true) && Loaded(r, true)[1] == BloomTokens([a])
  {
    assert 1 in ToSet(r.paths);
  }

  // --------------------------------------------------- merges without filters

  /** The entry is found in a segment outside the run. */
  ghost predicate FoundOutside(e: Entry, f: Contents, F: map<Path, Bloom>, run: seq<Path>) {
    exists p :: p !in run && FoundAt(e, f, F, p)
  }

  /** The run's first sidecar, which a merge with filters off leaves beside the merged file, does not hide the entry. */
  ghost predicate Unhidden(e: Entry, d: Dir, active: Path, run: seq<Path>)
    requires run != []
  {
    || (run[0] in d.sidecars ==> ToSet(TokenizeEntry(e)) <= d.sidecars[run[0]])
    || FoundOutside(e, d.files, d.sidecars - {active}, run)
  }

  /** The directory after a complete merge with filters off, up to temp files and marker. */
  ghost predicate MergedUnfiltered(d: Dir, run: seq<Path>, t: Dir)
    requires run != []
  {
    t.files == MergedFiles(d.files, run, |run|) && t.sidecars == WithMergedSidecar(d, run, false).sidecars - ToSet(run[1..])
  }

  /** With filters off, a complete merge leaves sidecars that serve a later start with filters on if and only if the
      run's first sidecar hides no entry of the run. */
  lemma UnfilteredMergeServesIff(s: Store, i: nat, j: nat, t: Store, horizon: Option<int>)
    requires Quiet(s) && IsRun(s, i, j) && IsMerged(t, s, i, j, false) && SidecarsServe(s.dir, Active(s), horizon)
    ensures SidecarsServe(t.dir, Active(t), horizon) <==>
      forall e :: e in Log(s.paths[i..j], s.dir.files) && Recent(e, horizon) ==> Unhidden(e, s.dir, Active(s), s.paths[i..j])
  {
    RunApart(s, i, j);
    assert Active(t) == Active(s);
    UnfilteredServesIff(s.dir, Active(s), s.paths[i..j], t.dir, horizon);
  }

  lemma UnfilteredServesIff(d: Dir, a: Path, run: seq<Path>, t: Dir, horizon: Option<int>)
    requires run != [] && Distinct(run) && a !in run && MergedUnfiltered(d, run, t) && SidecarsServe(d, a, horizon)
    ensures SidecarsServe(t, a, horizon) <==> forall e :: e in Log(run, d.files) && Recent(e, horizon) ==> Unhidden(e, d, a, run)
  {
    RunEmptied(d, run, t);
    if SidecarsServe(t, a, horizon) {
      forall e | e in Log(run, d.files) && Recent(e, horizon) ensures Unhidden(e, d, a, run) {
        assert Due(t.files, run[0], e, horizon);
        var q :| FoundAt(e, t.files, t.sidecars - {a}, q);
        assert q !in run ==> FoundAt(e, d.files, d.sidecars - {a}, q);
      }
    }
    if forall e :: e in Log(run, d.files) && Recent(e, horizon) ==> Unhidden(e, d, a, run) {
      forall p, e | Due(t.files, p, e, horizon) ensures Found(e, t.files, t.sidecars - {a}) {
        UnhiddenFound(d, a, run, t, p, e, horizon);
      }
    }
  }

  /** After the merge, the run's log is in its first file, and its other files are gone; all else stays. */
  lemma RunEmptied(d: Dir, run: seq<Path>, t: Dir)
    requires run != [] && Distinct(run) && MergedUnfiltered(d, run, t)
    ensures At(t.files, run[0]) == Log(run, d.files) && forall p :: p in run && p != run[0] ==> At(t.files, p) == []
    ensures forall p :: p !in run ==> At(t.files, p) == At(d.files, p)
    ensures forall p :: p == run[0] || p !in run ==> (p in t.sidecars <==> p in d.sidecars)
    ensures forall p :: p in t.sidecars ==> p in d.sidecars && t.sidecars[p] == d.sidecars[p]
  {
    TailMembers(run);
    MergedAway(d.files, run);
    SidecarsAfter(d, run, t.sidecars);
  }

  lemma TailMembers(run: seq<Path>)
    requires run != [] && Distinct(run)
    ensures forall p :: p in run && p != run[0] <==> p in run[1..]
  {
    forall p | p in run && p != run[0] ensures p in run[1..] {
      var k :| 0 <= k < |run| && run[k] == p;
      assert run[1..][k - 1] == p;
    }
  }

  lemma MergedAway(f: Contents, run: seq<Path>)
    requires run != [] && forall p :: p in run && p != run[0] <==> p in run[1..]
    ensures var g := MergedFiles(f, run, |run|);
      && At(g, run[0]) == Log(run, f) && (forall p :: p in run && p != run[0] ==> At(g, p) == [])
      && (forall p :: p !in run ==> At(g, p) == At(f, p))
  {
    assert run[1..|run|] == run[1..];
  }

  lemma SidecarsAfter(d: Dir, run: seq<Path>, now: map<Path, Bloom>)
    requires run != [] && (forall p :: p in run && p != run[0] <==> p in run[1..])
    requires now == WithMergedSidecar(d, run, false).sidecars - ToSet(run[1..])
    ensures forall p :: p == run[0] || p !in run ==> (p in now <==> p in d.sidecars)
    ensures forall p :: p in now ==> p in d.sidecars && now[p] == d.sidecars[p]
  {
    assert run[0] in run;
  }

  lemma UnhiddenFound(d: Dir, a: Path, run: seq<Path>, t: Dir, p: Path, e: Entry, horizon: Option<int>)
    requires run != [] && Distinct(run) && a !in run && MergedUnfiltered(d, run, t) && SidecarsServe(d, a, horizon)
    requires Due(t.files, p, e, horizon) && (e in Log(run, d.files) ==> Unhidden(e, d, a, run))
    ensures Found(e, t.files, t.sidecars - {a})
  {
    RunEmptied(d, run, t);
    if e in Log(run, d.files) {
      if q :| q !in run && FoundAt(e, d.files, d.sidecars - {a}, q) {
        assert FoundAt(e, t.files, t.sidecars - {a}, q);
      } else {
        assert FoundAt(e, t.files, t.sidecars - {a}, run[0]);
      }
    } else {
      assert Due(d.files, p, e, horizon);
      var q :| FoundAt(e, d.files, d.sidecars - {a}, q);
      if q in run {
        LogHas(run, d.files, q, e);
      }
      assert FoundAt(e, t.files, t.sidecars - {a}, q);
    }
  }

  /** So a merge with filters off, without any crash or retention, can hide an entry from a later start with filters on. */
  lemma UnfilteredMergeHides(a: Entry, b: Entry, t: Store)
    requires !(ToSet(TokenizeEntry(b)) <= BloomTokens([a])) && IsMerged(t, TwoClosed(a, b), 0, 2, false)
    ensures Quiet(TwoClosed(a, b)) && SidecarsServe(TwoClosed(a, b).dir, 3, None) && !SidecarsServe(t.dir, Active(t), None)
  {
    var s := TwoClosed(a, b);
    TwoClosedQuiet(a, b);
    TwoClosedSound(a, b);
    FullServes(s.dir.files, s.dir.sidecars - {3}, None);
    TwoClosedLog(s.dir.files, a, b);
    assert s.paths[0..2] == [1, 2];
    UnfilteredMergeServesIff(s, 0, 2, t, None);
    OnlyInRun(s, a, b);
    assert b in [a, b];
  }

  lemma OnlyInRun(s: Store, a: Entry, b: Entry)
    requires s == TwoClosed(a, b) && !(ToSet(TokenizeEntry(b)) <= BloomTokens([a]))
    ensures !Unhidden(b, s.dir, 3, [1, 2])
  {
    assert forall p: Path :: p !in [1, 2] ==> b !in At(s.dir.files, p);
  }

  // --------------------------------------------------------------- retention

  /** The directory states of a retention pass from `s`: some expired segments gone, sidecars of gone ones at most. */
  ghost predicate MidRetention(s: Store, cutoff: int, d: Dir) {
    && d.marker == s.dir.marker
    && exists g :: g <= ExpiredPaths(s, cutoff) && d.files == s.dir.files - g && KeptSidecars(d, s.dir, g)
  }

  ghost predicate KeptSidecars(d: Dir, d0: Dir, g: set<Path>) {
    && d.sidecars.Keys <= d0.sidecars.Keys <= d.sidecars.Keys + g
    && forall p :: p in d.sidecars ==> d.sidecars[p] == d0.sidecars[p]
  }

  /** The horizon after a retention pass. */
  function Later(horizon: Option<int>, cutoff: int): Option<int> {
    if horizon.Some? && horizon.value > cutoff then horizon else Some(cutoff)
  }

  /** Dropping expired segments and filters keeps the promises, the second one from the cutoff on. */
  lemma DropKeeps(s: Store, F: map<Path, Bloom>, gone: set<Path>, G: map<Path, Bloom>, cutoff: int, horizon: Option<int>)
    requires gone <= ExpiredPaths(s, cutoff) && forall p :: p in G ==> p in F && G[p] == F[p]
    ensures Full(s.dir.files, F) ==> Full(s.dir.files - gone, G)
    ensures Serves(s.dir.files, F, horizon) ==> Serves(s.dir.files - gone, G, Later(horizon, cutoff))
  {
    var f, g := s.dir.files, s.dir.files - gone;
    if Serves(f, F, horizon) {
      forall p, e | Due(g, p, e, Later(horizon, cutoff)) ensures Found(e, g, G) {
        assert Due(f, p, e, horizon);
        var q :| FoundAt(e, f, F, q);
        assert q !in gone by {
          assert q in gone ==> Expired(At(f, q), cutoff);
        }
        assert FoundAt(e, g, G, q);
      }
    }
  }

  /** Wherever a retention pass is interrupted, restart finds a subsequence of the log, only entries older than
      the cutoff are missing, and the sidecars keep their promises from the cutoff on. */
  lemma RetentionCrashSafe(s: Store, cutoff: int, d: Dir, horizon: Option<int>)
    requires Quiet(s) && MidRetention(s, cutoff, d)
    ensures var r := Recover(d); r.dir == d && Quiet(r) && Active(r) == Active(s) && Subsequence(StoreLog(r), StoreLog(s))
    ensures forall e :: e in StoreLog(s) && e !in StoreLog(Recover(d)) ==> e.timestamp < cutoff
    ensures SidecarsSound(s.dir, Active(s)) ==> SidecarsSound(d, Active(s))
    ensures SidecarsServe(s.dir, Active(s), horizon) ==> SidecarsServe(d, Active(s), Later(horizon, cutoff))
  {
    var g :| g <= ExpiredPaths(s, cutoff) && d.files == s.dir.files - g && KeptSidecars(d, s.dir, g);
    RetentionDropsOld(s, g, cutoff);
    CrashBefore(Dropped(s, g), d);
    DroppedRecovers(s, g, d);
    DropKeeps(s, s.dir.sidecars - {Active(s)}, g, d.sidecars - {Active(s)}, cutoff, horizon);
  }

  lemma DroppedRecovers(s: Store, g: set<Path>, d: Dir)
    requires Quiet(Dropped(s, g)) && d.files == s.dir.files - g && d.marker == s.dir.marker
    ensures StoreLog(Recover(d)) == StoreLog(Dropped(s, g))
  {
    var t := Dropped(s, g);
    RestartExact(t);
    assert Active(t) in ToSet(t.paths);
    RecoverLooksAtFiles(d, t.dir);
    QuietSame(Recover(t.dir), Recover(d));
  }

  /** The first k segments' share of ExpiredPaths. */
  ghost function ExpiredUpTo(s: Store, cutoff: int, k: nat): set<Path>
    requires k <= |s.paths|
  {
    if k == 0 then {}
    else if Expired(At(s.dir.files, s.paths[k - 1]), cutoff) then ExpiredUpTo(s, cutoff, k - 1) + {s.paths[k - 1]}
    else ExpiredUpTo(s, cutoff, k - 1)
  }

  lemma {:induction false} ExpiredUpToHas(s: Store, cutoff: int, k: nat, p: Path)
    requires k <= |s.paths|
    ensures p in ExpiredUpTo(s, cutoff, k) <==> exists i :: 0 <= i < k && s.paths[i] == p && Expired(At(s.dir.files, p), cutoff)
  {
    if k > 0 {
      ExpiredUpToHas(s, cutoff, k - 1, p);
    }
  }

  lemma ExpiredInAll(s: Store, cutoff: int)
    requires s.paths != []
    ensures ExpiredUpTo(s, cutoff, |s.paths| - 1) == ExpiredPaths(s, cutoff)
  {
    forall p ensures p in ExpiredUpTo(s, cutoff, |s.paths| - 1) <==> p in ExpiredPaths(s, cutoff) {
      ExpiredUpToHas(s, cutoff, |s.paths| - 1, p);
    }
  }

  lemma NotYetExpired(s: Store, cutoff: int, k: nat)
    requires Distinct(s.paths) && k < |s.paths|
    ensures s.paths[k] !in ExpiredUpTo(s, cutoff, k)
  {
    ExpiredUpToHas(s, cutoff, k, s.paths[k]);
  }

  lemma ExpiredStep(s: Store, cutoff: int, k: nat, path: Path)
    requires k < |s.paths| && path == s.paths[k]
    ensures ExpiredUpTo(s, cutoff, k + 1) ==
      if Expired(At(s.dir.files, path), cutoff) then ExpiredUpTo(s, cutoff, k) + {path} else ExpiredUpTo(s, cutoff, k)
  {
  }

  lemma {:induction false} ExpiredGrows(s: Store, cutoff: int, k: nat, m: nat)
    requires k <= m <= |s.paths|
    ensures ExpiredUpTo(s, cutoff, k) <= ExpiredUpTo(s, cutoff, m)
  {
    if k < m {
      ExpiredGrows(s, cutoff, k, m - 1);
    }
  }

  lemma NextExpired(s: Store, cutoff: int, k: nat)
    requires Distinct(s.paths) && k < |s.paths| - 1
    ensures var gone, gone', p := ExpiredUpTo(s, cutoff, k), ExpiredUpTo(s, cutoff, k + 1), s.paths[k];
      && p !in gone && gone' == (if Expired(At(s.dir.files, p), cutoff) then gone + {p} else gone)
      && gone' <= ExpiredPaths(s, cutoff)
  {
    NotYetExpired(s, cutoff, k);
    ExpiredStep(s, cutoff, k, s.paths[k]);
    ExpiredGrows(s, cutoff, k + 1, |s.paths| - 1);
    ExpiredInAll(s, cutoff);
  }

  lemma GoneStep<V>(m: map<Path, V>, gone: set<Path>, p: Path)
    ensures m - gone - {p} == m - (gone + {p})
  {
  }

  lemma NoneGone<V>(m: map<Path, V>)
    ensures m - {} == m
  {
  }

  /** The store without the segments `gone` and their sidecars. */
  ghost predicate StorePurged(t: Store, s: Store, gone: set<Path>) {
    && t.dir.files == s.dir.files - gone && t.dir.sidecars == s.dir.sidecars - gone && t.dir.marker == s.dir.marker
    && t.paths == KeepPaths(s.paths, gone) && t.nextSeq == s.nextSeq
  }

  /** The loaded filters of those segments are gone too. */
  ghost predicate IsPurged(t: Store, now: map<Path, Bloom>, s: Store, blooms: map<Path, Bloom>, gone: set<Path>) {
    StorePurged(t, s, gone) && now == blooms - gone
  }

  /** A complete retention pass keeps the filters' promises, the second one from the cutoff on. */
  lemma DropKeepsFilters(s: Store, blooms: map<Path, Bloom>, gone: set<Path>, t: Store, now: map<Path, Bloom>, bloom: bool, cutoff: int, horizon: Option<int>)
    requires Quiet(s) && gone <= ExpiredPaths(s, cutoff) && IsPurged(t, now, s, blooms, gone)
    ensures t.paths != [] && Active(t) == Active(s)
    ensures FiltersSound(s, blooms, bloom) ==> FiltersSound(t, now, bloom)
    ensures FiltersServe(s, blooms, bloom, horizon) ==> FiltersServe(t, now, bloom, Later(horizon, cutoff))
  {
    var a := Active(s);
    RetentionDropsOld(s, gone, cutoff);
    DropKeeps(s, blooms, gone, now, cutoff, horizon);
    DropKeeps(s, s.dir.sidecars - {a}, gone, t.dir.sidecars - {a}, cutoff, horizon);
  }

  lemma RetentionState(s: Store, cutoff: int, d: Dir, g: set<Path>)
    requires g <= ExpiredPaths(s, cutoff) && d.marker == s.dir.marker && d.files == s.dir.files - g && KeptSidecars(d, s.dir, g)
    ensures MidRetention(s, cutoff, d)
  {
  }

  // ------------------------------------------------------------------ passes

  /** A restart finds the entries and the log up to repeats, and sidecars that serve. */
  ghost predicate CrashSafe(d: Dir, s: Store, bloom: bool, horizon: Option<int>)
    requires s.paths != []
  {
    SafeToRecover(d, s) && (bloom ==> SidecarsServe(d, Active(s), horizon))
  }

  /** The same store, up to temp files. */
  ghost predicate IsUntouched(t: Store, s: Store) {
    && t.dir.files == s.dir.files && t.dir.sidecars == s.dir.sidecars && t.dir.marker == s.dir.marker
    && t.paths == s.paths && t.nextSeq == s.nextSeq
  }

  ghost predicate FiltersKept(s: Store, blooms: map<Path, Bloom>, bloom: bool, sound: bool, horizon: Option<int>) {
    s.paths != [] && FiltersServe(s, blooms, bloom, horizon) && (sound ==> FiltersSound(s, blooms, bloom))
  }

  /** What a merge pass from `s0` keeps of the store: log, active segment and filters. */
  ghost predicate StoreKept(s: Store, blooms: map<Path, Bloom>, bloom: bool, s0: Store, sound: bool, horizon: Option<int>)
    requires s0.paths != []
  {
    Quiet(s) && StoreLog(s) == StoreLog(s0) && Active(s) == Active(s0) && FiltersKept(s, blooms, bloom, sound, horizon)
  }

  lemma MergedKept(s: Store, blooms: map<Path, Bloom>, i: nat, j: nat, t: Store, now: map<Path, Bloom>, bloom: bool, s0: Store, sound: bool, horizon: Option<int>)
    requires s0.paths != [] && StoreKept(s, blooms, bloom, s0, sound, horizon) && IsRun(s, i, j) && IsMerged(t, s, i, j, bloom)
    requires BloomsMerged(now, blooms, s.dir, s.paths[i..j], bloom)
    ensures StoreKept(t, now, bloom, s0, sound, horizon)
  {
    MergeExact(s, i, j);
    QuietSame(MergedStore(s, i, j), t);
    MergeKeepsFilters(s, blooms, i, j, t, now, bloom, horizon);
  }

  lemma UntouchedKept(s: Store, blooms: map<Path, Bloom>, t: Store, bloom: bool, s0: Store, sound: bool, horizon: Option<int>)
    requires s0.paths != [] && StoreKept(s, blooms, bloom, s0, sound, horizon) && IsUntouched(t, s)
    ensures StoreKept(t, blooms, bloom, s0, sound, horizon)
  {
    QuietSame(s, t);
  }
}
