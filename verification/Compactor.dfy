/** The background compactor as it runs: merge passes over runs of small closed segments, and retention passes.

Every change of the directory goes through the manager's `Do`, so `changes` holds every change that a crash can
come between.
*/
module Compactors {
  import opened Ordering
  import opened Entries
  import opened Index
  import opened Executor
  import opened Store
  import opened Merging
  import opened Filters
  import opened Managers
  import opened Compaction
  import opened Passes

  // ------------------------------------------------------------- small steps

  lemma KeptAround(a: seq<Path>, b: seq<Path>, c: seq<Path>, gone: set<Path>)
    requires Distinct(a + b + c) && gone == ToSet(b)
    ensures KeepPaths(a + b + c, gone) == a + c
  {
    var all := a + b + c;
    forall i, j | 0 <= i < |a| && 0 <= j < |b| ensures a[i] != b[j] {
      assert all[i] == a[i] && all[|a| + j] == b[j];
    }
    forall i, j | 0 <= i < |c| && 0 <= j < |b| ensures c[i] != b[j] {
      assert all[|a| + |b| + i] == c[i] && all[|a| + j] == b[j];
    }
    KeepConcat(a + b, c, p => p !in gone);
    KeepConcat(a, b, p => p !in gone);
    KeepEverything(a, p => p !in gone);
    KeepNothing(b, p => p !in gone);
    KeepEverything(c, p => p !in gone);
    AppendNone(a);
  }

  lemma KeptList(paths: seq<Path>, i: nat, j: nat)
    requires Distinct(paths) && i < j <= |paths|
    ensures KeepPaths(paths, ToSet(paths[i..j][1..])) == paths[..i + 1] + paths[j..]
  {
    assert paths[i..j][1..] == paths[i + 1..j];
    ThreeParts(paths, i + 1, j);
    KeptAround(paths[..i + 1], paths[i + 1..j], paths[j..], ToSet(paths[i + 1..j]));
  }

  lemma KeptOnceMore(paths: seq<Path>, gone: set<Path>, one: set<Path>, more: set<Path>)
    requires more == gone + one
    ensures KeepPaths(KeepPaths(paths, gone), one) == KeepPaths(paths, more)
  {
    KeepTwice(paths, p => p !in gone, p => p !in one, p => p !in more);
  }

  lemma NonePurged(s: Store, blooms: map<Path, Bloom>)
    ensures IsPurged(s, blooms, s, blooms, {})
  {
    KeptAll(s.paths, {});
    NoneGone(s.dir.files);
    NoneGone(s.dir.sidecars);
    NoneGone(blooms);
  }

  lemma KeptAll(paths: seq<Path>, none: set<Path>)
    requires none == {}
    ensures KeepPaths(paths, none) == paths
  {
    KeepEverything(paths, p => p !in none);
  }

  lemma HeadAndTail(run: seq<Path>)
    requires run != [] && Distinct(run)
    ensures ToSet(run) == {run[0]} + ToSet(run[1..]) && run[0] !in ToSet(run[1..])
  {
    assert run == [run[0]] + run[1..];
    ToSetConcat([run[0]], run[1..]);
  }

  lemma PutBack(files: Contents, head: Path, tail: set<Path>, l: seq<Entry>)
    requires head !in tail
    ensures Appended(files - ({head} + tail), head, l) == files[head := l] - tail
  {
    assert [] + l == l;
  }

  /** Indexing the merged entries under the first path describes the files after the deletes. */
  lemma UnindexedRun(files: Contents, run: seq<Path>)
    requires run != [] && Distinct(run)
    ensures Appended(files - ToSet(run), run[0], Log(run, files)) == MergedFiles(files, run, |run|)
  {
    HeadAndTail(run);
    PutBack(files, run[0], ToSet(run[1..]), Log(run, files));
    assert run[1..|run|] == run[1..];
  }

  lemma ReindexStep(run: seq<Path>, files: Contents, k: nat)
    requires k < |run| && Distinct(run) && run[k] in files
    ensures Appended(files - ToSet(run[k..]), run[k], At(files, run[k])) == files - ToSet(run[k + 1..])
  {
    assert run[k..] == [run[k]] + run[k + 1..];
    ToSetConcat([run[k]], run[k + 1..]);
    assert run[k] !in run[k + 1..];
    assert [] + files[run[k]] == files[run[k]];
  }

  /** Read one segment and take the running maximum of its timestamps. */
  method Newest(path: Path, disk: Contents) returns (max: int)
    ensures max == MaxTimestamp(At(disk, path))
  {
    var es := ReadSegments([path], disk);
    LogOne(path, disk);
    max := 0;
    for i := 0 to |es|
      invariant max == MaxTimestamp(es[..i])
    {
      TakeNext(es, i);
      MaxSnoc(es[..i], es[i]);
      if es[i].timestamp > max {
        max := es[i].timestamp;
      }
    }
    assert es[..|es|] == es;
  }

  lemma MaxSnoc(es: seq<Entry>, e: Entry)
    ensures MaxTimestamp(es + [e]) == if e.timestamp > MaxTimestamp(es) then e.timestamp else MaxTimestamp(es)
  {
    assert (es + [e])[..|es|] == es;
  }

  lemma FlushMerged(s: Store, blooms: map<Path, Bloom>, pre: seq<Path>, run: seq<Path>, rest: seq<Path>,
      t: Store, now: map<Path, Bloom>, bloom: bool, s0: Store, sound: bool, horizon: Option<int>)
    requires s0.paths != [] && StoreKept(s, blooms, bloom, s0, sound, horizon) && SameThere(rest, s.dir.files, s0.dir.files)
    requires s.paths == pre + run + rest && |run| >= 2 && IsRun(s, |pre|, |pre| + |run|) && s.paths[|pre|..|pre| + |run|] == run
    requires IsMerged(t, s, |pre|, |pre| + |run|, bloom) && BloomsMerged(now, blooms, s.dir, run, bloom)
    ensures StoreKept(t, now, bloom, s0, sound, horizon) && SameThere(rest, t.dir.files, s0.dir.files)
  {
    MergedKept(s, blooms, |pre|, |pre| + |run|, t, now, bloom, s0, sound, horizon);
    RestStays(s.dir.files, run, pre, rest, |run|, s0.dir.files);
  }

  lemma MergedIs(t: Store, now: map<Path, Bloom>, s: Store, blooms: map<Path, Bloom>, i: nat, j: nat, run: seq<Path>, bloom: bool)
    requires IsRun(s, i, j) && run == s.paths[i..j] && t.nextSeq == s.nextSeq && t.paths == s.paths[..i + 1] + s.paths[j..]
    requires t.dir.files == MergedFiles(s.dir.files, run, |run|) && t.dir.marker == s.dir.marker
    requires t.dir.sidecars == WithMergedSidecar(s.dir, run, bloom).sidecars - ToSet(run[1..|run|])
    ensures IsMerged(t, s, i, j, bloom)
    ensures BloomsMerged(now, blooms, s.dir, run, bloom) ==> BloomsMerged(now, blooms, s.dir, s.paths[i..j], bloom)
  {
    assert run[1..|run|] == run[1..];
  }

  lemma OneMoreWrite(p: Path, all: seq<Entry>, k: nat)
    requires k < |all|
    ensures TempChanges(p, all[..k]) + [AppendTemp(p, all[k])] == TempChanges(p, all[..k + 1])
  {
    assert all[..k + 1][..k] == all[..k];
    Associate([RemoveTemp(p), CreateTemp(p)], Writes(p, all[..k]), [AppendTemp(p, all[k])]);
  }

  lemma TwoMore<T>(a: seq<T>, b: seq<T>, x: T, y: T)
    ensures a + b + [x] + [y] == a + (b + [x, y])
  {
  }

  lemma Installed(d: Dir, run: seq<Path>, all: seq<Entry>, bloom: bool)
    requires run != [] && all == Log(run, d.files)
    ensures Ran(d, TempChanges(run[0], all) + InstallChanges(run, all, bloom)) == MergeDir(d, run, 1, bloom)
  {
    TempRuns(d, run[0], all);
    InstallRuns(d, run, all, bloom);
    RanConcat(d, TempChanges(run[0], all), InstallChanges(run, all, bloom));
  }

  /** How a merge pass began: the store, the record of changes, whether the filters were sound, and from when on they
      serve. */
  datatype Began = Began(s: Store, record: seq<Change>, sound: bool, horizon: Option<int>)

  // ------------------------------------------------------------- as it runs

  class Compactor {
    const manager: Manager
    const idx: Index

    constructor (manager: Manager, idx: Index)
      ensures this.manager == manager && this.idx == idx
    {
      this.manager, this.idx := manager, idx;
    }

    /** Write records to a new temp file. */
    method WriteTemp(all: seq<Entry>, target: Path, ghost d0: Dir, ghost c0: seq<Change>)
      requires manager.Did(d0, c0, [])
      modifies manager`dir, manager`changes
      ensures manager.Did(d0, c0, TempChanges(target, all))
    {
      manager.Do(RemoveTemp(target), d0, c0, []);
      manager.Do(CreateTemp(target), d0, c0, [] + [RemoveTemp(target)]);
      assert [] + [RemoveTemp(target)] + [CreateTemp(target)] == TempChanges(target, []);
      for k := 0 to |all|
        invariant manager.Did(d0, c0, TempChanges(target, all[..k]))
      {
        manager.Do(AppendTemp(target, all[k]), d0, c0, TempChanges(target, all[..k]));
        OneMoreWrite(target, all, k);
      }
      assert all[..|all|] == all;
    }

    /** Take every path of the run out of the index. */
    method Unindex(run: seq<Path>, ghost c: Contents)
      requires idx.Agrees(c)
      modifies idx
      ensures idx.Agrees(c - ToSet(run))
    {
      ghost var d := c;
      for k := 0 to |run|
        invariant d == c - ToSet(run[..k]) && idx.Agrees(d)
      {
        idx.RemoveSegment(run[k], d);
        TakeNext(run, k);
        ToSetConcat(run[..k], [run[k]]);
        d := d - {run[k]};
        assert d == c - ToSet(run[..k + 1]);
      }
      assert run[..|run|] == run;
    }

    /** After a failed rename: index the still present old files again. */
    method Reindex(run: seq<Path>, files: Contents)
      requires Distinct(run) && (forall p :: p in run ==> p in files) && idx.Agrees(files - ToSet(run))
      modifies idx
      ensures idx.Agrees(files)
    {
      ghost var d := files - ToSet(run);
      for k := 0 to |run|
        invariant d == files - ToSet(run[k..]) && idx.Agrees(d)
      {
        var restored := ReadSegments([run[k]], files);
        LogOne(run[k], files);
        ReindexStep(run, files, k);
        idx.AddAll(restored, run[k], d);
        d := Appended(d, run[k], restored);
      }
      assert ToSet(run[|run|..]) == {} && files - {} == files;
    }

    /** Rewrite the path list without the merged-away paths, and the loaded filters. */
    method UpdatePaths(run: seq<Path>)
      requires run != []
      modifies manager`paths, manager`blooms
      ensures manager.paths == KeepPaths(old(manager.paths), ToSet(run[1..]))
      ensures manager.blooms == ReloadedBlooms(old(manager.blooms), manager.dir, run, manager.bloomEnabled)
    {
      var skip: set<Path> := set p | p in run[1..];
      var out: seq<Path> := [];
      for k := 0 to |manager.paths|
        invariant manager.paths == old(manager.paths) && manager.blooms == old(manager.blooms)
        invariant out == KeepPaths(manager.paths[..k], skip)
      {
        KeepNext(manager.paths, k, p => p !in skip);
        if manager.paths[k] !in skip {
          out := out + [manager.paths[k]];
        }
      }
      assert manager.paths[..|manager.paths|] == manager.paths;
      manager.paths := out;
      if manager.bloomEnabled {
        manager.blooms := manager.blooms - skip - {run[0]};
        if run[0] in manager.dir.sidecars {
          manager.blooms := manager.blooms[run[0] := manager.dir.sidecars[run[0]]];
        }
      }
    }

    /** Delete the merged-away files and their sidecars, one by one. */
    method DeleteFiles(run: seq<Path>, ghost d0: Dir, ghost c0: seq<Change>, ghost cs: seq<Change>)
      requires run != [] && manager.Did(d0, c0, cs)
      modifies manager`dir, manager`changes
      ensures manager.Did(d0, c0, cs + Deletes(run, |run|))
    {
      AppendNone(cs);
      for k := 1 to |run|
        invariant manager.Did(d0, c0, cs + Deletes(run, k))
      {
        manager.Do(RemoveSegment(run[k]), d0, c0, cs + Deletes(run, k));
        manager.Do(RemoveSidecar(run[k]), d0, c0, cs + Deletes(run, k) + [RemoveSegment(run[k])]);
        TwoMore(cs, Deletes(run, k), RemoveSegment(run[k]), RemoveSidecar(run[k]));
      }
    }

    /** Rename the temp file over the first segment, then write the merged sidecar. */
    method Install(run: seq<Path>, all: seq<Entry>, ghost d0: Dir, ghost c0: seq<Change>, ghost cs: seq<Change>)
      requires run != [] && manager.Did(d0, c0, cs)
      modifies manager`dir, manager`changes
      ensures manager.Did(d0, c0, cs + InstallChanges(run, all, manager.bloomEnabled))
    {
      manager.Do(RenameTemp(run[0]), d0, c0, cs);
      var tokens := BloomTokens(all);
      if manager.bloomEnabled && |tokens| > 0 {
        manager.Do(WriteSidecar(run[0], tokens), d0, c0, cs + [RenameTemp(run[0])]);
        Associate(cs, [RenameTemp(run[0])], [WriteSidecar(run[0], tokens)]);
      } else {
        AppendNone([RenameTemp(run[0])]);
      }
    }

    /** The store is as it was, up to temp files. */
    ghost predicate Untouched(s: Store, blooms: map<Path, Bloom>)
      reads manager
    {
      IsUntouched(manager.State(), s) && manager.blooms == blooms
    }

    /** The store is the merged one, up to temp files. */
    ghost predicate Merged(s: Store, blooms: map<Path, Bloom>, i: nat, j: nat)
      requires IsRun(s, i, j)
      reads manager
    {
      && IsMerged(manager.State(), s, i, j, manager.bloomEnabled)
      && BloomsMerged(manager.blooms, blooms, s.dir, s.paths[i..j], manager.bloomEnabled)
    }

    /** mergeRun on the segments at places i up to j: exactly the specified changes of the directory, in order. A fault
        leaves files, list and index as they were; otherwise the run is merged, and the index describes the new files. */
    method MergeRun(run: seq<Path>, fault: MergeFault, ghost i: nat, ghost j: nat)
      requires Quiet(manager.State()) && IsRun(manager.State(), i, j) && run == manager.paths[i..j]
      requires idx.Agrees(manager.dir.files)
      modifies manager`dir, manager`paths, manager`blooms, manager`changes, idx
      ensures manager.Did(old(manager.dir), old(manager.changes), MergeChanges(run, Log(run, old(manager.dir).files), fault, manager.bloomEnabled))
      ensures manager.dir == MergeOutcome(old(manager.dir), run, fault, manager.bloomEnabled) && idx.Agrees(manager.dir.files)
      ensures if fault.NoFault? then Merged(old(manager.State()), old(manager.blooms), i, j) else Untouched(old(manager.State()), old(manager.blooms))
    {
      ghost var s := manager.State();
      RunApart(s, i, j);
      MergeThrough(s.dir, run, fault, manager.bloomEnabled);
      Attempt(run, fault, s, i, j);
    }

    method Attempt(run: seq<Path>, fault: MergeFault, ghost s: Store, ghost i: nat, ghost j: nat)
      requires s == manager.State() && IsRun(s, i, j) && run == s.paths[i..j]
      requires Distinct(s.paths) && Distinct(run) && forall p :: p in run ==> p in s.dir.files
      requires idx.Agrees(manager.dir.files)
      requires Ran(s.dir, MergeChanges(run, Log(run, s.dir.files), fault, manager.bloomEnabled)) == MergeOutcome(s.dir, run, fault, manager.bloomEnabled)
      modifies manager`dir, manager`paths, manager`blooms, manager`changes, idx
      ensures manager.Did(s.dir, old(manager.changes), MergeChanges(run, Log(run, s.dir.files), fault, manager.bloomEnabled))
      ensures idx.Agrees(manager.dir.files)
      ensures if fault.NoFault? then Merged(s, old(manager.blooms), i, j) else Untouched(s, old(manager.blooms))
    {
      ghost var c0 := manager.changes;
      AppendNone(c0);
      if fault.ReadFails? {
        return;
      }
      var all := ReadSegments(run, manager.dir.files);
      if fault.NoFault? {
        WriteTemp(all, run[0], s.dir, c0);
        TempRuns(s.dir, run[0], all);
        Unindex(run, manager.dir.files);
        CompleteMerge(run, all, s, c0, i, j);
      } else {
        Abandon(run, all, fault, s.dir, c0);
      }
    }

    /** A failed write or rename: remove the temp file. Before a rename the run is taken out of the index, and put back
        after its failure. */
    method Abandon(run: seq<Path>, all: seq<Entry>, fault: MergeFault, ghost d0: Dir, ghost c0: seq<Change>)
      requires run != [] && !fault.NoFault? && !fault.ReadFails? && manager.Did(d0, c0, []) && idx.Agrees(d0.files)
      requires Distinct(run) && forall p :: p in run ==> p in d0.files
      modifies manager`dir, manager`changes, idx
      ensures manager.Did(d0, c0, MergeChanges(run, all, fault, manager.bloomEnabled)) && idx.Agrees(d0.files)
    {
      var some := all[..Written(fault, |all|)];
      WriteTemp(some, run[0], d0, c0);
      if fault.RenameFails? {
        Unindex(run, d0.files);
        DropTemp(run[0], some, d0, c0);
        Reindex(run, manager.dir.files);
      } else {
        DropTemp(run[0], some, d0, c0);
      }
    }

    method DropTemp(p: Path, some: seq<Entry>, ghost d0: Dir, ghost c0: seq<Change>)
      requires manager.Did(d0, c0, TempChanges(p, some))
      modifies manager`dir, manager`changes
      ensures manager.Did(d0, c0, TempChanges(p, some) + [RemoveTemp(p)]) && manager.dir.files == d0.files
    {
      manager.Do(RemoveTemp(p), d0, c0, TempChanges(p, some));
      TempRuns(d0, p, some);
      RanNext(d0, TempChanges(p, some), RemoveTemp(p));
    }

    /** Rename, index the merged entries, rewrite the path list, delete the merged-away files. */
    method CompleteMerge(run: seq<Path>, all: seq<Entry>, ghost s: Store, ghost c0: seq<Change>, ghost i: nat, ghost j: nat)
      requires Distinct(s.paths) && IsRun(s, i, j) && run == s.paths[i..j] && Distinct(run) && all == Log(run, s.dir.files)
      requires manager.paths == s.paths && manager.nextSeq == s.nextSeq && manager.Did(s.dir, c0, TempChanges(run[0], all))
      requires idx.Agrees(s.dir.files - ToSet(run))
      modifies manager`dir, manager`paths, manager`blooms, manager`changes, idx
      ensures manager.Did(s.dir, c0, MergeChanges(run, all, NoFault, manager.bloomEnabled)) && idx.Agrees(manager.dir.files)
      ensures Merged(s, old(manager.blooms), i, j)
    {
      SwapIn(run, all, s.dir, c0, i, j);
      MergeRuns(s.dir, run, all, manager.bloomEnabled);
      MergedIs(manager.State(), manager.blooms, s, old(manager.blooms), i, j, run, manager.bloomEnabled);
    }

    method SwapIn(run: seq<Path>, all: seq<Entry>, ghost d0: Dir, ghost c0: seq<Change>, ghost i: nat, ghost j: nat)
      requires Distinct(manager.paths) && i < j <= |manager.paths| && run == manager.paths[i..j] && Distinct(run)
      requires all == Log(run, d0.files) && manager.Did(d0, c0, TempChanges(run[0], all)) && idx.Agrees(d0.files - ToSet(run))
      modifies manager`dir, manager`paths, manager`blooms, manager`changes, idx
      ensures manager.Did(d0, c0, MergeChanges(run, all, NoFault, manager.bloomEnabled))
      ensures idx.Agrees(MergedFiles(d0.files, run, |run|)) && manager.paths == old(manager.paths)[..i + 1] + old(manager.paths)[j..]
      ensures BloomsMerged(manager.blooms, old(manager.blooms), d0, run, manager.bloomEnabled)
    {
      Install(run, all, d0, c0, TempChanges(run[0], all));
      Installed(d0, run, all, manager.bloomEnabled);
      Publish(run, all, d0, i, j);
      DeleteFiles(run, d0, c0, TempChanges(run[0], all) + InstallChanges(run, all, manager.bloomEnabled));
    }

    /** Index the merged entries, rewrite the path list and reload the filters. */
    method Publish(run: seq<Path>, all: seq<Entry>, ghost d0: Dir, ghost i: nat, ghost j: nat)
      requires Distinct(manager.paths) && i < j <= |manager.paths| && run == manager.paths[i..j] && Distinct(run)
      requires all == Log(run, d0.files) && manager.dir == MergeDir(d0, run, 1, manager.bloomEnabled) && idx.Agrees(d0.files - ToSet(run))
      modifies manager`paths, manager`blooms, idx
      ensures idx.Agrees(MergedFiles(d0.files, run, |run|))
      ensures manager.paths == old(manager.paths)[..i + 1] + old(manager.paths)[j..]
      ensures BloomsMerged(manager.blooms, old(manager.blooms), d0, run, manager.bloomEnabled)
    {
      UnindexedRun(d0.files, run);
      idx.AddAll(all, run[0], d0.files - ToSet(run));
      KeptList(manager.paths, i, j);
      NoneDeleted(d0, run, manager.bloomEnabled);
      UpdatePaths(run);
    }

    /** What a merge pass keeps, and what it has changed so far. */
    ghost predicate Keeps(x: Began, cs: seq<Change>)
      requires x.s.paths != []
      reads manager, idx
    {
      && StoreKept(manager.State(), manager.blooms, manager.bloomEnabled, x.s, x.sound, x.horizon)
      && manager.Did(x.s.dir, x.record, cs) && idx.Agrees(manager.dir.files)
    }

    /** These segments are as they were when the pass began. */
    ghost predicate Unvisited(rest: seq<Path>, x: Began)
      reads manager
    {
      SameThere(rest, manager.dir.files, x.s.dir.files)
    }

    /** Merge the collected run if it has at least two segments. */
    method Flush(run: seq<Path>, fault: MergeFault, ghost x: Began, ghost cs: seq<Change>, ghost pre: seq<Path>, ghost rest: seq<Path>)
      requires x.s.paths != [] && Keeps(x, cs) && manager.paths == pre + run + rest && rest != [] && Unvisited(run + rest, x)
      modifies manager`dir, manager`paths, manager`blooms, manager`changes, idx
      ensures Keeps(x, cs + RunChanges(run, x.s.dir.files, fault, manager.bloomEnabled))
      ensures manager.paths == pre + After(run, fault) + rest && Unvisited(rest, x)
    {
      SameParts(run, rest, manager.dir.files, x.s.dir.files);
      AppendNone(cs);
      if |run| >= 2 {
        ghost var s, blooms, c := manager.State(), manager.blooms, RunChanges(run, x.s.dir.files, fault, manager.bloomEnabled);
        RunBetween(pre, run, rest);
        MergeRun(run, fault, |pre|, |pre| + |run|);
        RanConcat(x.s.dir, cs, c);
        Associate(x.record, cs, c);
        if fault.NoFault? {
          FlushMerged(s, blooms, pre, run, rest, manager.State(), manager.blooms, manager.bloomEnabled, x.s, x.sound, x.horizon);
        } else {
          UntouchedKept(s, blooms, manager.State(), manager.bloomEnabled, x.s, x.sound, x.horizon);
        }
      }
    }

    /** The pass has visited the first `k` segments and is collecting `run`. */
    ghost predicate Walking(k: nat, run: seq<Path>, small: Path -> bool, fault: seq<Path> -> MergeFault, x: Began)
      requires k < |x.s.paths|
      reads manager, idx
    {
      && manager.State() == WalkStore(x.s, small, fault, manager.bloomEnabled, k) && run == Planned(x.s.paths[..k], small, fault).1
      && manager.changes == x.record + PlanChanges(x.s.paths[..k], x.s.dir.files, small, fault, manager.bloomEnabled)
      && idx.Agrees(manager.dir.files) && FiltersKept(manager.State(), manager.blooms, manager.bloomEnabled, x.sound, x.horizon)
    }

    ghost predicate Fit(x: Began)
      reads manager
    {
      Quiet(x.s) && (manager.bloomEnabled ==> SidecarsServe(x.s.dir, Active(x.s), x.horizon))
    }

    /** One segment of the walk: a small one joins the run, any other ends it. */
    method Visit(path: Path, run: seq<Path>, threshold: int, fault: seq<Path> -> MergeFault, ghost small: Path -> bool, ghost x: Began,
        ghost k: nat)
      returns (run': seq<Path>)
      requires k + 1 < |x.s.paths| && path == x.s.paths[k] && small == SmallIn(x.s.dir.files, manager.size, threshold)
      requires Fit(x) && Walking(k, run, small, fault, x)
      modifies manager`dir, manager`paths, manager`blooms, manager`changes, idx
      ensures Walking(k + 1, run', small, fault, x)
    {
      StillThere(x.s, small, fault, manager.bloomEnabled, x.horizon, k);
      if path in manager.dir.files && Size(manager.dir.files[path], manager.size) < threshold {
        JoinsRun(x.s.paths, x.s.dir.files, k, small, fault, manager.bloomEnabled);
        run' := run + [path];
      } else {
        EndRun(path, run, fault, small, x, k);
        run' := [];
      }
    }

    method EndRun(path: Path, run: seq<Path>, fault: seq<Path> -> MergeFault, ghost small: Path -> bool, ghost x: Began, ghost k: nat)
      requires k + 1 < |x.s.paths| && path == x.s.paths[k] && !small(path) && Fit(x) && Walking(k, run, small, fault, x)
      modifies manager`dir, manager`paths, manager`blooms, manager`changes, idx
      ensures Walking(k + 1, [], small, fault, x)
    {
      WalkSafe(x.s, small, fault, manager.bloomEnabled, x.horizon, k);
      Flush(run, fault(run), x, PlanChanges(x.s.paths[..k], x.s.dir.files, small, fault, manager.bloomEnabled),
        Planned(x.s.paths[..k], small, fault).0, x.s.paths[k..]);
      EndsRun(x.s.paths, x.s.dir.files, k, small, fault, manager.bloomEnabled, manager.dir.files);
    }

    /** Walk over the closed segments, merging the maximal runs of small ones. */
    method MergeSmall(closed: seq<Path>, threshold: int, fault: seq<Path> -> MergeFault, ghost small: Path -> bool, ghost x: Began)
      requires x.s.paths != [] && closed == x.s.paths[..|x.s.paths| - 1] && small == SmallIn(x.s.dir.files, manager.size, threshold)
      requires Fit(x) && Walking(0, [], small, fault, x)
      modifies manager`dir, manager`paths, manager`blooms, manager`changes, idx
      ensures Keeps(x, PassChanges(x.s, small, fault, manager.bloomEnabled)) && manager.paths == Plan(x.s.paths, small, fault)
    {
      var run: seq<Path> := [];
      ghost var n := |x.s.paths| - 1;
      assert |closed| == n && forall k :: 0 <= k < n ==> closed[k] == x.s.paths[k];
      for k := 0 to |closed|
        invariant Walking(k, run, small, fault, x)
      {
        run := Visit(closed[k], run, threshold, fault, small, x, k);
      }
      EndPass(run, fault, small, x);
    }

    /** The run at the end of the closed segments. */
    method EndPass(run: seq<Path>, fault: seq<Path> -> MergeFault, ghost small: Path -> bool, ghost x: Began)
      requires x.s.paths != [] && Fit(x) && Walking(|x.s.paths| - 1, run, small, fault, x)
      modifies manager`dir, manager`paths, manager`blooms, manager`changes, idx
      ensures Keeps(x, PassChanges(x.s, small, fault, manager.bloomEnabled)) && manager.paths == Plan(x.s.paths, small, fault)
    {
      ghost var n := |x.s.paths| - 1;
      assert x.s.paths[n..] == [x.s.paths[n]];
      WalkSafe(x.s, small, fault, manager.bloomEnabled, x.horizon, n);
      Flush(run, fault(run), x, PlanChanges(x.s.paths[..n], x.s.dir.files, small, fault, manager.bloomEnabled),
        Planned(x.s.paths[..n], small, fault).0, x.s.paths[n..]);
    }

    /** runMergePass: exactly the specified changes of the directory, in order. Exactly the maximal runs of small closed
        segments are merged, whichever merges fail; log, index and filters are kept. */
    method RunMergePass(threshold: int, fault: seq<Path> -> MergeFault, ghost horizon: Option<int>)
      requires Quiet(manager.State()) && idx.Agrees(manager.dir.files)
      requires FiltersServe(manager.State(), manager.blooms, manager.bloomEnabled, horizon)
      modifies manager`dir, manager`paths, manager`blooms, manager`changes, idx
      ensures var s, small := old(manager.State()), SmallIn(old(manager.dir).files, manager.size, threshold);
        && Keeps(Began(s, old(manager.changes), old(FiltersSound(manager.State(), manager.blooms, manager.bloomEnabled)), horizon),
            PassChanges(s, small, fault, manager.bloomEnabled))
        && manager.State() == PassStore(s, small, fault, manager.bloomEnabled)
    {
      ghost var s, small := manager.State(), SmallIn(manager.dir.files, manager.size, threshold);
      ghost var x := Began(s, manager.changes, FiltersSound(s, manager.blooms, manager.bloomEnabled), horizon);
      AppendNone(manager.changes);
      Pass(threshold, fault, small, x);
    }

    method Pass(threshold: int, fault: seq<Path> -> MergeFault, ghost small: Path -> bool, ghost x: Began)
      requires x.s.paths != [] && manager.paths == x.s.paths && small == SmallIn(x.s.dir.files, manager.size, threshold)
      requires Fit(x) && Keeps(x, []) && manager.State() == x.s
      modifies manager`dir, manager`paths, manager`blooms, manager`changes, idx
      ensures Keeps(x, PassChanges(x.s, small, fault, manager.bloomEnabled)) && manager.paths == Plan(x.s.paths, small, fault)
    {
      if threshold <= 0 {
        NoneBelow(x.s.paths, x.s.dir.files, manager.size, threshold, fault);
        NothingToDo(x.s, small, fault, manager.bloomEnabled);
        return;
      }
      Sweep(threshold, fault, small, x);
    }

    method Sweep(threshold: int, fault: seq<Path> -> MergeFault, ghost small: Path -> bool, ghost x: Began)
      requires x.s.paths != [] && manager.paths == x.s.paths && small == SmallIn(x.s.dir.files, manager.size, threshold)
      requires Fit(x) && Keeps(x, []) && manager.State() == x.s
      modifies manager`dir, manager`paths, manager`blooms, manager`changes, idx
      ensures Keeps(x, PassChanges(x.s, small, fault, manager.bloomEnabled)) && manager.paths == Plan(x.s.paths, small, fault)
    {
      var closed := manager.ListClosedSegments();
      Walk(closed, threshold, fault, small, x);
    }

    method Walk(closed: seq<Path>, threshold: int, fault: seq<Path> -> MergeFault, ghost small: Path -> bool, ghost x: Began)
      requires x.s.paths != [] && manager.paths == x.s.paths && closed == x.s.paths[..|x.s.paths| - 1]
      requires small == SmallIn(x.s.dir.files, manager.size, threshold) && Fit(x) && Keeps(x, []) && manager.State() == x.s
      modifies manager`dir, manager`paths, manager`blooms, manager`changes, idx
      ensures Keeps(x, PassChanges(x.s, small, fault, manager.bloomEnabled)) && manager.paths == Plan(x.s.paths, small, fault)
    {
      if |closed| < 2 {
        TooFew(x.s.paths, small, fault);
        TooFewToDo(x.s, small, fault, manager.bloomEnabled);
        return;
      }
      WalkStarts(x.s, small, fault, manager.bloomEnabled, x.horizon);
      MergeSmall(closed, threshold, fault, small, x);
    }

    /** The store without the segments `gone`, their sidecars and loaded filters, through the changes `cs`. */
    ghost predicate Purged(s: Store, c0: seq<Change>, cs: seq<Change>, blooms: map<Path, Bloom>, gone: set<Path>)
      reads manager
    {
      && manager.Did(s.dir, c0, cs) && manager.dir == Without(s.dir, gone) && manager.blooms == blooms - gone
      && manager.paths == KeepPaths(s.paths, gone) && manager.nextSeq == s.nextSeq
    }

    /** Forget an expired segment, then delete its file and sidecar. */
    method Purge(path: Path, ghost s: Store, ghost c0: seq<Change>, ghost cs: seq<Change>, ghost blooms: map<Path, Bloom>, ghost gone: set<Path>)
      requires Purged(s, c0, cs, blooms, gone) && idx.Agrees(manager.dir.files)
      modifies manager`dir, manager`paths, manager`blooms, manager`changes, idx
      ensures Purged(s, c0, cs + Delete(path), blooms, gone + {path}) && idx.Agrees(manager.dir.files)
    {
      KeptOnceMore(s.paths, gone, {path}, gone + {path});
      GoneStep(blooms, gone, path);
      manager.DeleteSegment(path);
      idx.RemoveSegment(path, manager.dir.files);
      RemoveFiles(path, s, c0, cs, gone);
    }

    /** Delete the file, then the sidecar. */
    method RemoveFiles(path: Path, ghost s: Store, ghost c0: seq<Change>, ghost cs: seq<Change>, ghost gone: set<Path>)
      requires manager.Did(s.dir, c0, cs) && manager.dir == Without(s.dir, gone)
      modifies manager`dir, manager`changes
      ensures manager.Did(s.dir, c0, cs + Delete(path)) && manager.dir == Without(s.dir, gone + {path})
      ensures manager.dir.files == old(manager.dir).files - {path}
    {
      manager.Do(RemoveSegment(path), s.dir, c0, cs);
      manager.Do(RemoveSidecar(path), s.dir, c0, cs + [RemoveSegment(path)]);
      TwoMore(cs, [], RemoveSegment(path), RemoveSidecar(path));
      AppendNone(cs);
      RanConcat(s.dir, cs, Delete(path));
      DeleteRuns(Without(s.dir, gone), path);
      GoneStep(s.dir.files, gone, path);
      GoneStep(s.dir.sidecars, gone, path);
    }

    /** Purge the segment at place `k` if its newest entry is older than the cutoff. */
    method Consider(path: Path, cutoff: int, ghost s: Store, ghost c0: seq<Change>, ghost blooms: map<Path, Bloom>, ghost k: nat)
      requires Quiet(s) && k < |s.paths| - 1 && path == s.paths[k] && idx.Agrees(manager.dir.files)
      requires Purged(s, c0, Drops(s.paths[..k], s.dir.files, cutoff), blooms, ExpiredUpTo(s, cutoff, k))
      modifies manager`dir, manager`paths, manager`blooms, manager`changes, idx
      ensures Purged(s, c0, Drops(s.paths[..k + 1], s.dir.files, cutoff), blooms, ExpiredUpTo(s, cutoff, k + 1))
      ensures idx.Agrees(manager.dir.files)
    {
      NextExpired(s, cutoff, k);
      DropsNext(s.paths, k, s.dir.files, cutoff);
      AppendNone(Drops(s.paths[..k], s.dir.files, cutoff));
      assert At(manager.dir.files, path) == At(s.dir.files, path);
      var max := Newest(path, manager.dir.files);
      if 0 < max < cutoff {
        Purge(path, s, c0, Drops(s.paths[..k], s.dir.files, cutoff), blooms, ExpiredUpTo(s, cutoff, k));
      }
    }

    /** runRetentionPass: exactly the specified changes of the directory, in order, so that exactly the closed segments all
        older than the cutoff go. */
    method RunRetentionPass(days: int, cutoff: int)
      requires Quiet(manager.State()) && idx.Agrees(manager.dir.files)
      modifies manager`dir, manager`paths, manager`blooms, manager`changes, idx
      ensures idx.Agrees(manager.dir.files) && manager.State() == RetentionStore(old(manager.State()), days, cutoff)
      ensures manager.Did(old(manager.dir), old(manager.changes), RetentionChanges(old(manager.State()), days, cutoff))
      ensures IsPurged(manager.State(), manager.blooms, old(manager.State()), old(manager.blooms), Overdue(old(manager.State()), days, cutoff))
    {
      ghost var s, c0, blooms := manager.State(), manager.changes, manager.blooms;
      NonePurged(s, blooms);
      AppendNone(c0);
      if days <= 0 {
        return;
      }
      var closed := manager.ListClosedSegments();
      DropExpired(closed, cutoff, s, c0, blooms);
    }

    /** Walk over the closed segments, dropping the expired ones. */
    method DropExpired(closed: seq<Path>, cutoff: int, ghost s: Store, ghost c0: seq<Change>, ghost blooms: map<Path, Bloom>)
      requires Quiet(s) && closed == s.paths[..|s.paths| - 1] && Purged(s, c0, [], blooms, {}) && idx.Agrees(manager.dir.files)
      modifies manager`dir, manager`paths, manager`blooms, manager`changes, idx
      ensures Purged(s, c0, Drops(closed, s.dir.files, cutoff), blooms, ExpiredPaths(s, cutoff)) && idx.Agrees(manager.dir.files)
    {
      for k := 0 to |closed|
        invariant Purged(s, c0, Drops(s.paths[..k], s.dir.files, cutoff), blooms, ExpiredUpTo(s, cutoff, k)) && idx.Agrees(manager.dir.files)
      {
        Consider(closed[k], cutoff, s, c0, blooms, k);
      }
      ExpiredInAll(s, cutoff);
    }
  }
}
