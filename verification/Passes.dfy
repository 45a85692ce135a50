/** Merge and retention passes as values: which runs are merged, every single change of the directory in order, and
what a restart finds wherever the changes are cut short. The compactor (module `Compactors`) is proved to make exactly
these changes. */
module Passes {
  import opened Ordering
  import opened Entries
  import opened Index
  import opened Executor
  import opened Store
  import opened Merging
  import opened Filters
  import opened Compaction

  /** What can go wrong in mergeRun: reading, writing the temp file after some records, or the rename. */
  datatype MergeFault = NoFault | ReadFails | WriteFails(written: nat) | RenameFails

  // ------------------------------------------------------------------- plans

  /** The segments smaller than the threshold. */
  ghost function SmallIn(files: Contents, size: Entry -> nat, threshold: int): Path -> bool {
    (p: Path) => Size(At(files, p), size) < threshold
  }

  /** What becomes of a run of small segments: one segment, if there are two or more and the merge succeeds. */
  function After(run: seq<Path>, fault: MergeFault): seq<Path> {
    if |run| >= 2 && fault.NoFault? then [run[0]] else run
  }

  /** A pass over the closed segments: the list so far, and the run of small ones being collected. */
  function Planned(closed: seq<Path>, small: Path -> bool, fault: seq<Path> -> MergeFault): (seq<Path>, seq<Path>) {
    if closed == [] then ([], [])
    else
      var n := |closed| - 1;
      PlanNext(Planned(closed[..n], small, fault), closed[n], small(closed[n]), fault)
  }

  function PlanNext(sofar: (seq<Path>, seq<Path>), path: Path, isSmall: bool, fault: seq<Path> -> MergeFault): (seq<Path>, seq<Path>) {
    if isSmall then (sofar.0, sofar.1 + [path]) else (Finished(sofar, [path], fault), [])
  }

  /** The list once the collected run is dealt with, and what follows it. */
  function Finished(sofar: (seq<Path>, seq<Path>), rest: seq<Path>, fault: seq<Path> -> MergeFault): seq<Path> {
    sofar.0 + After(sofar.1, fault(sofar.1)) + rest
  }

  /** The path list after a pass: every maximal run of two or more small closed segments is one segment, unless its
      merge fails. */
  function Plan(paths: seq<Path>, small: Path -> bool, fault: seq<Path> -> MergeFault): seq<Path>
    requires paths != []
  {
    var n := |paths| - 1;
    Finished(Planned(paths[..n], small, fault), [paths[n]], fault)
  }

  /** No two neighbours are both small. */
  ghost predicate Sparse(s: seq<Path>, small: Path -> bool) {
    forall i :: 0 < i < |s| ==> !(small(s[i - 1]) && small(s[i]))
  }

  lemma {:induction false} PlannedSparse(closed: seq<Path>, small: Path -> bool, fault: seq<Path> -> MergeFault)
    requires forall run :: fault(run).NoFault?
    ensures var done, run := Planned(closed, small, fault).0, Planned(closed, small, fault).1;
      Sparse(done, small) && (done != [] ==> !small(done[|done| - 1])) && forall p :: p in run ==> small(p)
  {
    if closed != [] {
      PlannedSparse(closed[..|closed| - 1], small, fault);
    }
  }

  /** Without faults, a pass leaves no two neighbouring closed segments that were both small. */
  lemma PlanSparse(paths: seq<Path>, small: Path -> bool, fault: seq<Path> -> MergeFault)
    requires paths != [] && forall run :: fault(run).NoFault?
    ensures var p := Plan(paths, small, fault); Sparse(p[..|p| - 1], small)
  {
    var n := |paths| - 1;
    PlannedSparse(paths[..n], small, fault);
    var done, run := Planned(paths[..n], small, fault).0, Planned(paths[..n], small, fault).1;
    var kept := done + After(run, fault(run));
    assert Plan(paths, small, fault) == kept + [paths[n]];
    assert (kept + [paths[n]])[..|kept|] == kept;
  }

  /** The closed segment at place `k` and the one before it are both small. */
  predicate SmallPair(closed: seq<Path>, small: Path -> bool, k: nat) {
    0 < k < |closed| && small(closed[k - 1]) && small(closed[k])
  }

  /** The first `k` closed segments, without those that are small and stand behind a small one. */
  function Heads(closed: seq<Path>, small: Path -> bool, k: nat): seq<Path>
    requires k <= |closed|
  {
    if k == 0 then [] else Heads(closed, small, k - 1) + if SmallPair(closed, small, k - 1) then [] else [closed[k - 1]]
  }

  lemma {:induction false} PlannedHeads(closed: seq<Path>, small: Path -> bool, fault: seq<Path> -> MergeFault, k: nat)
    requires k <= |closed| && forall run :: fault(run).NoFault?
    ensures var done, run := Planned(closed[..k], small, fault).0, Planned(closed[..k], small, fault).1;
      done + After(run, NoFault) == Heads(closed, small, k) && (run != [] <==> k > 0 && small(closed[k - 1]))
  {
    if k > 0 {
      PlannedHeads(closed, small, fault, k - 1);
      PlannedNext(closed, k - 1, small, fault);
      var done, run := Planned(closed[..k - 1], small, fault).0, Planned(closed[..k - 1], small, fault).1;
      assert fault(run).NoFault?;
      if small(closed[k - 1]) {
        AppendNone(done);
        assert run != [] ==> (run + [closed[k - 1]])[0] == run[0];
        AppendNone(Heads(closed, small, k - 1));
      } else {
        AppendNone(done + After(run, NoFault) + [closed[k - 1]]);
      }
    }
  }

  /** The collected run is the end of the list and small; a segment that is neither in it nor kept is small and stands
      behind a small one. */
  ghost predicate OnlySmall(closed: seq<Path>, small: Path -> bool, done: seq<Path>, run: seq<Path>) {
    && |run| <= |closed|
    && (forall k: nat :: |closed| - |run| <= k < |closed| ==> small(closed[k]) && closed[k] == run[k - |closed| + |run|])
    && (forall k: nat :: k < |closed| - |run| ==> closed[k] in done || SmallPair(closed, small, k))
  }

  lemma OnlySmallEnds(closed: seq<Path>, small: Path -> bool, done: seq<Path>, run: seq<Path>, fault: MergeFault, k: nat)
    requires OnlySmall(closed, small, done, run) && k < |closed|
    ensures closed[k] in done + After(run, fault) || SmallPair(closed, small, k)
  {
    var m := |closed| - |run|;
    if k > m {
      assert small(closed[k - 1]) && small(closed[k]);
    } else if k == m {
      assert closed[k] == run[0] && run[0] in After(run, fault);
    }
  }

  lemma {:induction false} PlannedOnlySmall(closed: seq<Path>, small: Path -> bool, fault: seq<Path> -> MergeFault)
    ensures OnlySmall(closed, small, Planned(closed, small, fault).0, Planned(closed, small, fault).1)
  {
    if closed != [] {
      var n := |closed| - 1;
      var init, last := closed[..n], closed[n];
      PlannedOnlySmall(init, small, fault);
      var done, run := Planned(init, small, fault).0, Planned(init, small, fault).1;
      assert forall k: nat :: SmallPair(init, small, k) ==> SmallPair(closed, small, k);
      if small(last) {
        assert forall k: nat :: k < n ==> closed[k] == init[k];
      } else {
        forall k: nat | k < |closed| ensures closed[k] in Finished((done, run), [last], fault) || SmallPair(closed, small, k) {
          if k < n {
            assert closed[k] == init[k];
            OnlySmallEnds(init, small, done, run, fault(run), k);
          }
        }
      }
    }
  }

  lemma PlanDropsSmall(paths: seq<Path>, small: Path -> bool, fault: seq<Path> -> MergeFault, k: nat)
    requires k < |paths| && paths[k] !in Plan(paths, small, fault)
    ensures SmallPair(paths[..|paths| - 1], small, k)
  {
    var n := |paths| - 1;
    var closed := paths[..n];
    var sofar := Planned(closed, small, fault);
    assert k < n && closed[k] == paths[k];
    PlannedOnlySmall(closed, small, fault);
    OnlySmallEnds(closed, small, sofar.0, sofar.1, fault(sofar.1), k);
  }

  /** Whichever merges fail, a segment leaves the list only if it is closed, and it and the one before it are both below
      the threshold. */
  lemma MergesOnlySmall(paths: seq<Path>, files: Contents, size: Entry -> nat, threshold: int, fault: seq<Path> -> MergeFault, k: nat)
    requires k < |paths| && paths[k] !in Plan(paths, SmallIn(files, size, threshold), fault)
    ensures 0 < k < |paths| - 1 && Size(At(files, paths[k - 1]), size) < threshold && Size(At(files, paths[k]), size) < threshold
  {
    PlanDropsSmall(paths, SmallIn(files, size, threshold), fault, k);
  }

  /** If no merge fails, exactly the small closed segments that stand behind a small one leave the list. */
  lemma MergesAllSmall(paths: seq<Path>, small: Path -> bool, fault: seq<Path> -> MergeFault)
    requires paths != [] && forall run :: fault(run).NoFault?
    ensures var n := |paths| - 1; Plan(paths, small, fault) == Heads(paths[..n], small, n) + [paths[n]]
  {
    var n := |paths| - 1;
    assert paths[..n][..n] == paths[..n];
    PlannedHeads(paths[..n], small, fault, n);
    assert fault(Planned(paths[..n], small, fault).1).NoFault?;
  }

  lemma NothingSmall(paths: seq<Path>, small: Path -> bool, fault: seq<Path> -> MergeFault)
    requires paths != [] && forall p :: p in paths[..|paths| - 1] ==> !small(p)
    ensures Plan(paths, small, fault) == paths
  {
    NothingPlanned(paths[..|paths| - 1], small, fault);
    SplitLast(paths);
  }

  lemma NoneBelow(paths: seq<Path>, files: Contents, size: Entry -> nat, threshold: int, fault: seq<Path> -> MergeFault)
    requires paths != [] && threshold <= 0
    ensures Plan(paths, SmallIn(files, size, threshold), fault) == paths
  {
    NothingSmall(paths, SmallIn(files, size, threshold), fault);
  }

  lemma {:induction false} NothingPlanned(closed: seq<Path>, small: Path -> bool, fault: seq<Path> -> MergeFault)
    requires forall p :: p in closed ==> !small(p)
    ensures Planned(closed, small, fault) == (closed, [])
  {
    if closed != [] {
      SplitLast(closed);
      NothingPlanned(closed[..|closed| - 1], small, fault);
      AppendNone(closed[..|closed| - 1]);
    }
  }

  lemma TooFew(paths: seq<Path>, small: Path -> bool, fault: seq<Path> -> MergeFault)
    requires 1 <= |paths| <= 2
    ensures Plan(paths, small, fault) == paths
  {
    var closed := paths[..|paths| - 1];
    assert |closed| == 1 ==> closed[..0] == [];
    assert Planned([], small, fault) == ([], []);
  }

  lemma RunBetween(pre: seq<Path>, run: seq<Path>, rest: seq<Path>)
    requires |run| >= 2 && rest != []
    ensures var paths, i, j := pre + run + rest, |pre|, |pre| + |run|;
      && i + 2 <= j < |paths| && paths[i..j] == run
      && paths[..i + 1] + paths[j..] == pre + [run[0]] + rest
  {
  }

  lemma Joined(pre: seq<Path>, run: seq<Path>, path: Path, rest: seq<Path>)
    ensures pre + run + ([path] + rest) == pre + (run + [path]) + rest
  {
  }

  lemma Ended(pre: seq<Path>, path: Path, rest: seq<Path>)
    ensures pre + ([path] + rest) == (pre + [path]) + [] + rest
  {
  }

  lemma PlannedNext(closed: seq<Path>, k: nat, small: Path -> bool, fault: seq<Path> -> MergeFault)
    requires k < |closed|
    ensures Planned(closed[..k + 1], small, fault) == PlanNext(Planned(closed[..k], small, fault), closed[k], small(closed[k]), fault)
  {
    assert closed[..k + 1][..k] == closed[..k];
  }

  lemma DeleteStep(files: Contents, run: seq<Path>, k: nat)
    requires 1 <= k < |run|
    ensures MergedFiles(files, run, k) - {run[k]} == MergedFiles(files, run, k + 1)
  {
    assert run[1..k + 1] == run[1..k] + [run[k]];
    ToSetConcat(run[1..k], [run[k]]);
  }

  lemma AllListed(s: Store)
    requires Quiet(s)
    ensures forall p :: p in s.paths ==> p in s.dir.files
  {
    assert forall p :: p in s.paths ==> p in ToSet(s.paths);
  }

  ghost predicate SameThere(rest: seq<Path>, f: Contents, f0: Contents) {
    forall p :: p in rest ==> At(f, p) == At(f0, p) && p in f && p in f0
  }

  /** A merge leaves the segments after the run alone. */
  lemma RestStays(f: Contents, run: seq<Path>, pre: seq<Path>, rest: seq<Path>, k: nat, f0: Contents)
    requires 1 <= k <= |run| && Distinct(pre + run + rest) && SameThere(rest, f, f0)
    ensures SameThere(rest, MergedFiles(f, run, k), f0)
  {
    var all := pre + run + rest;
    forall i, j | 0 <= i < |run| && 0 <= j < |rest| ensures run[i] != rest[j] {
      assert all[|pre| + i] == run[i] && all[|pre| + |run| + j] == rest[j];
    }
    assert forall p :: p in run[1..k] ==> p in run;
  }

  lemma SidecarsStep(d0: Dir, run: seq<Path>, k: nat, bloom: bool)
    requires 1 <= k < |run|
    ensures WithMergedSidecar(d0, run, bloom).sidecars - ToSet(run[1..k]) - {run[k]} == WithMergedSidecar(d0, run, bloom).sidecars - ToSet(run[1..k + 1])
  {
    assert run[1..k + 1] == run[1..k] + [run[k]];
    ToSetConcat(run[1..k], [run[k]]);
    assert ToSet([run[k]]) == {run[k]};
  }

  // ------------------------------------------------------------- merge changes

  function Writes(p: Path, all: seq<Entry>): seq<Change> {
    if all == [] then [] else Writes(p, all[..|all| - 1]) + [AppendTemp(p, all[|all| - 1])]
  }

  /** Replace the temp file of `p`, record by record. */
  function TempChanges(p: Path, all: seq<Entry>): seq<Change> {
    [RemoveTemp(p), CreateTemp(p)] + Writes(p, all)
  }

  function SidecarChanges(p: Path, tokens: Bloom, bloom: bool): seq<Change> {
    if bloom && tokens != {} then [WriteSidecar(p, tokens)] else []
  }

  /** Delete a segment file, then its sidecar. */
  function Delete(p: Path): seq<Change> {
    [RemoveSegment(p), RemoveSidecar(p)]
  }

  /** Delete the run's files after the first and their sidecars, up to place `k`. */
  function Deletes(run: seq<Path>, k: nat): seq<Change>
    requires 1 <= k <= |run|
  {
    if k == 1 then [] else Deletes(run, k - 1) + Delete(run[k - 1])
  }

  /** Rename, and write the merged sidecar if there are tokens. */
  function InstallChanges(run: seq<Path>, all: seq<Entry>, bloom: bool): seq<Change>
    requires run != []
  {
    [RenameTemp(run[0])] + SidecarChanges(run[0], BloomTokens(all), bloom)
  }

  /** How many records are written before a failure. */
  function Written(fault: MergeFault, n: nat): nat
    ensures Written(fault, n) <= n
  {
    if fault.WriteFails? && fault.written < n then fault.written else n
  }

  /** mergeRun: the changes of the directory, in order. */
  function MergeChanges(run: seq<Path>, all: seq<Entry>, fault: MergeFault, bloom: bool): seq<Change>
    requires run != []
  {
    match fault
    case ReadFails => []
    case NoFault => TempChanges(run[0], all) + InstallChanges(run, all, bloom) + Deletes(run, |run|)
    case _ => TempChanges(run[0], all[..Written(fault, |all|)]) + [RemoveTemp(run[0])]
  }

  /** The directory after a merge of `run` with the files up to place `k` deleted. */
  function MergeDir(d: Dir, run: seq<Path>, k: nat, bloom: bool): Dir
    requires 1 <= k <= |run|
  {
    Dir(MergedFiles(d.files, run, k), d.tmp - {run[0]}, WithMergedSidecar(d, run, bloom).sidecars - ToSet(run[1..k]), d.marker)
  }

  /** The directory after mergeRun. */
  function MergeOutcome(d: Dir, run: seq<Path>, fault: MergeFault, bloom: bool): Dir
    requires run != []
  {
    match fault
    case ReadFails => d
    case NoFault => MergeDir(d, run, |run|, bloom)
    case _ => d.(tmp := d.tmp - {run[0]})
  }

  lemma {:induction false} TempRuns(d: Dir, p: Path, all: seq<Entry>)
    ensures Ran(d, TempChanges(p, all)) == d.(tmp := d.tmp[p := all])
  {
    if all == [] {
      AppendNone([RemoveTemp(p), CreateTemp(p)]);
      assert [RemoveTemp(p), CreateTemp(p)] == [RemoveTemp(p)] + [CreateTemp(p)];
      RanNext(d, [RemoveTemp(p)], CreateTemp(p));
      RanOne(d, RemoveTemp(p));
      assert (d.tmp - {p})[p := []] == d.tmp[p := []];
    } else {
      var n := |all| - 1;
      TempRuns(d, p, all[..n]);
      Associate([RemoveTemp(p), CreateTemp(p)], Writes(p, all[..n]), [AppendTemp(p, all[n])]);
      RanNext(d, TempChanges(p, all[..n]), AppendTemp(p, all[n]));
      SplitLast(all);
      assert d.tmp[p := all[..n]][p := all] == d.tmp[p := all];
    }
  }

  predicate OnlyTemp(cs: seq<Change>) {
    forall c :: c in cs ==> c.RemoveTemp? || c.CreateTemp? || c.AppendTemp?
  }

  lemma {:induction false} TempOnly(p: Path, all: seq<Entry>)
    ensures OnlyTemp(Writes(p, all)) && OnlyTemp(TempChanges(p, all))
  {
    if all != [] {
      TempOnly(p, all[..|all| - 1]);
    }
  }

  lemma {:induction false} TempLeaves(d: Dir, cs: seq<Change>)
    requires OnlyTemp(cs)
    ensures Ran(d, cs) == d.(tmp := Ran(d, cs).tmp)
  {
    if cs != [] {
      assert cs[|cs| - 1] in cs;
      TempLeaves(d, cs[..|cs| - 1]);
    }
  }

  /** The states of a merge that began in directory `d0`. */
  ghost function MergeState(d0: Dir, run: seq<Path>, bloom: bool): Dir -> bool {
    d => run != [] && MidMerge(d0, run, bloom, d)
  }

  lemma TempStates(d: Dir, run: seq<Path>, bloom: bool, cs: seq<Change>)
    requires run != [] && OnlyTemp(cs)
    ensures Through(d, cs, MergeState(d, run, bloom))
  {
    forall k | 0 <= k <= |cs| ensures MergeState(d, run, bloom)(Ran(d, cs[..k])) {
      TempLeaves(d, cs[..k]);
    }
  }

  lemma Renamed(d: Dir, run: seq<Path>, all: seq<Entry>)
    requires run != [] && all == Log(run, d.files)
    ensures Changed(d.(tmp := d.tmp[run[0] := all]), RenameTemp(run[0])) ==
      d.(files := MergedFiles(d.files, run, 1), tmp := d.tmp - {run[0]})
  {
    assert run[1..1] == [] && ToSet<Path>([]) == {};
    assert d.tmp[run[0] := all] - {run[0]} == d.tmp - {run[0]};
  }

  lemma NoneDeleted(d: Dir, run: seq<Path>, bloom: bool)
    requires run != []
    ensures MergeDir(d, run, 1, bloom) == WithMergedSidecar(d, run, bloom).(files := MergedFiles(d.files, run, 1), tmp := d.tmp - {run[0]})
  {
    assert run[1..1] == [] && ToSet<Path>([]) == {};
  }

  /** Some sidecars of a merged directory are gone. */
  lemma MergedState(d0: Dir, run: seq<Path>, k: nat, bloom: bool, d: Dir, gone: set<Path>)
    requires 1 <= k <= |run| && d.files == MergedFiles(d0.files, run, k) && d.marker == d0.marker
    requires d.sidecars == WithMergedSidecar(d0, run, bloom).sidecars - gone
    ensures MergeState(d0, run, bloom)(d)
  {
    assert SidecarsMerged(d, d0, run, bloom);
  }

  lemma RenameThrough(d: Dir, run: seq<Path>, all: seq<Entry>, bloom: bool)
    requires run != [] && all == Log(run, d.files)
    ensures var from, to := d.(tmp := d.tmp[run[0] := all]), d.(files := MergedFiles(d.files, run, 1), tmp := d.tmp - {run[0]});
      Ran(from, [RenameTemp(run[0])]) == to && Through(from, [RenameTemp(run[0])], MergeState(d, run, bloom))
  {
    var from := d.(tmp := d.tmp[run[0] := all]);
    Renamed(d, run, all);
    RanOne(from, RenameTemp(run[0]));
    assert InWindow(d, run, Changed(from, RenameTemp(run[0])));
    ThroughOne(from, RenameTemp(run[0]), MergeState(d, run, bloom));
  }

  lemma SidecarThrough(d: Dir, run: seq<Path>, all: seq<Entry>, bloom: bool)
    requires run != [] && all == Log(run, d.files)
    ensures var from, cs := d.(files := MergedFiles(d.files, run, 1), tmp := d.tmp - {run[0]}), SidecarChanges(run[0], BloomTokens(all), bloom);
      Ran(from, cs) == MergeDir(d, run, 1, bloom) && Through(from, cs, MergeState(d, run, bloom))
  {
    var from, ok := d.(files := MergedFiles(d.files, run, 1), tmp := d.tmp - {run[0]}), MergeState(d, run, bloom);
    NoneDeleted(d, run, bloom);
    assert InWindow(d, run, from);
    if bloom && BloomTokens(all) != {} {
      MergedState(d, run, 1, bloom, MergeDir(d, run, 1, bloom), ToSet(run[1..1]));
      RanOne(from, WriteSidecar(run[0], BloomTokens(all)));
      ThroughOne(from, WriteSidecar(run[0], BloomTokens(all)), ok);
    } else {
      ThroughNone(from, ok);
    }
  }

  lemma InstallRuns(d: Dir, run: seq<Path>, all: seq<Entry>, bloom: bool)
    requires run != [] && all == Log(run, d.files)
    ensures var from := d.(tmp := d.tmp[run[0] := all]);
      Ran(from, InstallChanges(run, all, bloom)) == MergeDir(d, run, 1, bloom) && Through(from, InstallChanges(run, all, bloom), MergeState(d, run, bloom))
  {
    RenameThrough(d, run, all, bloom);
    SidecarThrough(d, run, all, bloom);
    ThroughThen(d.(tmp := d.tmp[run[0] := all]), [RenameTemp(run[0])], d.(files := MergedFiles(d.files, run, 1), tmp := d.tmp - {run[0]}),
      SidecarChanges(run[0], BloomTokens(all), bloom), MergeDir(d, run, 1, bloom), MergeState(d, run, bloom));
  }

  lemma DeleteRuns(d: Dir, p: Path)
    ensures Ran(d, Delete(p)) == d.(files := d.files - {p}, sidecars := d.sidecars - {p})
  {
    assert [RemoveSegment(p)] + [RemoveSidecar(p)] == Delete(p);
    RanOne(d, RemoveSegment(p));
    RanNext(d, [RemoveSegment(p)], RemoveSidecar(p));
  }

  lemma DeleteThrough(d: Dir, p: Path, ok: Dir -> bool)
    ensures Ran(d, Delete(p)) == d.(files := d.files - {p}, sidecars := d.sidecars - {p})
    ensures ok(d) && ok(d.(files := d.files - {p})) && ok(Ran(d, Delete(p))) ==> Through(d, Delete(p), ok)
  {
    assert [RemoveSegment(p)] + [RemoveSidecar(p)] == Delete(p);
    RanOne(d, RemoveSegment(p));
    RanNext(d, [RemoveSegment(p)], RemoveSidecar(p));
    if ok(d) && ok(d.(files := d.files - {p})) && ok(Ran(d, Delete(p))) {
      ThroughOne(d, RemoveSegment(p), ok);
      ThroughNext(d, [RemoveSegment(p)], RemoveSidecar(p), ok);
    }
  }

  lemma DeleteOne(d: Dir, run: seq<Path>, k: nat, bloom: bool)
    requires 1 <= k < |run|
    ensures var from := MergeDir(d, run, k, bloom);
      Ran(from, Delete(run[k])) == MergeDir(d, run, k + 1, bloom) && Through(from, Delete(run[k]), MergeState(d, run, bloom))
  {
    var from, ok := MergeDir(d, run, k, bloom), MergeState(d, run, bloom);
    var mid := Changed(from, RemoveSegment(run[k]));
    DeleteStep(d.files, run, k);
    SidecarsStep(d, run, k, bloom);
    MergedState(d, run, k, bloom, from, ToSet(run[1..k]));
    MergedState(d, run, k + 1, bloom, mid, ToSet(run[1..k]));
    MergedState(d, run, k + 1, bloom, MergeDir(d, run, k + 1, bloom), ToSet(run[1..k + 1]));
    DeleteThrough(from, run[k], ok);
  }

  lemma {:induction false} DeletesAlong(run: seq<Path>, k: nat, dirs: nat -> Dir, ok: Dir -> bool)
    requires 1 <= k <= |run| && ok(dirs(1))
    requires forall i :: 1 <= i < k ==> Ran(dirs(i), Delete(run[i])) == dirs(i + 1) && Through(dirs(i), Delete(run[i]), ok)
    ensures Ran(dirs(1), Deletes(run, k)) == dirs(k) && Through(dirs(1), Deletes(run, k), ok)
  {
    if k == 1 {
      ThroughNone(dirs(1), ok);
    } else {
      DeletesAlong(run, k - 1, dirs, ok);
      ThroughThen(dirs(1), Deletes(run, k - 1), dirs(k - 1), Delete(run[k - 1]), dirs(k), ok);
    }
  }

  /** The directory as the deletes go on. */
  function MergeDirs(d: Dir, run: seq<Path>, bloom: bool): nat -> Dir {
    i => if 1 <= i <= |run| then MergeDir(d, run, i, bloom) else d
  }

  lemma DeleteAt(d: Dir, run: seq<Path>, bloom: bool, i: nat)
    requires 1 <= i < |run|
    ensures var dirs := MergeDirs(d, run, bloom);
      Ran(dirs(i), Delete(run[i])) == dirs(i + 1) && Through(dirs(i), Delete(run[i]), MergeState(d, run, bloom))
  {
    DeleteOne(d, run, i, bloom);
  }

  lemma DeletesBegin(d: Dir, run: seq<Path>, bloom: bool)
    requires run != []
    ensures MergeState(d, run, bloom)(MergeDir(d, run, 1, bloom))
  {
    MergedState(d, run, 1, bloom, MergeDir(d, run, 1, bloom), ToSet(run[1..1]));
  }

  lemma DeletesRun(d: Dir, run: seq<Path>, bloom: bool)
    requires run != []
    ensures Ran(MergeDir(d, run, 1, bloom), Deletes(run, |run|)) == MergeDir(d, run, |run|, bloom)
    ensures Through(MergeDir(d, run, 1, bloom), Deletes(run, |run|), MergeState(d, run, bloom))
  {
    var dirs, ok := MergeDirs(d, run, bloom), MergeState(d, run, bloom);
    DeletesBegin(d, run, bloom);
    forall i | 1 <= i < |run| ensures Ran(dirs(i), Delete(run[i])) == dirs(i + 1) && Through(dirs(i), Delete(run[i]), ok) {
      DeleteAt(d, run, bloom, i);
    }
    DeletesAlong(run, |run|, dirs, ok);
  }

  lemma MergeRuns(d: Dir, run: seq<Path>, all: seq<Entry>, bloom: bool)
    requires run != [] && all == Log(run, d.files)
    ensures var cs := MergeChanges(run, all, NoFault, bloom);
      Ran(d, cs) == MergeDir(d, run, |run|, bloom) && Through(d, cs, MergeState(d, run, bloom))
  {
    var ok, temp, inst, del := MergeState(d, run, bloom), TempChanges(run[0], all), InstallChanges(run, all, bloom), Deletes(run, |run|);
    TempOnly(run[0], all);
    TempRuns(d, run[0], all);
    TempStates(d, run, bloom, temp);
    InstallRuns(d, run, all, bloom);
    ThroughThen(d, temp, d.(tmp := d.tmp[run[0] := all]), inst, MergeDir(d, run, 1, bloom), ok);
    DeletesRun(d, run, bloom);
    ThroughThen(d, temp + inst, MergeDir(d, run, 1, bloom), del, MergeDir(d, run, |run|, bloom), ok);
  }

  lemma MergeFails(d: Dir, run: seq<Path>, all: seq<Entry>, fault: MergeFault, bloom: bool)
    requires run != [] && !fault.NoFault?
    ensures var cs := MergeChanges(run, all, fault, bloom);
      Ran(d, cs) == MergeOutcome(d, run, fault, bloom) && Through(d, cs, MergeState(d, run, bloom))
  {
    var some := all[..Written(fault, |all|)];
    TempOnly(run[0], some);
    TempRuns(d, run[0], some);
    RanNext(d, TempChanges(run[0], some), RemoveTemp(run[0]));
    assert d.tmp[run[0] := some] - {run[0]} == d.tmp - {run[0]};
    TempStates(d, run, bloom, MergeChanges(run, all, fault, bloom));
  }

  /** Wherever mergeRun is cut short, the directory is a merge state; where it ends. */
  lemma MergeThrough(d: Dir, run: seq<Path>, fault: MergeFault, bloom: bool)
    requires run != []
    ensures var cs := MergeChanges(run, Log(run, d.files), fault, bloom);
      Ran(d, cs) == MergeOutcome(d, run, fault, bloom) && Through(d, cs, MergeState(d, run, bloom))
  {
    if fault.NoFault? {
      MergeRuns(d, run, Log(run, d.files), bloom);
    } else {
      MergeFails(d, run, Log(run, d.files), fault, bloom);
    }
  }

  // --------------------------------------------------------------- merge passes

  /** What happens to a collected run: a merge if it has two segments or more. */
  function RunChanges(run: seq<Path>, files: Contents, fault: MergeFault, bloom: bool): seq<Change> {
    if |run| >= 2 then MergeChanges(run, Log(run, files), fault, bloom) else []
  }

  /** The changes of a pass over the closed segments, while the last run is still being collected. */
  function PlanChanges(closed: seq<Path>, files: Contents, small: Path -> bool, fault: seq<Path> -> MergeFault, bloom: bool): seq<Change> {
    if closed == [] then []
    else
      var n := |closed| - 1;
      var run := Planned(closed[..n], small, fault).1;
      PlanChanges(closed[..n], files, small, fault, bloom) + if small(closed[n]) then [] else RunChanges(run, files, fault(run), bloom)
  }

  /** runMergePass: the changes of the directory, in order. */
  function PassChanges(s: Store, small: Path -> bool, fault: seq<Path> -> MergeFault, bloom: bool): seq<Change>
    requires s.paths != []
  {
    var closed := s.paths[..|s.paths| - 1];
    var run := Planned(closed, small, fault).1;
    PlanChanges(closed, s.dir.files, small, fault, bloom) + RunChanges(run, s.dir.files, fault(run), bloom)
  }

  /** The store after a merge pass. */
  function PassStore(s: Store, small: Path -> bool, fault: seq<Path> -> MergeFault, bloom: bool): Store
    requires s.paths != []
  {
    Store(Ran(s.dir, PassChanges(s, small, fault, bloom)), Plan(s.paths, small, fault), s.nextSeq)
  }

  /** Log, active segment and sidecars are as good as in `s0`. */
  ghost predicate AsGood(s: Store, s0: Store, bloom: bool, horizon: Option<int>)
    requires s0.paths != []
  {
    && Quiet(s) && StoreLog(s) == StoreLog(s0) && Active(s) == Active(s0)
    && (bloom ==> SidecarsServe(s.dir, Active(s), horizon))
  }

  /** The directories from which a restart finds what was there before the pass. */
  ghost function SafeState(s0: Store, bloom: bool, horizon: Option<int>): Dir -> bool {
    d => s0.paths != [] && CrashSafe(d, s0, bloom, horizon)
  }

  lemma MergeStateSafe(s: Store, i: nat, j: nat, d: Dir, s0: Store, bloom: bool, horizon: Option<int>)
    requires s0.paths != [] && AsGood(s, s0, bloom, horizon) && IsRun(s, i, j) && MidMerge(s.dir, s.paths[i..j], bloom, d)
    ensures CrashSafe(d, s0, bloom, horizon)
  {
    CrashAnywhereSafe(s, i, j, bloom, d);
    if bloom {
      CrashServes(s, i, j, d, horizon);
    }
  }

  lemma MergeIsSafe(s: Store, i: nat, j: nat, cs: seq<Change>, s0: Store, bloom: bool, horizon: Option<int>)
    requires s0.paths != [] && AsGood(s, s0, bloom, horizon) && IsRun(s, i, j)
    requires Through(s.dir, cs, MergeState(s.dir, s.paths[i..j], bloom))
    ensures Through(s.dir, cs, SafeState(s0, bloom, horizon))
  {
    forall k | 0 <= k <= |cs| ensures SafeState(s0, bloom, horizon)(Ran(s.dir, cs[..k])) {
      assert MergeState(s.dir, s.paths[i..j], bloom)(Ran(s.dir, cs[..k]));
      MergeStateSafe(s, i, j, Ran(s.dir, cs[..k]), s0, bloom, horizon);
    }
  }

  lemma QuietIsSafe(s: Store, s0: Store, bloom: bool, horizon: Option<int>)
    requires s0.paths != [] && AsGood(s, s0, bloom, horizon)
    ensures SafeState(s0, bloom, horizon)(s.dir)
  {
    RestartExact(s);
  }

  lemma MergedAsGood(s: Store, i: nat, j: nat, t: Store, s0: Store, bloom: bool, horizon: Option<int>)
    requires s0.paths != [] && AsGood(s, s0, bloom, horizon) && IsRun(s, i, j) && IsMerged(t, s, i, j, bloom)
    ensures AsGood(t, s0, bloom, horizon)
  {
    MergeExact(s, i, j);
    QuietSame(MergedStore(s, i, j), t);
    if bloom {
      MergeKeepsStored(s, i, j, t, horizon);
    }
  }

  /** The store when the collected run has been dealt with. */
  function Flushed(s: Store, pre: seq<Path>, run: seq<Path>, rest: seq<Path>, files: Contents, fault: MergeFault, bloom: bool): Store {
    Store(Ran(s.dir, RunChanges(run, files, fault, bloom)), pre + After(run, fault) + rest, s.nextSeq)
  }

  lemma MergedPaths(t: Store, s: Store, pre: seq<Path>, run: seq<Path>, rest: seq<Path>, bloom: bool)
    requires |run| >= 2 && rest != [] && s.paths == pre + run + rest
    requires t == Store(MergeDir(s.dir, run, |run|, bloom), pre + [run[0]] + rest, s.nextSeq)
    ensures IsRun(s, |pre|, |pre| + |run|) && IsMerged(t, s, |pre|, |pre| + |run|, bloom)
  {
    RunBetween(pre, run, rest);
    assert run[1..|run|] == run[1..];
  }

  lemma FlushOutcome(s: Store, pre: seq<Path>, run: seq<Path>, rest: seq<Path>, s0: Store, fault: MergeFault, bloom: bool, horizon: Option<int>)
    requires s0.paths != [] && AsGood(s, s0, bloom, horizon) && |run| >= 2 && rest != [] && s.paths == pre + run + rest
    ensures AsGood(Store(MergeOutcome(s.dir, run, fault, bloom), pre + After(run, fault) + rest, s.nextSeq), s0, bloom, horizon)
  {
    var t := Store(MergeOutcome(s.dir, run, fault, bloom), pre + After(run, fault) + rest, s.nextSeq);
    if fault.NoFault? {
      MergedPaths(t, s, pre, run, rest, bloom);
      MergedAsGood(s, |pre|, |pre| + |run|, t, s0, bloom, horizon);
    } else {
      SameAsGood(s, t, s0, bloom, horizon);
    }
  }

  lemma SameAsGood(s: Store, t: Store, s0: Store, bloom: bool, horizon: Option<int>)
    requires s0.paths != [] && AsGood(s, s0, bloom, horizon) && IsUntouched(t, s)
    ensures AsGood(t, s0, bloom, horizon)
  {
    QuietSame(s, t);
  }

  /** Dealing with a run is safe at every point and leaves everything as good. */
  lemma FlushSafe(s: Store, pre: seq<Path>, run: seq<Path>, rest: seq<Path>, s0: Store, fault: MergeFault, bloom: bool, horizon: Option<int>)
    requires s0.paths != [] && AsGood(s, s0, bloom, horizon) && s.paths == pre + run + rest && rest != []
    requires SameThere(run + rest, s.dir.files, s0.dir.files)
    ensures var t := Flushed(s, pre, run, rest, s0.dir.files, fault, bloom);
      AsGood(t, s0, bloom, horizon) && SameThere(rest, t.dir.files, s0.dir.files)
    ensures Through(s.dir, RunChanges(run, s0.dir.files, fault, bloom), SafeState(s0, bloom, horizon))
  {
    if |run| >= 2 {
      var cs := RunChanges(run, s0.dir.files, fault, bloom);
      RunBetween(pre, run, rest);
      SameParts(run, rest, s.dir.files, s0.dir.files);
      MergeThrough(s.dir, run, fault, bloom);
      MergeIsSafe(s, |pre|, |pre| + |run|, cs, s0, bloom, horizon);
      FlushOutcome(s, pre, run, rest, s0, fault, bloom, horizon);
      RestStays(s.dir.files, run, pre, rest, |run|, s0.dir.files);
    } else {
      SameParts(run, rest, s.dir.files, s0.dir.files);
      QuietIsSafe(s, s0, bloom, horizon);
      ThroughNone(s.dir, SafeState(s0, bloom, horizon));
    }
  }

  lemma SameParts(run: seq<Path>, rest: seq<Path>, f: Contents, f0: Contents)
    requires SameThere(run + rest, f, f0)
    ensures SameThere(run, f, f0) && SameThere(rest, f, f0) && Log(run, f) == Log(run, f0)
  {
    LogSame(run, f, f0);
  }

  /** The store when the pass has visited the first `k` closed segments. */
  function WalkStore(s: Store, small: Path -> bool, fault: seq<Path> -> MergeFault, bloom: bool, k: nat): Store
    requires k < |s.paths|
  {
    var sofar := Planned(s.paths[..k], small, fault);
    Store(Ran(s.dir, PlanChanges(s.paths[..k], s.dir.files, small, fault, bloom)), sofar.0 + sofar.1 + s.paths[k..], s.nextSeq)
  }

  lemma PlanChangesNext(paths: seq<Path>, k: nat, files: Contents, small: Path -> bool, fault: seq<Path> -> MergeFault, bloom: bool)
    requires k < |paths|
    ensures var run := Planned(paths[..k], small, fault).1;
      PlanChanges(paths[..k + 1], files, small, fault, bloom) ==
        PlanChanges(paths[..k], files, small, fault, bloom) + if small(paths[k]) then [] else RunChanges(run, files, fault(run), bloom)
  {
    assert paths[..k + 1][..k] == paths[..k];
  }

  /** At every point of the pass: everything is as good, and the segments still to come are as they were. */
  lemma WalkSafe(s: Store, small: Path -> bool, fault: seq<Path> -> MergeFault, bloom: bool, horizon: Option<int>, k: nat)
    requires Quiet(s) && (bloom ==> SidecarsServe(s.dir, Active(s), horizon)) && k < |s.paths|
    ensures Walked(s, small, fault, bloom, horizon, k)
  {
    WalkStarts(s, small, fault, bloom, horizon);
    WalkTo(s, small, fault, bloom, horizon, k);
  }

  /** It holds at every place up to `k`. */
  ghost predicate WalkedAll(s: Store, small: Path -> bool, fault: seq<Path> -> MergeFault, bloom: bool, horizon: Option<int>, k: nat)
    requires k < |s.paths|
  {
    Walked(s, small, fault, bloom, horizon, k) && (k > 0 ==> WalkedAll(s, small, fault, bloom, horizon, k - 1))
  }

  lemma {:induction false} WalkTo(s: Store, small: Path -> bool, fault: seq<Path> -> MergeFault, bloom: bool, horizon: Option<int>, k: nat)
    requires k < |s.paths| && Walked(s, small, fault, bloom, horizon, 0)
    ensures WalkedAll(s, small, fault, bloom, horizon, k)
  {
    if k > 0 {
      var j := k - 1;
      WalkTo(s, small, fault, bloom, horizon, j);
      WalkOn(s, small, fault, bloom, horizon, j);
      assert k == j + 1;
    }
  }

  lemma WalkOn(s: Store, small: Path -> bool, fault: seq<Path> -> MergeFault, bloom: bool, horizon: Option<int>, k: nat)
    requires k + 1 < |s.paths| && Walked(s, small, fault, bloom, horizon, k)
    ensures Walked(s, small, fault, bloom, horizon, k + 1)
  {
    if small(s.paths[k]) {
      WalkGathers(s, small, fault, bloom, horizon, k);
    } else {
      WalkFlushes(s, small, fault, bloom, horizon, k);
    }
  }

  /** The segment to visit next is as it was. */
  lemma StillThere(s: Store, small: Path -> bool, fault: seq<Path> -> MergeFault, bloom: bool, horizon: Option<int>, k: nat)
    requires Quiet(s) && (bloom ==> SidecarsServe(s.dir, Active(s), horizon)) && k < |s.paths|
    ensures var f := WalkStore(s, small, fault, bloom, k).dir.files; s.paths[k] in f && At(f, s.paths[k]) == At(s.dir.files, s.paths[k])
  {
    WalkSafe(s, small, fault, bloom, horizon, k);
    assert s.paths[k..][0] == s.paths[k];
    assert s.paths[k] in Planned(s.paths[..k], small, fault).1 + s.paths[k..];
  }

  lemma WalkStarts(s: Store, small: Path -> bool, fault: seq<Path> -> MergeFault, bloom: bool, horizon: Option<int>)
    requires Quiet(s) && (bloom ==> SidecarsServe(s.dir, Active(s), horizon))
    ensures Walked(s, small, fault, bloom, horizon, 0) && WalkStore(s, small, fault, bloom, 0) == s
    ensures Planned(s.paths[..0], small, fault) == ([], []) && PlanChanges(s.paths[..0], s.dir.files, small, fault, bloom) == []
  {
    assert s.paths[..0] == [] && [] + [] + s.paths[0..] == s.paths;
    AllListed(s);
    QuietIsSafe(s, s, bloom, horizon);
    ThroughNone(s.dir, SafeState(s, bloom, horizon));
  }

  /** What holds of the pass at place `k`. */
  ghost predicate WalkedTo(s: Store, k: nat, t: Store, run: seq<Path>, cs: seq<Change>, bloom: bool, horizon: Option<int>)
    requires k < |s.paths|
  {
    && AsGood(t, s, bloom, horizon) && SameThere(run + s.paths[k..], t.dir.files, s.dir.files)
    && Through(s.dir, cs, SafeState(s, bloom, horizon))
  }

  ghost predicate Walked(s: Store, small: Path -> bool, fault: seq<Path> -> MergeFault, bloom: bool, horizon: Option<int>, k: nat)
    requires k < |s.paths|
  {
    WalkedTo(s, k, WalkStore(s, small, fault, bloom, k), Planned(s.paths[..k], small, fault).1,
      PlanChanges(s.paths[..k], s.dir.files, small, fault, bloom), bloom, horizon)
  }

  lemma WalkFlushes(s: Store, small: Path -> bool, fault: seq<Path> -> MergeFault, bloom: bool, horizon: Option<int>, k: nat)
    requires k + 1 < |s.paths| && !small(s.paths[k]) && Walked(s, small, fault, bloom, horizon, k)
    ensures Walked(s, small, fault, bloom, horizon, k + 1)
  {
    var t, sofar := WalkStore(s, small, fault, bloom, k), Planned(s.paths[..k], small, fault);
    var cs, c := PlanChanges(s.paths[..k], s.dir.files, small, fault, bloom), RunChanges(sofar.1, s.dir.files, fault(sofar.1), bloom);
    FlushSafe(t, sofar.0, sofar.1, s.paths[k..], s, fault(sofar.1), bloom, horizon);
    RanConcat(s.dir, cs, c);
    ThroughConcat(s.dir, cs, c, SafeState(s, bloom, horizon));
    EndsRun(s.paths, s.dir.files, k, small, fault, bloom, Ran(s.dir, cs + c).files);
  }

  lemma WalkGathers(s: Store, small: Path -> bool, fault: seq<Path> -> MergeFault, bloom: bool, horizon: Option<int>, k: nat)
    requires k + 1 < |s.paths| && small(s.paths[k]) && Walked(s, small, fault, bloom, horizon, k)
    ensures Walked(s, small, fault, bloom, horizon, k + 1)
  {
    JoinsRun(s.paths, s.dir.files, k, small, fault, bloom);
  }

  /** A small segment joins the run. */
  lemma JoinsRun(paths: seq<Path>, files: Contents, k: nat, small: Path -> bool, fault: seq<Path> -> MergeFault, bloom: bool)
    requires k < |paths| && small(paths[k])
    ensures var pre, run := Planned(paths[..k], small, fault).0, Planned(paths[..k], small, fault).1;
      && Planned(paths[..k + 1], small, fault) == (pre, run + [paths[k]])
      && pre + (run + [paths[k]]) + paths[k + 1..] == pre + run + paths[k..] && run + [paths[k]] + paths[k + 1..] == run + paths[k..]
    ensures PlanChanges(paths[..k + 1], files, small, fault, bloom) == PlanChanges(paths[..k], files, small, fault, bloom)
  {
    var sofar := Planned(paths[..k], small, fault);
    PlannedNext(paths, k, small, fault);
    PlanChangesNext(paths, k, files, small, fault, bloom);
    AppendNone(PlanChanges(paths[..k], files, small, fault, bloom));
    FirstOfRest(paths, k);
    Joined(sofar.0, sofar.1, paths[k], paths[k + 1..]);
    Associate(sofar.1, [paths[k]], paths[k + 1..]);
  }

  /** Any other segment ends it. */
  lemma EndsRun(paths: seq<Path>, files: Contents, k: nat, small: Path -> bool, fault: seq<Path> -> MergeFault, bloom: bool, f: Contents)
    requires k < |paths| && !small(paths[k])
    ensures var pre, run := Planned(paths[..k], small, fault).0, Planned(paths[..k], small, fault).1; var kept := pre + After(run, fault(run));
      && Planned(paths[..k + 1], small, fault) == (kept + [paths[k]], []) && kept + paths[k..] == kept + [paths[k]] + [] + paths[k + 1..]
      && PlanChanges(paths[..k + 1], files, small, fault, bloom) ==
        PlanChanges(paths[..k], files, small, fault, bloom) + RunChanges(run, files, fault(run), bloom)
    ensures SameThere(paths[k..], f, files) ==> SameThere([] + paths[k + 1..], f, files)
  {
    var sofar := Planned(paths[..k], small, fault);
    PlannedNext(paths, k, small, fault);
    PlanChangesNext(paths, k, files, small, fault, bloom);
    FirstOfRest(paths, k);
    Ended(sofar.0 + After(sofar.1, fault(sofar.1)), paths[k], paths[k + 1..]);
    if SameThere(paths[k..], f, files) {
      SameParts([paths[k]], paths[k + 1..], f, files);
    }
  }

  lemma FirstOfRest(paths: seq<Path>, k: nat)
    requires k < |paths|
    ensures paths[k..] == [paths[k]] + paths[k + 1..]
  {
  }

  /** Without small segments there is nothing to do. */
  lemma NothingToDo(s: Store, small: Path -> bool, fault: seq<Path> -> MergeFault, bloom: bool)
    requires s.paths != [] && forall p :: !small(p)
    ensures PassChanges(s, small, fault, bloom) == []
  {
    NoChanges(s.paths[..|s.paths| - 1], s.dir.files, small, fault, bloom);
  }

  lemma {:induction false} NoChanges(closed: seq<Path>, files: Contents, small: Path -> bool, fault: seq<Path> -> MergeFault, bloom: bool)
    requires forall p :: !small(p)
    ensures Planned(closed, small, fault).1 == [] && PlanChanges(closed, files, small, fault, bloom) == []
  {
    if closed != [] {
      NoChanges(closed[..|closed| - 1], files, small, fault, bloom);
    }
  }

  /** Nor with fewer than two closed segments. */
  lemma TooFewToDo(s: Store, small: Path -> bool, fault: seq<Path> -> MergeFault, bloom: bool)
    requires 1 <= |s.paths| <= 2
    ensures PassChanges(s, small, fault, bloom) == []
  {
    var closed := s.paths[..|s.paths| - 1];
    assert |closed| == 1 ==> closed[..0] == [];
    assert Planned([], small, fault) == ([], []) && PlanChanges([], s.dir.files, small, fault, bloom) == [];
    assert |Planned(closed, small, fault).1| <= 1;
  }

  lemma PassEnds(s: Store, small: Path -> bool, fault: seq<Path> -> MergeFault, bloom: bool)
    requires s.paths != []
    ensures var n := |s.paths| - 1; var t, sofar := WalkStore(s, small, fault, bloom, n), Planned(s.paths[..n], small, fault);
      && s.paths[n..] != [] && t.paths == sofar.0 + sofar.1 + s.paths[n..]
      && PassStore(s, small, fault, bloom) == Flushed(t, sofar.0, sofar.1, s.paths[n..], s.dir.files, fault(sofar.1), bloom)
  {
    var n := |s.paths| - 1;
    var sofar := Planned(s.paths[..n], small, fault);
    assert s.paths[n..] == [s.paths[n]];
    RanConcat(s.dir, PlanChanges(s.paths[..n], s.dir.files, small, fault, bloom), RunChanges(sofar.1, s.dir.files, fault(sofar.1), bloom));
  }

  lemma PassThrough(s: Store, small: Path -> bool, fault: seq<Path> -> MergeFault, bloom: bool, horizon: Option<int>)
    requires s.paths != []
    requires var n := |s.paths| - 1; var t, run := WalkStore(s, small, fault, bloom, n), Planned(s.paths[..n], small, fault).1;
      && Through(s.dir, PlanChanges(s.paths[..n], s.dir.files, small, fault, bloom), SafeState(s, bloom, horizon))
      && Through(t.dir, RunChanges(run, s.dir.files, fault(run), bloom), SafeState(s, bloom, horizon))
    ensures Through(s.dir, PassChanges(s, small, fault, bloom), SafeState(s, bloom, horizon))
  {
    var n := |s.paths| - 1;
    var run := Planned(s.paths[..n], small, fault).1;
    ThroughConcat(s.dir, PlanChanges(s.paths[..n], s.dir.files, small, fault, bloom), RunChanges(run, s.dir.files, fault(run), bloom),
      SafeState(s, bloom, horizon));
  }

  /** Wherever a merge pass is cut short, whichever merges fail, a restart finds the same entries, the log up to repeats,
      and sidecars that serve; at its end everything is as good as before. */
  lemma PassSafe(s: Store, small: Path -> bool, fault: seq<Path> -> MergeFault, bloom: bool, horizon: Option<int>)
    requires Quiet(s) && (bloom ==> SidecarsServe(s.dir, Active(s), horizon))
    ensures AsGood(PassStore(s, small, fault, bloom), s, bloom, horizon)
    ensures Through(s.dir, PassChanges(s, small, fault, bloom), SafeState(s, bloom, horizon))
  {
    var n := |s.paths| - 1;
    var t, sofar := WalkStore(s, small, fault, bloom, n), Planned(s.paths[..n], small, fault);
    WalkSafe(s, small, fault, bloom, horizon, n);
    PassEnds(s, small, fault, bloom);
    FlushSafe(t, sofar.0, sofar.1, s.paths[n..], s, fault(sofar.1), bloom, horizon);
    PassThrough(s, small, fault, bloom, horizon);
  }

  // ----------------------------------------------------------- retention passes

  function Drops(closed: seq<Path>, files: Contents, cutoff: int): seq<Change> {
    if closed == [] then []
    else
      var p := closed[|closed| - 1];
      Drops(closed[..|closed| - 1], files, cutoff) + if Expired(At(files, p), cutoff) then Delete(p) else []
  }

  /** runRetentionPass: the changes of the directory, in order. */
  function RetentionChanges(s: Store, days: int, cutoff: int): seq<Change>
    requires s.paths != []
  {
    if days <= 0 then [] else Drops(s.paths[..|s.paths| - 1], s.dir.files, cutoff)
  }

  /** The closed segments that a retention pass drops. */
  ghost function Overdue(s: Store, days: int, cutoff: int): set<Path> {
    if days <= 0 then {} else ExpiredPaths(s, cutoff)
  }

  /** The store after a retention pass. */
  ghost function RetentionStore(s: Store, days: int, cutoff: int): Store
    requires s.paths != []
  {
    Store(Ran(s.dir, RetentionChanges(s, days, cutoff)), KeepPaths(s.paths, Overdue(s, days, cutoff)), s.nextSeq)
  }

  ghost function RetentionStates(s: Store, cutoff: int): Dir -> bool {
    d => MidRetention(s, cutoff, d)
  }

  lemma DropsNext(paths: seq<Path>, k: nat, files: Contents, cutoff: int)
    requires k < |paths|
    ensures Drops(paths[..k + 1], files, cutoff) ==
      Drops(paths[..k], files, cutoff) + if Expired(At(files, paths[k]), cutoff) then Delete(paths[k]) else []
  {
    assert paths[..k + 1][..k] == paths[..k];
  }

  /** The directory without some segments and their sidecars. */
  function Without(d: Dir, gone: set<Path>): Dir {
    d.(files := d.files - gone, sidecars := d.sidecars - gone)
  }

  lemma WithoutOneMore(s: Store, gone: set<Path>, p: Path, cutoff: int)
    requires gone + {p} <= ExpiredPaths(s, cutoff)
    ensures Ran(Without(s.dir, gone), Delete(p)) == Without(s.dir, gone + {p})
    ensures Through(Without(s.dir, gone), Delete(p), RetentionStates(s, cutoff))
  {
    var d := Without(s.dir, gone);
    GoneStep(s.dir.files, gone, p);
    GoneStep(s.dir.sidecars, gone, p);
    RetentionState(s, cutoff, d, gone);
    RetentionState(s, cutoff, d.(files := d.files - {p}), gone + {p});
    RetentionState(s, cutoff, Without(s.dir, gone + {p}), gone + {p});
    DeleteThrough(d, p, RetentionStates(s, cutoff));
  }

  lemma DropNext(s: Store, cutoff: int, cs: seq<Change>, gone: set<Path>, p: Path, gone': set<Path>)
    requires Ran(s.dir, cs) == Without(s.dir, gone) && Through(s.dir, cs, RetentionStates(s, cutoff))
    requires gone' == (if Expired(At(s.dir.files, p), cutoff) then gone + {p} else gone) && gone' <= ExpiredPaths(s, cutoff)
    ensures var cs' := cs + if Expired(At(s.dir.files, p), cutoff) then Delete(p) else [];
      Ran(s.dir, cs') == Without(s.dir, gone') && Through(s.dir, cs', RetentionStates(s, cutoff))
  {
    if Expired(At(s.dir.files, p), cutoff) {
      WithoutOneMore(s, gone, p, cutoff);
      ThroughThen(s.dir, cs, Without(s.dir, gone), Delete(p), Without(s.dir, gone'), RetentionStates(s, cutoff));
    } else {
      AppendNone(cs);
    }
  }

  lemma NoDropsYet(s: Store, cutoff: int)
    ensures Without(s.dir, {}) == s.dir && Through(s.dir, [], RetentionStates(s, cutoff))
  {
    NoneGone(s.dir.files);
    NoneGone(s.dir.sidecars);
    RetentionState(s, cutoff, s.dir, {});
    ThroughNone(s.dir, RetentionStates(s, cutoff));
  }

  lemma NoneDropped(s: Store, cutoff: int)
    ensures Ran(s.dir, Drops([], s.dir.files, cutoff)) == Without(s.dir, ExpiredUpTo(s, cutoff, 0))
    ensures Through(s.dir, Drops([], s.dir.files, cutoff), RetentionStates(s, cutoff))
  {
    NoDropsYet(s, cutoff);
  }

  lemma DropsStep(s: Store, cutoff: int, k: nat)
    requires Distinct(s.paths) && 0 < k < |s.paths|
    requires Ran(s.dir, Drops(s.paths[..k - 1], s.dir.files, cutoff)) == Without(s.dir, ExpiredUpTo(s, cutoff, k - 1))
    requires Through(s.dir, Drops(s.paths[..k - 1], s.dir.files, cutoff), RetentionStates(s, cutoff))
    ensures Ran(s.dir, Drops(s.paths[..k], s.dir.files, cutoff)) == Without(s.dir, ExpiredUpTo(s, cutoff, k))
    ensures Through(s.dir, Drops(s.paths[..k], s.dir.files, cutoff), RetentionStates(s, cutoff))
  {
    var i := k - 1;
    DropsNext(s.paths, i, s.dir.files, cutoff);
    NextExpired(s, cutoff, i);
    DropNext(s, cutoff, Drops(s.paths[..i], s.dir.files, cutoff), ExpiredUpTo(s, cutoff, i), s.paths[i], ExpiredUpTo(s, cutoff, k));
  }

  lemma {:induction false} DropsThrough(s: Store, cutoff: int, k: nat)
    requires Distinct(s.paths) && k < |s.paths|
    ensures Ran(s.dir, Drops(s.paths[..k], s.dir.files, cutoff)) == Without(s.dir, ExpiredUpTo(s, cutoff, k))
    ensures Through(s.dir, Drops(s.paths[..k], s.dir.files, cutoff), RetentionStates(s, cutoff))
  {
    if k == 0 {
      assert s.paths[..0] == [];
      NoneDropped(s, cutoff);
    } else {
      DropsThrough(s, cutoff, k - 1);
      DropsStep(s, cutoff, k);
    }
  }

  /** Wherever a retention pass is cut short, the directory is a retention state; at its end exactly the expired closed
      segments are gone. */
  lemma RetentionThrough(s: Store, days: int, cutoff: int)
    requires Quiet(s)
    ensures StorePurged(RetentionStore(s, days, cutoff), s, Overdue(s, days, cutoff))
    ensures Through(s.dir, RetentionChanges(s, days, cutoff), RetentionStates(s, cutoff))
  {
    if days <= 0 {
      NoDropsYet(s, cutoff);
    } else {
      DropsThrough(s, cutoff, |s.paths| - 1);
      ExpiredInAll(s, cutoff);
    }
  }

  /** A retention pass drops a segment, from the list and from disk, exactly if retention is on, the segment is closed,
      and its entries are all older than the cutoff and not all of timestamp 0 or less. */
  lemma RetentionDropsIff(s: Store, days: int, cutoff: int, p: Path)
    requires Quiet(s) && p in s.paths
    ensures var t := RetentionStore(s, days, cutoff);
      && (p !in t.paths <==> days > 0 && p != Active(s) && AllOld(At(s.dir.files, p), cutoff))
      && (p in t.dir.files <==> p in t.paths) && (p in t.paths ==> t.dir.files[p] == At(s.dir.files, p))
  {
    RetentionThrough(s, days, cutoff);
    ExpiredIff(At(s.dir.files, p), cutoff);
    KeptPaths(s.paths, Overdue(s, days, cutoff));
    assert p in ToSet(s.paths);
  }
}
