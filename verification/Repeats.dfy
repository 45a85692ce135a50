/** Exactly when a query that overlaps merges reads an entry twice.

The compactor takes a run out of the index before it renames, so that no query resolves the merged file together
with the files it was merged from. A query that resolved earlier may still read both.
*/
module Repeats {
  import opened Ordering
  import opened Entries
  import opened Index
  import opened Executor
  import opened Store
  import opened Interleaving
  import Parser

  // -------------------------------------------------------------- conditions

  /** The merge under way has renamed. */
  ghost predicate Swapped(s: State) {
    s.job.Merge? && s.job.run != [] && (s.job.phase.Adding? || s.job.phase.Deleting?)
  }

  ghost predicate Reads(s: State, p: Path) {
    s.query.Reading? && s.query.todo != [] && s.query.todo[0] == p
  }

  /** The next read takes the merged file. */
  ghost predicate ReadsMerged(s: State) {
    Swapped(s) && Reads(s, s.job.run[0])
  }

  /** The next read takes a file that was merged and is not yet deleted. */
  ghost predicate ReadsOld(s: State) {
    Swapped(s) && exists p :: p in s.job.run[1..] && Reads(s, p) && At(s.disk, p) != []
  }

  ghost predicate NextSeen(s: State, ev: Event, seen: bool) {
    if !Enabled(s, ev) then seen else (ev.Read? && ReadsMerged(s)) || (seen && !ev.Resolve? && !ev.Finish?)
  }

  /** Since Resolve, the query has read the merged file of the merge that is still under way. */
  ghost predicate Seen(s: State, evs: seq<Event>) {
    evs != [] && var n := |evs| - 1; NextSeen(Run(s, evs[..n]), evs[n], Seen(s, evs[..n]))
  }

  ghost predicate NextTwice(s: State, ev: Event, seen: bool, twice: bool) {
    if !Enabled(s, ev) then twice else !ev.Resolve? && (twice || (ev.Read? && ReadsOld(s) && seen))
  }

  /** Since Resolve, the query has read a merged file after its rename and then, during the same merge, a non-empty
      one of the files merged into it. */
  ghost predicate Twice(s: State, evs: seq<Event>) {
    evs != [] && var n := |evs| - 1; NextTwice(Run(s, evs[..n]), evs[n], Seen(s, evs[..n]), Twice(s, evs[..n]))
  }

  ghost predicate NextRenamed(s: State, ev: Event, renamed: bool) {
    if !Enabled(s, ev) then renamed else ev.Rename? || (renamed && !ev.Resolve?)
  }

  /** Since Resolve, some merge has renamed. */
  ghost predicate Renamed(s: State, evs: seq<Event>) {
    evs != [] && var n := |evs| - 1; NextRenamed(Run(s, evs[..n]), evs[n], Renamed(s, evs[..n]))
  }

  // ------------------------------------------------------------- assumptions

  /** Appended entries are new; runs, and the paths a query resolves, are in the order of the path list. */
  ghost predicate Usual(s: State, ev: Event, before: (Path, Path) -> bool) {
    match ev
    case Append(_, e) => !Held(s.disk, e) && (s.query.Reading? ==> e !in s.query.got)
    case Begin(run) => Ascending(run, before)
    case Resolve(_, _, paths, _) => Ascending(paths, before)
    case _ => true
  }

  ghost predicate UsualRun(s: State, evs: seq<Event>, before: (Path, Path) -> bool) {
    evs != [] ==>
      var n := |evs| - 1;
      UsualRun(s, evs[..n], before) && (Enabled(Run(s, evs[..n]), evs[n]) ==> Usual(Run(s, evs[..n]), evs[n], before))
  }

  // --------------------------------------------------------- copies on disk

  ghost predicate Shared(d: Contents, p: Path, q: Path, e: Entry) {
    p != q && e in At(d, p) && e in At(d, q)
  }

  /** The merged file and one it was merged from. */
  ghost predicate Copies(s: State, p: Path, q: Path) {
    Swapped(s) && ((p == s.job.run[0] && q in s.job.run[1..]) || (q == s.job.run[0] && p in s.job.run[1..]))
  }

  /** No entry is on disk twice, except in a merged file and one it was merged from. */
  ghost predicate Apart(s: State) {
    && (forall p :: Distinct(At(s.disk, p)))
    && (forall p, q, e :: Shared(s.disk, p, q, e) ==> Copies(s, p, q))
  }

  lemma {:induction false} LogDistinct(run: seq<Path>, d: Contents)
    requires Distinct(run) && (forall p :: Distinct(At(d, p))) && forall p, q, e :: p in run && q in run ==> !Shared(d, p, q, e)
    ensures Distinct(Log(run, d))
  {
    if run != [] {
      var n := |run| - 1;
      SplitLast(run);
      LogDistinct(run[..n], d);
      LogMembers(run[..n], d);
      var a, b := Log(run[..n], d), At(d, run[n]);
      forall i, j | 0 <= i < |a| && 0 <= j < |b| ensures a[i] != b[j] {
        assert a[i] in a;
        var p :| p in run[..n] && a[i] in At(d, p);
        assert !Shared(d, p, run[n], a[i]);
      }
    }
  }

  lemma AppendApart(s: State, p: Path, x: Entry)
    requires Apart(s) && Enabled(s, Append(p, x)) && !Held(s.disk, x)
    ensures Apart(Next(s, Append(p, x)))
  {
    var d, d' := s.disk, Extended(s.disk, p, x);
    ExtendedAt(d, p, x);
    assert x !in At(d, p);
    forall a: Path, b: Path, e | Shared(d', a, b, e) ensures Copies(s, a, b) {
      assert forall q :: x !in At(d, q);
      assert Shared(d, a, b, e);
    }
  }

  lemma RenameApart(s: State)
    requires Agreed(s) && Apart(s) && s.job.Merge? && JobStep(s.job, Rename)
    ensures Apart(NextOfJob(s, Rename))
  {
    var d, t, run := s.disk, NextOfJob(s, Rename), s.job.run;
    assert forall p, q, e :: !Shared(d, p, q, e);
    LogDistinct(run, d);
    assert forall p :: At(t.disk, p) == if p == run[0] then s.job.all else At(d, p);
    forall p: Path, q: Path, e | Shared(t.disk, p, q, e) ensures Copies(t, p, q) {
      assert !Shared(d, p, q, e);
      assert p == run[0] || q == run[0];
      MergedShares(s, if p == run[0] then q else p, e);
    }
  }

  lemma MergedShares(s: State, p: Path, e: Entry)
    requires Agreed(s) && s.job.Merge? && JobStep(s.job, Rename) && (forall a, b, x :: !Shared(s.disk, a, b, x))
    requires p != s.job.run[0] && e in s.job.all && e in At(s.disk, p)
    ensures p in s.job.run[1..]
  {
    LogMembers(s.job.run, s.disk);
    var r :| r in s.job.run && e in At(s.disk, r);
    assert !Shared(s.disk, r, p, e);
    InTail(s.job.run, p);
  }

  lemma InTail(run: seq<Path>, p: Path)
    requires p in run && p != run[0]
    ensures p in run[1..]
  {
    var i :| 0 <= i < |run| && run[i] == p;
    assert run[1..][i - 1] == p;
  }

  lemma FewerApart(s: State, t: State)
    requires Apart(s) && (forall p :: At(t.disk, p) == At(s.disk, p) || At(t.disk, p) == [])
    requires forall p, q, e :: Copies(s, p, q) && Shared(t.disk, p, q, e) ==> Copies(t, p, q)
    ensures Apart(t)
  {
    forall p: Path, q: Path, e | Shared(t.disk, p, q, e) ensures Copies(t, p, q) {
      assert Shared(s.disk, p, q, e);
    }
  }

  lemma FinishApart(s: State)
    requires Agreed(s) && Apart(s) && s.job.Merge? && JobStep(s.job, Finish)
    ensures Apart(NextOfJob(s, Finish))
  {
    if Swapped(s) {
      forall p | p in s.job.run[1..] ensures At(s.disk, p) == [] {
        var i :| 0 <= i < |s.job.run[1..]| && s.job.run[1..][i] == p;
        assert p == s.job.run[i + 1];
      }
    }
    FewerApart(s, NextOfJob(s, Finish));
  }

  lemma StepApart(s: State, ev: Event, before: (Path, Path) -> bool)
    requires Agreed(s) && Apart(s) && Enabled(s, ev) && Usual(s, ev, before)
    ensures Apart(Next(s, ev))
  {
    match ev
    case Append(p, e) => AppendApart(s, p, e);
    case Rename => RenameApart(s);
    case Finish => FinishApart(s);
    case Begin(_) => FewerApart(s, Next(s, ev));
    case Expire(_) => FewerApart(s, Next(s, ev));
    case Drop => FewerApart(s, Next(s, ev));
    case Resolve(_, _, _, _) => FewerApart(s, Next(s, ev));
    case Read => FewerApart(s, Next(s, ev));
    case _ => JobApart(s, ev);
  }

  lemma JobApart(s: State, ev: Event)
    requires Agreed(s) && Apart(s) && s.job.Merge? && JobStep(s.job, ev) && !ev.Rename? && !ev.Finish?
    ensures Apart(NextOfJob(s, ev))
  {
    FewerApart(s, NextOfJob(s, ev));
  }

  // ---------------------------------------------------------------- invariant

  /** Every path still to read comes after `q` in the path list. */
  ghost predicate Behind(q: Path, todo: seq<Path>, before: (Path, Path) -> bool) {
    forall p :: p in todo ==> before(q, p)
  }

  /** What was read sits behind everything still to read, except for old copies of a merged file that was read. */
  ghost predicate ReadIsBehind(s: State, seen: bool, before: (Path, Path) -> bool)
    requires s.query.Reading?
  {
    forall e, q :: e in s.query.got && e in At(s.disk, q) ==>
      Behind(q, s.query.todo, before) || (seen && Swapped(s) && q in s.job.run[1..])
  }

  ghost predicate Counted(s: State, seen: bool, twice: bool, before: (Path, Path) -> bool) {
    && (seen ==> s.query.Reading? && Swapped(s) && forall e :: e in s.job.all ==> e in s.query.got)
    && (s.query.Reading? ==>
          && Ascending(s.query.todo, before) && ReadIsBehind(s, seen, before)
          && (twice <==> !Distinct(s.query.got)))
    && (s.job.Merge? ==> Ascending(s.job.run, before))
  }

  lemma Repeated(a: seq<Entry>, b: seq<Entry>, e: Entry)
    requires e in a && e in b
    ensures !Distinct(a + b)
  {
    var i :| 0 <= i < |a| && a[i] == e;
    var j :| 0 <= j < |b| && b[j] == e;
    assert (a + b)[i] == (a + b)[|a| + j];
  }

  lemma NotRepeated(a: seq<Entry>, b: seq<Entry>)
    requires Distinct(b) && forall e :: e in b ==> e !in a
    ensures Distinct(a + b) <==> Distinct(a)
  {
    if !Distinct(a) {
      var i, j :| 0 <= i < j < |a| && a[i] == a[j];
      assert (a + b)[i] == (a + b)[j];
    }
    forall i, j | 0 <= i < |a| && 0 <= j < |b| ensures a[i] != b[j] {
      assert b[j] in b && a[i] in a;
    }
  }

  lemma ReadCounts(s: State, seen: bool, twice: bool, before: (Path, Path) -> bool)
    requires Agreed(s) && Apart(s) && StrictOrder(before) && Counted(s, seen, twice, before) && Enabled(s, Read)
    ensures NextTwice(s, Read, seen, twice) <==> !Distinct(Next(s, Read).query.got)
  {
    var x, got := s.query.todo[0], s.query.got;
    var b := At(s.disk, x);
    assert x in s.query.todo && Reads(s, x);
    if ReadsOld(s) && seen {
      assert x in s.job.run[1..];
      assert b[0] in b && x in s.job.run;
      Repeated(got, b, b[0]);
    } else {
      assert !Behind(x, s.query.todo, before);
      assert seen && b != [] ==> x !in s.job.run[1..];
      assert forall e :: e in b ==> e !in got;
      NotRepeated(got, b);
    }
  }

  lemma ReadBehind(s: State, seen: bool, before: (Path, Path) -> bool, e: Entry, q: Path)
    requires Agreed(s) && Apart(s) && StrictOrder(before) && Enabled(s, Read) && e in At(s.disk, q)
    requires Ascending(s.query.todo, before) && ReadIsBehind(s, seen, before) && (s.job.Merge? ==> Ascending(s.job.run, before))
    requires e in s.query.got || e in At(s.disk, s.query.todo[0])
    ensures Behind(q, s.query.todo[1..], before) || (NextSeen(s, Read, seen) && Swapped(s) && q in s.job.run[1..])
  {
    var x, rest := s.query.todo[0], s.query.todo[1..];
    assert forall p :: p in rest ==> p in s.query.todo;
    assert Behind(x, rest, before);
    if e !in s.query.got && q != x {
      assert Shared(s.disk, x, q, e);
      if q == s.job.run[0] {
        HeadFirst(s.job.run, x, before);
        assert forall p :: p in rest ==> before(x, p);
      } else {
        assert ReadsMerged(s);
      }
    }
  }

  lemma HeadFirst(run: seq<Path>, p: Path, before: (Path, Path) -> bool)
    requires Ascending(run, before) && run != [] && p in run[1..]
    ensures before(run[0], p)
  {
    var i :| 0 <= i < |run[1..]| && run[1..][i] == p;
    assert run[i + 1] == p;
  }

  lemma ReadStep(s: State, seen: bool, twice: bool, before: (Path, Path) -> bool)
    requires Agreed(s) && Apart(s) && StrictOrder(before) && Counted(s, seen, twice, before) && Enabled(s, Read)
    ensures Counted(Next(s, Read), NextSeen(s, Read, seen), NextTwice(s, Read, seen, twice), before)
  {
    var t := Next(s, Read);
    ReadCounts(s, seen, twice, before);
    forall e, q | e in t.query.got && e in At(t.disk, q)
      ensures Behind(q, t.query.todo, before) || (NextSeen(s, Read, seen) && Swapped(t) && q in t.job.run[1..])
    {
      ReadBehind(s, seen, before, e, q);
    }
  }

  lemma RenameBehind(s: State, before: (Path, Path) -> bool)
    requires Agreed(s) && StrictOrder(before) && s.job.Merge? && JobStep(s.job, Rename) && Ascending(s.job.run, before)
    requires s.query.Reading? && ReadIsBehind(s, false, before)
    ensures ReadIsBehind(NextOfJob(s, Rename), false, before)
  {
    var t, run := NextOfJob(s, Rename), s.job.run;
    LogMembers(run, s.disk);
    forall e, q | e in t.query.got && e in At(t.disk, q) ensures Behind(q, t.query.todo, before) {
      if q == run[0] {
        var r :| r in run && e in At(s.disk, r);
        assert Behind(r, s.query.todo, before);
        if r != run[0] {
          InTail(run, r);
          HeadFirst(run, r, before);
        }
      }
    }
  }

  lemma RenameStep(s: State, seen: bool, twice: bool, before: (Path, Path) -> bool)
    requires Agreed(s) && StrictOrder(before) && Counted(s, seen, twice, before) && s.job.Merge? && JobStep(s.job, Rename)
    ensures Counted(NextOfJob(s, Rename), seen, twice, before)
  {
    if s.query.Reading? {
      RenameBehind(s, before);
    }
  }

  lemma AppendStep(s: State, seen: bool, twice: bool, before: (Path, Path) -> bool, ev: Event)
    requires Counted(s, seen, twice, before) && ev.Append? && Enabled(s, ev) && Usual(s, ev, before)
    ensures Counted(Next(s, ev), seen, twice, before)
  {
    ExtendedAt(s.disk, ev.path, ev.e);
  }

  /** A step that adds nothing to a file, keeps what was read and does not disturb a merge under way. */
  lemma QuietStep(s: State, t: State, seen: bool, twice: bool, before: (Path, Path) -> bool)
    requires Counted(s, seen, twice, before) && (forall p :: At(t.disk, p) == At(s.disk, p) || At(t.disk, p) == [])
    requires s.query.Reading? == t.query.Reading?
    requires s.query.Reading? ==> t.query.todo == s.query.todo && t.query.got == s.query.got
    requires seen ==> Swapped(t) && t.job.run == s.job.run && t.job.all == s.job.all
    requires t.job.Merge? ==> Ascending(t.job.run, before)
    ensures Counted(t, seen, twice, before)
  {
  }

  lemma FinishStep(s: State, seen: bool, twice: bool, before: (Path, Path) -> bool)
    requires Agreed(s) && Counted(s, seen, twice, before) && s.job.Merge? && JobStep(s.job, Finish)
    ensures Counted(NextOfJob(s, Finish), false, twice, before)
  {
    var t := NextOfJob(s, Finish);
    if s.query.Reading? {
      forall e, q | e in t.query.got && e in At(t.disk, q) ensures Behind(q, t.query.todo, before) {
        if Swapped(s) && q in s.job.run[1..] {
          var i :| 0 <= i < |s.job.run[1..]| && s.job.run[1..][i] == q;
          assert q == s.job.run[i + 1];
        }
      }
    }
  }

  lemma JobCounted(s: State, ev: Event, seen: bool, twice: bool, before: (Path, Path) -> bool)
    requires Agreed(s) && StrictOrder(before) && Counted(s, seen, twice, before) && s.job.Merge? && JobStep(s.job, ev)
    ensures Counted(NextOfJob(s, ev), seen && !ev.Finish?, twice, before)
  {
    match ev
    case Rename => RenameStep(s, seen, twice, before);
    case Finish => FinishStep(s, seen, twice, before);
    case Unindex => QuietStep(s, NextOfJob(s, ev), seen, twice, before);
    case RenameFails => QuietStep(s, NextOfJob(s, ev), seen, twice, before);
    case Reindex => QuietStep(s, NextOfJob(s, ev), seen, twice, before);
    case AddNext => QuietStep(s, NextOfJob(s, ev), seen, twice, before);
    case UpdatePaths => QuietStep(s, NextOfJob(s, ev), seen, twice, before);
    case Delete => QuietStep(s, NextOfJob(s, ev), seen, twice, before);
  }

  lemma ResolveStep(s: State, ev: Event, seen: bool, twice: bool, before: (Path, Path) -> bool)
    requires Counted(s, seen, twice, before) && ev.Resolve? && Enabled(s, ev) && Usual(s, ev, before)
    ensures Counted(Next(s, ev), false, false, before)
  {
  }

  lemma IdleStep(s: State, ev: Event, seen: bool, twice: bool, before: (Path, Path) -> bool)
    requires Counted(s, seen, twice, before) && (ev.Begin? || ev.Expire? || ev.Drop?) && Enabled(s, ev) && Usual(s, ev, before)
    ensures Counted(Next(s, ev), seen, twice, before)
  {
    QuietStep(s, Next(s, ev), seen, twice, before);
  }

  lemma OtherStep(s: State, ev: Event, seen: bool, twice: bool, before: (Path, Path) -> bool)
    requires Agreed(s) && StrictOrder(before) && Counted(s, seen, twice, before) && Enabled(s, ev) && Usual(s, ev, before)
    requires !ev.Read? && !ev.Resolve?
    ensures Counted(Next(s, ev), seen && !ev.Finish?, twice, before)
  {
    match ev
    case Append(_, _) => AppendStep(s, seen, twice, before, ev);
    case Begin(_) => IdleStep(s, ev, seen, twice, before);
    case Expire(_) => IdleStep(s, ev, seen, twice, before);
    case Drop => IdleStep(s, ev, seen, twice, before);
    case _ => JobCounted(s, ev, seen, twice, before);
  }

  lemma StepCounted(s: State, ev: Event, seen: bool, twice: bool, before: (Path, Path) -> bool)
    requires Agreed(s) && Apart(s) && StrictOrder(before) && Counted(s, seen, twice, before) && Enabled(s, ev) && Usual(s, ev, before)
    ensures Counted(Next(s, ev), NextSeen(s, ev, seen), NextTwice(s, ev, seen, twice), before)
  {
    if ev.Read? {
      ReadStep(s, seen, twice, before);
    } else if ev.Resolve? {
      ResolveStep(s, ev, seen, twice, before);
    } else {
      OtherStep(s, ev, seen, twice, before);
    }
  }

  lemma {:induction false} RunCounted(s: State, evs: seq<Event>, before: (Path, Path) -> bool)
    requires Agreed(s) && Apart(s) && s.query.NoQuery? && (s.job.Merge? ==> Ascending(s.job.run, before))
    requires StrictOrder(before) && UsualRun(s, evs, before)
    ensures var t := Run(s, evs); Agreed(t) && Apart(t) && Counted(t, Seen(s, evs), Twice(s, evs), before)
  {
    if evs != [] {
      var n := |evs| - 1;
      RunCounted(s, evs[..n], before);
      var t := Run(s, evs[..n]);
      if Enabled(t, evs[n]) {
        StepAgreed(t, evs[n]);
        StepApart(t, evs[n], before);
        StepCounted(t, evs[n], Seen(s, evs[..n]), Twice(s, evs[..n]), before);
      }
    }
  }

  /** From a disk without repeats, under every interleaving: what a query has read repeats an entry if and only if
      it read a merged file after its rename and then, during the same merge, a non-empty file merged into it. */
  lemma RepeatsIff(s: State, evs: seq<Event>, before: (Path, Path) -> bool)
    requires Agreed(s) && Apart(s) && s.query.NoQuery? && (s.job.Merge? ==> Ascending(s.job.run, before))
    requires StrictOrder(before) && UsualRun(s, evs, before) && Run(s, evs).query.Reading?
    ensures !Distinct(Run(s, evs).query.got) <==> Twice(s, evs)
  {
    RunCounted(s, evs, before);
  }

  // ------------------------------------------------------- without a rename

  /** A query that resolved after the rename has none of the old files to read. */
  ghost predicate OldUnresolved(s: State) {
    s.query.Reading? && Swapped(s) ==> forall p :: p in s.job.run[1..] ==> p !in s.query.todo
  }

  lemma ResolvesNoOld(s: State, ev: Event)
    requires Agreed(s) && ev.Resolve? && Enabled(s, ev)
    ensures OldUnresolved(Next(s, ev))
  {
    if Swapped(s) {
      forall p | p in s.job.run[1..] ensures p !in ev.paths {
        var i :| 0 <= i < |s.job.run[1..]| && s.job.run[1..][i] == p;
        assert p == s.job.run[i + 1] && At(s.indexed, p) == [];
      }
    }
  }

  lemma StepUnresolved(s: State, ev: Event)
    requires Agreed(s) && Enabled(s, ev) && OldUnresolved(s) && !ev.Rename?
    ensures OldUnresolved(Next(s, ev))
  {
    if ev.Resolve? {
      ResolvesNoOld(s, ev);
    }
  }

  lemma {:induction false} TwiceNeedsRename(s: State, evs: seq<Event>)
    requires Agreed(s) && s.query.NoQuery?
    ensures Agreed(Run(s, evs)) && (Twice(s, evs) ==> Renamed(s, evs)) && (!Renamed(s, evs) ==> OldUnresolved(Run(s, evs)))
  {
    if evs != [] {
      var n := |evs| - 1;
      var t, ev := Run(s, evs[..n]), evs[n];
      TwiceNeedsRename(s, evs[..n]);
      StepAgreed(t, ev);
      if Enabled(t, ev) && ev.Resolve? {
        ResolvesNoOld(t, ev);
      } else if Enabled(t, ev) && !Renamed(s, evs) {
        StepUnresolved(t, ev);
      }
    }
  }

  /** A query during which no merge renames reads no entry twice. */
  lemma NoRenameNoRepeat(s: State, evs: seq<Event>, before: (Path, Path) -> bool)
    requires Agreed(s) && Apart(s) && s.query.NoQuery? && (s.job.Merge? ==> Ascending(s.job.run, before))
    requires StrictOrder(before) && UsualRun(s, evs, before) && Run(s, evs).query.Reading? && !Renamed(s, evs)
    ensures Distinct(Run(s, evs).query.got)
  {
    RepeatsIff(s, evs, before);
    TwiceNeedsRename(s, evs);
  }

  // ------------------------------------------------------ the path list's order

  ghost predicate ListedBefore(paths: seq<Path>, p: Path, q: Path) {
    exists i, j :: 0 <= i < j < |paths| && paths[i] == p && paths[j] == q
  }

  /** What a query resolves, sorted by name, is in the order of the path list. */
  lemma ResolvedInListOrder(s: Store, kept: seq<Path>, req: Request, ast: Option<Parser.Node>, blooms: map<Path, Bloom>, a: nat, b: nat)
    requires Quiet(s) && Kept(kept, req, ast, s.dir.files, blooms) && a < b < |kept|
    ensures ListedBefore(s.paths, kept[a], kept[b])
  {
    assert kept[a] in kept && kept[b] in kept && Below(kept[a], kept[b]);
    assert kept[a] in ToSet(s.paths) && kept[b] in ToSet(s.paths);
    var i: nat :| i < |s.paths| && s.paths[i] == kept[a];
    var j: nat :| j < |s.paths| && s.paths[j] == kept[b];
    assert PairOk(s.paths, s.dir.files, j, i);
  }
}
