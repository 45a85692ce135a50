/** Exactly when a query that overlaps merges, retention and appends misses an entry. */
module Misses {
  import opened Ordering
  import opened Entries
  import opened Index
  import opened Executor
  import opened Interleaving
  import opened Repeats

  /** The run's file at place `i` is deleted. */
  ghost predicate Gone(s: State, i: nat) {
    s.job.Merge? && s.job.phase.Deleting? && i < s.job.phase.k
  }

  /** Where an entry of the run's file at place `i` is: in that file until it is deleted, and in the merged file from the
      rename on. */
  ghost predicate HeldAt(s: State, run: seq<Path>, i: nat, p: Path)
    requires i < |run|
  {
    (p == run[i] && !Gone(s, i)) || (p == run[0] && Swapped(s))
  }

  /** A merge of `run` is under way, and the entry came from the file at place `i`. */
  ghost predicate Home(s: State, run: seq<Path>, i: nat, e: Entry) {
    && s.job.Merge? && s.job.run == run && i < |run| && e in s.job.all
    && forall p :: e in At(s.disk, p) <==> HeldAt(s, run, i, p)
  }

  lemma BeginHome(s: State, run: seq<Path>, i: nat, e: Entry)
    requires Agreed(s) && Apart(s) && Enabled(s, Begin(run)) && i < |run| && e in At(s.disk, run[i])
    ensures Home(Next(s, Begin(run)), run, i, e)
  {
    LogMembers(run, s.disk);
    assert run[i] in run;
    forall p: Path ensures e in At(s.disk, p) <==> p == run[i] {
      assert !Shared(s.disk, p, run[i], e);
    }
  }

  lemma RenameHome(s: State, run: seq<Path>, i: nat, e: Entry)
    requires Agreed(s) && Home(s, run, i, e) && JobStep(s.job, Rename)
    ensures Home(NextOfJob(s, Rename), run, i, e)
  {
    forall p: Path ensures e in At(NextOfJob(s, Rename).disk, p) <==> HeldAt(NextOfJob(s, Rename), run, i, p) {
      assert e in At(s.disk, p) <==> HeldAt(s, run, i, p);
    }
  }

  lemma DeleteHome(s: State, run: seq<Path>, i: nat, e: Entry)
    requires Agreed(s) && Home(s, run, i, e) && JobStep(s.job, Delete)
    ensures Home(NextOfJob(s, Delete), run, i, e)
  {
    var t, k := NextOfJob(s, Delete), s.job.phase.k;
    assert run[k] != run[0];
    forall p: Path ensures e in At(t.disk, p) <==> HeldAt(t, run, i, p) {
      assert e in At(s.disk, p) <==> HeldAt(s, run, i, p);
      assert i != k && i < |run| ==> run[i] != run[k];
    }
  }

  lemma AppendHome(s: State, run: seq<Path>, i: nat, e: Entry, ev: Event)
    requires Home(s, run, i, e) && ev.Append? && ev.e != e && Enabled(s, ev)
    ensures Home(Next(s, ev), run, i, e)
  {
    ExtendedAt(s.disk, ev.path, ev.e);
    forall p: Path ensures e in At(Next(s, ev).disk, p) <==> HeldAt(Next(s, ev), run, i, p) {
      assert e in At(s.disk, p) <==> HeldAt(s, run, i, p);
    }
  }

  /** A step that leaves the disk alone, and what has been renamed and deleted. */
  lemma OtherHome(s: State, t: State, run: seq<Path>, i: nat, e: Entry)
    requires Home(s, run, i, e) && t.disk == s.disk && t.job.Merge? && t.job.run == run && t.job.all == s.job.all
    requires Swapped(t) == Swapped(s) && (Gone(t, i) == Gone(s, i) || (i == 0 && Swapped(s)))
    ensures Home(t, run, i, e)
  {
    forall p: Path ensures e in At(t.disk, p) <==> HeldAt(t, run, i, p) {
      assert e in At(s.disk, p) <==> HeldAt(s, run, i, p);
    }
  }

  lemma StepHome(s: State, ev: Event, run: seq<Path>, i: nat, e: Entry)
    requires Agreed(s) && Home(s, run, i, e) && Enabled(s, ev) && ev != Finish && (ev.Append? ==> ev.e != e)
    ensures Home(Next(s, ev), run, i, e)
  {
    match ev
    case Append(_, _) => AppendHome(s, run, i, e, ev);
    case Rename => RenameHome(s, run, i, e);
    case Delete => DeleteHome(s, run, i, e);
    case Resolve(_, _, _, _) => OtherHome(s, Next(s, ev), run, i, e);
    case Read => OtherHome(s, Next(s, ev), run, i, e);
    case Unindex => OtherHome(s, NextOfJob(s, ev), run, i, e);
    case RenameFails => OtherHome(s, NextOfJob(s, ev), run, i, e);
    case Reindex => OtherHome(s, NextOfJob(s, ev), run, i, e);
    case AddNext => OtherHome(s, NextOfJob(s, ev), run, i, e);
    case UpdatePaths => OtherHome(s, NextOfJob(s, ev), run, i, e);
  }

  /** The step is no read of the entry's own file before its delete, and none of the merged file after the rename. */
  ghost predicate PassesBy(s: State, ev: Event, run: seq<Path>, i: nat)
    requires i < |run|
  {
    ev.Read? && Enabled(s, ev) ==> (Reads(s, run[i]) ==> Gone(s, i)) && (Reads(s, run[0]) ==> !Swapped(s))
  }

  ghost predicate AllPassBy(s: State, evs: seq<Event>, run: seq<Path>, i: nat)
    requires i < |run|
  {
    evs == [] || (AllPassBy(s, evs[..|evs| - 1], run, i) && PassesBy(Run(s, evs[..|evs| - 1]), evs[|evs| - 1], run, i))
  }

  lemma ReadTakes(s: State, ev: Event, run: seq<Path>, i: nat, e: Entry)
    requires Home(s, run, i, e) && s.query.Reading? && Enabled(s, ev) && !ev.Resolve?
    ensures Next(s, ev).query.Reading?
    ensures e in Next(s, ev).query.got <==> e in s.query.got || (ev.Read? && HeldAt(s, run, i, s.query.todo[0]))
  {
    if ev.Read? {
      assert e in At(s.disk, s.query.todo[0]) <==> HeldAt(s, run, i, s.query.todo[0]);
    }
  }

  lemma StepPassesBy(s: State, ev: Event, run: seq<Path>, i: nat, e: Entry)
    requires Home(s, run, i, e) && s.query.Reading? && !ev.Resolve?
    ensures Apply(s, ev).query.Reading?
    ensures e !in Apply(s, ev).query.got <==> e !in s.query.got && PassesBy(s, ev, run, i)
  {
    if Enabled(s, ev) {
      ReadTakes(s, ev, run, i, e);
    }
  }

  /** No step finishes the merge or appends the entry again. */
  ghost predicate Within(evs: seq<Event>, e: Entry) {
    forall k :: 0 <= k < |evs| ==> evs[k] != Finish && (evs[k].Append? ==> evs[k].e != e)
  }

  ghost predicate NoResolve(evs: seq<Event>) {
    forall k :: 0 <= k < |evs| ==> !evs[k].Resolve?
  }

  lemma {:induction false} RunHome(s: State, evs: seq<Event>, run: seq<Path>, i: nat, e: Entry)
    requires Agreed(s) && Home(s, run, i, e) && Within(evs, e)
    ensures Agreed(Run(s, evs)) && Home(Run(s, evs), run, i, e)
  {
    if evs != [] {
      var n := |evs| - 1;
      RunHome(s, evs[..n], run, i, e);
      var t := Run(s, evs[..n]);
      StepAgreed(t, evs[n]);
      if Enabled(t, evs[n]) {
        StepHome(t, evs[n], run, i, e);
      }
    }
  }

  lemma {:induction false} RunPassesBy(s: State, evs: seq<Event>, run: seq<Path>, i: nat, e: Entry)
    requires Agreed(s) && Home(s, run, i, e) && s.query.Reading? && e !in s.query.got && Within(evs, e) && NoResolve(evs)
    ensures Run(s, evs).query.Reading? && (e !in Run(s, evs).query.got <==> AllPassBy(s, evs, run, i))
  {
    if evs != [] {
      var n := |evs| - 1;
      RunPassesBy(s, evs[..n], run, i, e);
      RunHome(s, evs[..n], run, i, e);
      StepPassesBy(Run(s, evs[..n]), evs[n], run, i, e);
    }
  }

  /** A query that reads during a merge, resolved before or during it, misses an entry of the run if and only if it reads
      the entry's file, if at all, only after its delete, and the merged file, if at all, only before the rename. */
  lemma MissesMergedIff(s: State, run: seq<Path>, i: nat, e: Entry, before: seq<Event>, evs: seq<Event>)
    requires Agreed(s) && Apart(s) && Enabled(s, Begin(run)) && i < |run| && e in At(s.disk, run[i])
    requires Within(before, e) && Within(evs, e) && NoResolve(evs)
    ensures var b := Run(Apply(s, Begin(run)), before);
      b.query.Reading? && e !in b.query.got ==>
        Run(b, evs).query.Reading? && (e !in Run(b, evs).query.got <==> AllPassBy(b, evs, run, i))
  {
    StepAgreed(s, Begin(run));
    BeginHome(s, run, i, e);
    RunHome(Apply(s, Begin(run)), before, run, i, e);
    var b := Run(Apply(s, Begin(run)), before);
    if b.query.Reading? && e !in b.query.got {
      RunPassesBy(b, evs, run, i, e);
    }
  }

  /** In particular, an entry of the run's first file is never lost to the merge: any read of that file finds it. */
  lemma {:induction false} HeadNeverMissed(s: State, run: seq<Path>, evs: seq<Event>, k: nat)
    requires run != [] && k < |evs| && evs[k].Read? && Enabled(Run(s, evs[..k]), Read) && Reads(Run(s, evs[..k]), run[0])
    requires Run(s, evs[..k]).job.Merge? && Run(s, evs[..k]).job.run == run
    ensures !AllPassBy(s, evs, run, 0)
    decreases |evs|
  {
    var n := |evs| - 1;
    if k < n {
      assert evs[..n][..k] == evs[..k] && evs[..n][k] == evs[k];
      HeadNeverMissed(s, run, evs[..n], k);
    }
  }

  // ------------------------------------------------------------ over whole runs

  /** Where the entry is after the event, given where it was before. */
  ghost function Moved(s: State, ev: Event, e: Entry, at: set<Path>): set<Path>
    requires Agreed(s)
  {
    if !Enabled(s, ev) then at
    else
      match ev
      case Append(p, e') => if e' == e then at + {p} else at
      case Rename => if at * ToSet(s.job.run) != {} then at + {s.job.run[0]} else at
      case Delete => at - {s.job.run[s.job.phase.k]}
      case Drop => at - {s.job.path}
      case _ => at
  }

  /** Where the entry is after the events: appends bring it to a file, renames to the first file of the run, deletes and
      drops take it away. */
  ghost function Whereabouts(s: State, evs: seq<Event>, e: Entry, at: set<Path>): set<Path>
    requires Agreed(s)
  {
    if evs == [] then at
    else
      var n := |evs| - 1;
      RunAgreed(s, evs[..n]);
      Moved(Run(s, evs[..n]), evs[n], e, Whereabouts(s, evs[..n], e, at))
  }

  lemma {:induction false} RunAgreed(s: State, evs: seq<Event>)
    requires Agreed(s)
    ensures Agreed(Run(s, evs))
  {
    if evs != [] {
      RunAgreed(s, evs[..|evs| - 1]);
      StepAgreed(Run(s, evs[..|evs| - 1]), evs[|evs| - 1]);
    }
  }

  /** The entry is in exactly these files. */
  ghost predicate IsAt(s: State, e: Entry, at: set<Path>) {
    forall p :: e in At(s.disk, p) <==> p in at
  }

  lemma RenameMoves(s: State, e: Entry, at: set<Path>)
    requires Agreed(s) && IsAt(s, e, at) && Enabled(s, Rename)
    ensures IsAt(Next(s, Rename), e, Moved(s, Rename, e, at))
  {
    var run := s.job.run;
    LogMembers(run, s.disk);
    assert e in s.job.all <==> at * ToSet(run) != {} by {
      if e in s.job.all {
        var p :| p in run && e in At(s.disk, p);
        assert p in at * ToSet(run);
      }
      if at * ToSet(run) != {} {
        var p :| p in at * ToSet(run);
        assert p in run && e in At(s.disk, p);
      }
    }
    assert run[0] in ToSet(run);
    forall p: Path ensures e in At(Next(s, Rename).disk, p) <==> p in Moved(s, Rename, e, at) {
      assert e in At(s.disk, p) <==> p in at;
    }
  }

  lemma RemoveMoves(s: State, t: State, q: Path, e: Entry, at: set<Path>)
    requires IsAt(s, e, at) && t.disk == s.disk - {q}
    ensures IsAt(t, e, at - {q})
  {
    forall p: Path ensures e in At(t.disk, p) <==> p in at - {q} {
      assert e in At(s.disk, p) <==> p in at;
    }
  }

  lemma AppendMoves(s: State, ev: Event, e: Entry, at: set<Path>)
    requires Agreed(s) && IsAt(s, e, at) && ev.Append? && Enabled(s, ev)
    ensures IsAt(Next(s, ev), e, Moved(s, ev, e, at))
  {
    ExtendedAt(s.disk, ev.path, ev.e);
    forall p: Path ensures e in At(Next(s, ev).disk, p) <==> p in Moved(s, ev, e, at) {
      assert e in At(s.disk, p) <==> p in at;
    }
  }

  lemma SameDiskSamePlace(s: State, t: State, e: Entry, at: set<Path>)
    requires IsAt(s, e, at) && t.disk == s.disk
    ensures IsAt(t, e, at)
  {
    forall p: Path ensures e in At(t.disk, p) <==> p in at {
      assert e in At(s.disk, p) <==> p in at;
    }
  }

  lemma StepMoves(s: State, ev: Event, e: Entry, at: set<Path>)
    requires Agreed(s) && IsAt(s, e, at)
    ensures IsAt(Apply(s, ev), e, Moved(s, ev, e, at))
  {
    if Enabled(s, ev) {
      match ev
      case Append(_, _) => AppendMoves(s, ev, e, at);
      case Rename => RenameMoves(s, e, at);
      case Delete => RemoveMoves(s, Next(s, ev), s.job.run[s.job.phase.k], e, at);
      case Drop => RemoveMoves(s, Next(s, ev), s.job.path, e, at);
      case _ => SameDiskSamePlace(s, Next(s, ev), e, at);
    }
  }

  lemma {:induction false} RunMoves(s: State, evs: seq<Event>, e: Entry, at: set<Path>)
    requires Agreed(s) && IsAt(s, e, at)
    ensures IsAt(Run(s, evs), e, Whereabouts(s, evs, e, at))
  {
    if evs != [] {
      var n := |evs| - 1;
      RunMoves(s, evs[..n], e, at);
      RunAgreed(s, evs[..n]);
      StepMoves(Run(s, evs[..n]), evs[n], e, Whereabouts(s, evs[..n], e, at));
    }
  }

  /** Every read is of a file in which the entry is not at that time. */
  ghost predicate NeverMet(s: State, evs: seq<Event>, e: Entry, at: set<Path>)
    requires Agreed(s)
  {
    if evs == [] then true
    else
      var n := |evs| - 1;
      var t := Run(s, evs[..n]);
      NeverMet(s, evs[..n], e, at) && (evs[n].Read? && Enabled(t, Read) ==> t.query.todo[0] !in Whereabouts(s, evs[..n], e, at))
  }

  lemma StepMeets(s: State, ev: Event, e: Entry, at: set<Path>)
    requires IsAt(s, e, at) && s.query.Reading? && !ev.Resolve?
    ensures Apply(s, ev).query.Reading?
    ensures e !in Apply(s, ev).query.got <==> e !in s.query.got && (ev.Read? && Enabled(s, Read) ==> s.query.todo[0] !in at)
  {
    if ev.Read? && Enabled(s, Read) {
      assert e in At(s.disk, s.query.todo[0]) <==> s.query.todo[0] in at;
    }
  }

  /** Over any run of appends, merges and retention, for as long as the query reads: it misses an entry if and only if each
      of its reads is of a file that the entry is not in by then, or no longer in. */
  lemma {:induction false} MissesIff(s: State, evs: seq<Event>, e: Entry, at: set<Path>)
    requires Agreed(s) && IsAt(s, e, at) && s.query.Reading? && e !in s.query.got && NoResolve(evs)
    ensures Run(s, evs).query.Reading? && (e !in Run(s, evs).query.got <==> NeverMet(s, evs, e, at))
  {
    if evs != [] {
      var n := |evs| - 1;
      MissesIff(s, evs[..n], e, at);
      RunMoves(s, evs[..n], e, at);
      StepMeets(Run(s, evs[..n]), evs[n], e, Whereabouts(s, evs[..n], e, at));
    }
  }

  /** Once a merge is finished, an entry of its run is in the merged file only, or where it was if the rename failed. */
  lemma FinishedMerge(s: State, run: seq<Path>, i: nat, e: Entry, evs: seq<Event>)
    requires Agreed(s) && Apart(s) && Enabled(s, Begin(run)) && i < |run| && e in At(s.disk, run[i]) && Within(evs, e)
    requires var t := Run(Apply(s, Begin(run)), evs); Enabled(t, Finish)
    ensures var t := Run(Apply(s, Begin(run)), evs);
      IsAt(Next(t, Finish), e, if t.job.phase.Deleting? then {run[0]} else {run[i]})
  {
    StepAgreed(s, Begin(run));
    BeginHome(s, run, i, e);
    RunHome(Apply(s, Begin(run)), evs, run, i, e);
    var t := Run(Apply(s, Begin(run)), evs);
    forall p: Path ensures e in At(t.disk, p) <==> p in (if t.job.phase.Deleting? then {run[0]} else {run[i]}) {
      assert e in At(t.disk, p) <==> HeldAt(t, run, i, p);
    }
  }
}
