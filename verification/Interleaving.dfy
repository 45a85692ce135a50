/** Queries that overlap merges and retention: Resolve and the single segment reads as separate steps, interleaved
with the steps of `mergeRun` and `runRetentionPass` and with appends.

An event that is not enabled does nothing, so every sequence of events is a run. The compactor is one goroutine,
so it handles one run or one expired segment at a time; one query is followed at a time.
*/
module Interleaving {
  import opened Ordering
  import opened Entries
  import opened Parser
  import opened Index
  import opened Executor
  import opened Store

  datatype Phase =
    | Removing(k: nat)
    | Adding(k: nat)
    | Deleting(k: nat)
    | Restoring(i: nat, m: nat)

  /** What the compactor is doing: a merge, or the removal of an expired segment that the index no longer has. */
  datatype Job = NoJob | Merge(run: seq<Path>, all: seq<Entry>, phase: Phase) | Removal(path: Path, lost: seq<Entry>)

  /** A query after Resolve: its parsed form, the paths still to read and the entries read. The last three fields are
      history: the entries on disk at Resolve, those of every run merged since, and those of every segment expired
      since. */
  datatype Query =
    | NoQuery
    | Reading(req: Request, ast: Option<Node>, todo: seq<Path>, got: seq<Entry>,
        since: set<Entry>, touched: set<Entry>, expired: set<Entry>)

  /** `indexed` is what the index describes. */
  datatype State = State(disk: Contents, indexed: Contents, job: Job, query: Query)

  datatype Event =
    | Append(path: Path, e: Entry)
    | Begin(run: seq<Path>)
    | Unindex
    | Rename
    | RenameFails
    | Reindex
    | AddNext
    | UpdatePaths
    | Delete
    | Finish
    | Expire(path: Path)
    | Drop
    | Resolve(req: Request, ast: Option<Node>, paths: seq<Path>, blooms: map<Path, Bloom>)
    | Read

  ghost function Touch(q: Query, es: set<Entry>): Query {
    if q.Reading? then q.(touched := q.touched + es) else q
  }

  ghost function Lose(q: Query, es: set<Entry>): Query {
    if q.Reading? then q.(expired := q.expired + es) else q
  }

  /** The segment is none that the compactor is working on. */
  ghost predicate Idle(s: State, p: Path) {
    match s.job case NoJob => true case Merge(run, _, _) => p !in run case Removal(q, _) => p != q
  }

  /** Outside the compactor's hands, filters hold their segments' tokens; with filters, no custom field is required. */
  ghost predicate FilteredSound(s: State, ast: Option<Node>, blooms: map<Path, Bloom>) {
    && (blooms != map[] && ast.Some? ==> CustomValues(ast.value) == {})
    && forall p :: p in blooms && Idle(s, p) ==> BloomTokens(At(s.disk, p)) <= blooms[p]
  }

  ghost predicate Enabled(s: State, ev: Event) {
    match ev
    case Append(p, _) => Idle(s, p)
    case Begin(run) => s.job.NoJob? && |run| >= 2 && Distinct(run) && forall p :: p in run ==> p in s.disk
    case Expire(p) => s.job.NoJob? && p in s.disk
    case Drop => s.job.Removal?
    case Resolve(req, ast, paths, blooms) => Kept(paths, req, ast, s.indexed, blooms) && FilteredSound(s, ast, blooms)
    case Read => s.query.Reading? && s.query.todo != []
    case _ => s.job.Merge? && JobStep(s.job, ev)
  }

  /** Which step of the merge comes next. */
  predicate JobStep(j: Job, ev: Event)
    requires j.Merge?
  {
    match ev
    case Unindex => j.phase.Removing? && j.phase.k < |j.run|
    case Rename => j.phase.Removing? && j.phase.k == |j.run| > 0
    case RenameFails => j.phase.Removing? && j.phase.k == |j.run|
    case Reindex => j.phase.Restoring? && j.phase.i < |j.run|
    case AddNext => j.phase.Adding? && j.phase.k < |j.all| && j.run != []
    case UpdatePaths => j.phase.Adding? && j.phase.k == |j.all|
    case Delete => j.phase.Deleting? && j.phase.k < |j.run|
    case Finish => (j.phase.Deleting? && j.phase.k == |j.run|) || (j.phase.Restoring? && j.phase.i == |j.run|)
    case _ => false
  }

  ghost function Next(s: State, ev: Event): State
    requires Enabled(s, ev)
  {
    match ev
    case Append(p, e) => s.(disk := Extended(s.disk, p, e), indexed := Extended(s.indexed, p, e))
    case Begin(run) =>
      var all := Log(run, s.disk);
      s.(job := Merge(run, all, Removing(0)), query := Touch(s.query, ToSet(all)))
    case Expire(p) =>
      s.(indexed := s.indexed - {p}, job := Removal(p, At(s.disk, p)), query := Lose(s.query, ToSet(At(s.disk, p))))
    case Drop => s.(disk := s.disk - {s.job.path}, job := NoJob)
    case Resolve(req, ast, paths, _) =>
      s.(query := Reading(req, ast, paths, [], EntriesOf(s.disk),
        if s.job.Merge? then ToSet(s.job.all) else {}, if s.job.Removal? then ToSet(s.job.lost) else {}))
    case Read =>
      s.(query := s.query.(todo := s.query.todo[1..], got := s.query.got + At(s.disk, s.query.todo[0])))
    case _ => NextOfJob(s, ev)
  }

  ghost function NextOfJob(s: State, ev: Event): State
    requires s.job.Merge? && JobStep(s.job, ev)
  {
    var j := s.job;
    match ev
    case Unindex => s.(indexed := s.indexed - {j.run[j.phase.k]}, job := j.(phase := Removing(j.phase.k + 1)))
    case Rename => s.(disk := s.disk[j.run[0] := j.all], job := j.(phase := Adding(0)))
    case RenameFails => s.(job := j.(phase := Restoring(0, 0)))
    case Reindex =>
      var p := j.run[j.phase.i];
      if j.phase.m < |At(s.disk, p)|
      then s.(indexed := Extended(s.indexed, p, At(s.disk, p)[j.phase.m]), job := j.(phase := Restoring(j.phase.i, j.phase.m + 1)))
      else s.(job := j.(phase := Restoring(j.phase.i + 1, 0)))
    case AddNext => s.(indexed := Extended(s.indexed, j.run[0], j.all[j.phase.k]), job := j.(phase := Adding(j.phase.k + 1)))
    case UpdatePaths => s.(job := j.(phase := Deleting(1)))
    case Delete => s.(disk := s.disk - {j.run[j.phase.k]}, job := j.(phase := Deleting(j.phase.k + 1)))
    case Finish => s.(job := NoJob)
  }

  ghost function Apply(s: State, ev: Event): State {
    if Enabled(s, ev) then Next(s, ev) else s
  }

  ghost function Run(s: State, evs: seq<Event>): State {
    if evs == [] then s else Apply(Run(s, evs[..|evs| - 1]), evs[|evs| - 1])
  }

  // --------------------------------------------------------------- invariant

  ghost predicate PhaseHolds(s: State)
    requires s.job.Merge? && |s.job.run| >= 2
  {
    var run, all, disk, indexed := s.job.run, s.job.all, s.disk, s.indexed;
    match s.job.phase
    case Removing(k) =>
      && k <= |run| && Log(run, disk) == all
      && forall i :: 0 <= i < |run| ==> At(indexed, run[i]) == if i < k then [] else At(disk, run[i])
    case Restoring(i, m) =>
      && i <= |run| && Log(run, disk) == all && (i < |run| ==> m <= |At(disk, run[i])|)
      && (forall j :: 0 <= j < i ==> At(indexed, run[j]) == At(disk, run[j]))
      && (i < |run| ==> At(indexed, run[i]) == At(disk, run[i])[..m])
      && (forall j :: i < j < |run| ==> At(indexed, run[j]) == [])
    case Adding(k) =>
      && k <= |all| && At(disk, run[0]) == all && At(indexed, run[0]) == all[..k]
      && (forall i :: 1 <= i < |run| ==> At(indexed, run[i]) == [])
    case Deleting(k) =>
      && 1 <= k <= |run| && At(disk, run[0]) == all && At(indexed, run[0]) == all
      && (forall i :: 1 <= i < |run| ==> At(indexed, run[i]) == [])
      && (forall i :: 1 <= i < k ==> At(disk, run[i]) == [])
  }

  /** Outside the run being merged, the index describes the disk; the run's files hold only what was read. */
  ghost predicate Agreed(s: State) {
    match s.job
    case NoJob => forall p :: At(s.indexed, p) == At(s.disk, p)
    case Merge(run, all, _) =>
      && |run| >= 2 && Distinct(run) && PhaseHolds(s)
      && (forall p :: p !in run ==> At(s.indexed, p) == At(s.disk, p))
      && (forall p, e :: p in run && e in At(s.disk, p) ==> e in all)
    case Removal(path, lost) =>
      At(s.indexed, path) == [] && At(s.disk, path) == lost && forall p :: p != path ==> At(s.indexed, p) == At(s.disk, p)
  }

  /** A change of disk and index outside the run does not disturb the merge. */
  lemma PhaseElsewhere(s: State, t: State)
    requires s.job.Merge? && |s.job.run| >= 2 && PhaseHolds(s) && t.job == s.job
    requires forall i :: 0 <= i < |s.job.run| ==>
      At(t.disk, s.job.run[i]) == At(s.disk, s.job.run[i]) && At(t.indexed, s.job.run[i]) == At(s.indexed, s.job.run[i])
    ensures PhaseHolds(t)
  {
    LogSame(s.job.run, s.disk, t.disk);
  }

  lemma AppendAgreed(s: State, p: Path, e: Entry)
    requires Agreed(s) && Enabled(s, Append(p, e))
    ensures Agreed(Next(s, Append(p, e)))
  {
    ExtendedAt(s.disk, p, e);
    ExtendedAt(s.indexed, p, e);
    if s.job.Merge? {
      PhaseElsewhere(s, Next(s, Append(p, e)));
    }
  }

  lemma ExtendedAt(c: Contents, p: Path, e: Entry)
    ensures At(Extended(c, p, e), p) == At(c, p) + [e]
    ensures forall q :: q != p ==> At(Extended(c, p, e), q) == At(c, q)
  {
  }

  lemma BeginAgreed(s: State, run: seq<Path>)
    requires Agreed(s) && Enabled(s, Begin(run))
    ensures Agreed(Next(s, Begin(run)))
  {
    LogMembers(run, s.disk);
  }

  lemma UnindexAgreed(s: State)
    requires Agreed(s) && s.job.Merge? && JobStep(s.job, Unindex)
    ensures Agreed(NextOfJob(s, Unindex))
  {
  }

  lemma RenameAgreed(s: State)
    requires Agreed(s) && s.job.Merge? && JobStep(s.job, Rename)
    ensures Agreed(NextOfJob(s, Rename))
  {
    assert s.job.all[..0] == [];
  }

  lemma AddAgreed(s: State)
    requires Agreed(s) && s.job.Merge? && JobStep(s.job, AddNext)
    ensures Agreed(NextOfJob(s, AddNext))
  {
    assert s.job.all[..s.job.phase.k + 1] == s.job.all[..s.job.phase.k] + [s.job.all[s.job.phase.k]];
  }

  lemma DeleteAgreed(s: State)
    requires Agreed(s) && s.job.Merge? && JobStep(s.job, Delete)
    ensures Agreed(NextOfJob(s, Delete))
  {
  }

  lemma FinishAgreed(s: State)
    requires Agreed(s) && s.job.Merge? && JobStep(s.job, Finish)
    ensures Agreed(NextOfJob(s, Finish))
  {
    forall p | p in s.job.run ensures At(s.indexed, p) == At(s.disk, p) {
      var i :| 0 <= i < |s.job.run| && s.job.run[i] == p;
    }
  }

  lemma JobAgreed(s: State, ev: Event)
    requires Agreed(s) && s.job.Merge? && JobStep(s.job, ev)
    ensures Agreed(NextOfJob(s, ev))
  {
    match ev
    case Unindex => UnindexAgreed(s);
    case Rename => RenameAgreed(s);
    case RenameFails => assert At(s.disk, s.job.run[0])[..0] == [];
    case Reindex => RestoreStep(s);
    case AddNext => AddAgreed(s);
    case UpdatePaths => assert s.job.all[..|s.job.all|] == s.job.all;
    case Delete => DeleteAgreed(s);
    case Finish => FinishAgreed(s);
  }

  lemma RestoreStep(s: State)
    requires Agreed(s) && s.job.Merge? && JobStep(s.job, Reindex)
    ensures Agreed(NextOfJob(s, Reindex))
  {
    var i, m := s.job.phase.i, s.job.phase.m;
    var here := At(s.disk, s.job.run[i]);
    if m < |here| {
      TakeNext(here, m);
    } else {
      assert here[..m] == here;
      if i + 1 < |s.job.run| {
        assert At(s.disk, s.job.run[i + 1])[..0] == [];
      }
    }
  }

  lemma ExpireAgreed(s: State, p: Path)
    requires Agreed(s) && Enabled(s, Expire(p))
    ensures Agreed(Next(s, Expire(p)))
  {
  }

  lemma DropAgreed(s: State)
    requires Agreed(s) && s.job.Removal?
    ensures Agreed(Next(s, Drop))
  {
  }

  lemma QueryAgreed(s: State, t: State)
    requires Agreed(s) && t == s.(query := t.query)
    ensures Agreed(t)
  {
  }

  lemma StepAgreed(s: State, ev: Event)
    requires Agreed(s)
    ensures Agreed(Apply(s, ev))
  {
    if Enabled(s, ev) {
      match ev
      case Append(p, e) => AppendAgreed(s, p, e);
      case Begin(run) => BeginAgreed(s, run);
      case Expire(p) => ExpireAgreed(s, p);
      case Drop => DropAgreed(s);
      case Resolve(_, _, _, _) => QueryAgreed(s, Next(s, ev));
      case Read => QueryAgreed(s, Next(s, ev));
      case _ => JobAgreed(s, ev);
    }
  }

  /** What the run appends to a segment. */
  ghost function AppendsTo(s: State, evs: seq<Event>, p: Path): seq<Entry> {
    if evs == [] then []
    else
      var n := |evs| - 1;
      var ev := evs[n];
      AppendsTo(s, evs[..n], p) + if ev.Append? && ev.path == p && Enabled(Run(s, evs[..n]), ev) then [ev.e] else []
  }

  lemma AppendsToNext(s: State, evs: seq<Event>, p: Path)
    requires evs != []
    ensures var n := |evs| - 1; var ev := evs[n];
      && (ev.Append? && ev.path == p && Enabled(Run(s, evs[..n]), ev) ==> AppendsTo(s, evs, p) == AppendsTo(s, evs[..n], p) + [ev.e])
      && (!(ev.Append? && ev.path == p && Enabled(Run(s, evs[..n]), ev)) ==> AppendsTo(s, evs, p) == AppendsTo(s, evs[..n], p))
  {
    AppendNone(AppendsTo(s, evs[..|evs| - 1], p));
  }

  /** While a merge is under way only appends change files outside its run, and the run stays what it was. */
  lemma OutsideRun(s: State, ev: Event, p: Path)
    requires s.job.Merge? && |s.job.run| >= 2 && ev != Finish && p !in s.job.run
    ensures var t := Apply(s, ev);
      && t.job.Merge? && t.job.run == s.job.run && t.job.all == s.job.all
      && At(t.disk, p) == if ev.Append? && ev.path == p && Enabled(s, ev) then At(s.disk, p) + [ev.e] else At(s.disk, p)
  {
  }

  /** From the start of a merge to its end, whatever is interleaved: files outside the run hold what they held and
      the appends since. */
  lemma {:induction false} DuringMerge(s: State, evs: seq<Event>, p: Path)
    requires s.job.Merge? && |s.job.run| >= 2 && Finish !in evs && p !in s.job.run
    ensures var t := Run(s, evs);
      && t.job.Merge? && t.job.run == s.job.run && t.job.all == s.job.all
      && At(t.disk, p) == At(s.disk, p) + AppendsTo(s, evs, p)
  {
    if evs == [] {
      AppendNone(At(s.disk, p));
    } else {
      var n := |evs| - 1;
      SplitLast(evs);
      DuringMerge(s, evs[..n], p);
      OutsideRun(Run(s, evs[..n]), evs[n], p);
      AppendsToNext(s, evs, p);
      Associate(At(s.disk, p), AppendsTo(s, evs[..n], p), if evs[n].Append? then [evs[n].e] else []);
    }
  }

  lemma AllDeleted(s: State, d: Contents)
    requires Agreed(s) && s.job.Merge? && s.job.phase == Deleting(|s.job.run|) && Log(s.job.run, d) == s.job.all
    ensures forall p :: p in s.job.run ==> At(s.disk, p) == At(MergedFiles(d, s.job.run, |s.job.run|), p)
  {
    var run := s.job.run;
    forall i | 0 <= i < |run| ensures At(s.disk, run[i]) == At(MergedFiles(d, run, |run|), run[i]) {
      assert run[1..|run|] == run[1..];
      if i > 0 {
        assert run[1..][i - 1] == run[i];
      }
    }
  }

  /** Interleaved with anything, a merge that begins on the disk of `s` and deletes its last file leaves the run's
      files as the compactor's merge does, and every other file as it was plus the appends since. */
  lemma MergesAsCompactor(s: State, run: seq<Path>, evs: seq<Event>)
    requires Agreed(s) && Enabled(s, Begin(run)) && Finish !in evs
    requires var t := Run(Apply(s, Begin(run)), evs); t.job.Merge? && t.job.phase == Deleting(|run|)
    ensures var b := Apply(s, Begin(run));
      forall p :: At(Run(b, evs).disk, p) ==
        if p in run then At(MergedFiles(s.disk, run, |run|), p) else At(s.disk, p) + AppendsTo(b, evs, p)
  {
    var b := Apply(s, Begin(run));
    StepAgreed(s, Begin(run));
    RunAgreed(b, evs);
    var q := Outside(run);
    DuringMerge(b, evs, q);
    AllDeleted(Run(b, evs), s.disk);
    forall p | p !in run ensures At(Run(b, evs).disk, p) == At(s.disk, p) + AppendsTo(b, evs, p) {
      DuringMerge(b, evs, p);
    }
  }

  lemma Outside(run: seq<Path>) returns (p: Path)
    ensures p !in run
  {
    p := NextSeq(run);
  }

  lemma {:induction false} RunAgreed(s: State, evs: seq<Event>)
    requires Agreed(s)
    ensures Agreed(Run(s, evs))
  {
    if evs != [] {
      var n := |evs| - 1;
      RunAgreed(s, evs[..n]);
      StepAgreed(Run(s, evs[..n]), evs[n]);
    }
  }

  // ------------------------------------------------------------ conservation

  ghost predicate Held(d: Contents, e: Entry) {
    exists p :: e in At(d, p)
  }

  lemma HeldIsEntriesOf(d: Contents)
    ensures forall e :: Held(d, e) <==> e in EntriesOf(d)
  {
    forall e | Held(d, e) ensures e in EntriesOf(d) {
      var p :| e in At(d, p);
      assert p in d && e in d[p];
    }
    forall e | e in EntriesOf(d) ensures Held(d, e) {
      var p :| p in d && e in d[p];
      assert e in At(d, p);
    }
  }

  lemma RenameConserves(s: State, e: Entry)
    requires Agreed(s) && s.job.Merge? && JobStep(s.job, Rename)
    ensures Held(NextOfJob(s, Rename).disk, e) <==> Held(s.disk, e)
  {
    var t, run := NextOfJob(s, Rename), s.job.run;
    LogMembers(run, s.disk);
    if Held(s.disk, e) {
      var p :| e in At(s.disk, p);
      assert e in At(t.disk, if p in run then run[0] else p);
    }
    if Held(t.disk, e) {
      var p :| e in At(t.disk, p);
      if p == run[0] {
        var q :| q in run && e in At(s.disk, q);
      } else {
        assert e in At(s.disk, p);
      }
    }
  }

  lemma DeleteConserves(s: State, e: Entry)
    requires Agreed(s) && s.job.Merge? && JobStep(s.job, Delete)
    ensures Held(NextOfJob(s, Delete).disk, e) <==> Held(s.disk, e)
  {
    var t, run, gone := NextOfJob(s, Delete), s.job.run, s.job.run[s.job.phase.k];
    assert gone != run[0] && gone in run;
    if Held(s.disk, e) {
      var p :| e in At(s.disk, p);
      assert e in At(t.disk, if p == gone then run[0] else p);
    }
    if Held(t.disk, e) {
      var p :| e in At(t.disk, p);
      assert e in At(s.disk, p);
    }
  }

  lemma AppendConserves(s: State, path: Path, x: Entry, e: Entry)
    ensures Held(Extended(s.disk, path, x), e) <==> Held(s.disk, e) || e == x
  {
    var d := Extended(s.disk, path, x);
    assert x in At(d, path);
    if Held(s.disk, e) {
      var p :| e in At(s.disk, p);
      assert e in At(d, p);
    }
    if Held(d, e) {
      var p :| e in At(d, p);
      assert e in At(s.disk, p) || e == x;
    }
  }

  lemma DropConserves(s: State, e: Entry)
    requires Agreed(s) && s.job.Removal?
    ensures Held(Next(s, Drop).disk, e) ==> Held(s.disk, e)
    ensures Held(s.disk, e) ==> Held(Next(s, Drop).disk, e) || e in s.job.lost
  {
    var t := Next(s, Drop);
    if Held(s.disk, e) {
      var p :| e in At(s.disk, p);
      if p != s.job.path {
        assert e in At(t.disk, p);
      }
    }
    if Held(t.disk, e) {
      var p :| e in At(t.disk, p);
      assert e in At(s.disk, p);
    }
  }

  /** No step but an append brings an entry to the disk, and none but the drop of an expired segment takes one away. */
  lemma StepConserves(s: State, ev: Event, e: Entry)
    requires Agreed(s)
    ensures Held(Apply(s, ev).disk, e) ==> Held(s.disk, e) || (ev.Append? && Enabled(s, ev) && ev.e == e)
    ensures ev.Append? && Enabled(s, ev) && ev.e == e ==> Held(Apply(s, ev).disk, e)
    ensures Held(s.disk, e) ==> Held(Apply(s, ev).disk, e) || (ev.Drop? && Enabled(s, ev) && e in s.job.lost)
  {
    if Enabled(s, ev) {
      match ev
      case Append(p, x) => AppendConserves(s, p, x, e);
      case Rename => RenameConserves(s, e);
      case Delete => DeleteConserves(s, e);
      case Drop => DropConserves(s, e);
      case _ =>
    }
  }

  // ----------------------------------------------------------------- queries

  /** The entry is in a segment the query has yet to read. */
  ghost predicate Pending(todo: seq<Path>, disk: Contents, e: Entry) {
    exists p :: p in todo && e in At(disk, p)
  }

  /** An entry the answer must account for: on disk at Resolve, accepted, and in no run merged and no segment
      expired since. */
  ghost predicate Due(q: Query, e: Entry)
    requires q.Reading?
  {
    e in q.since && e !in q.touched && e !in q.expired && Accepts(q.req, q.ast, e)
  }

  ghost predicate QueryHolds(s: State) {
    s.query.Reading? ==>
      && (s.job.Merge? ==> ToSet(s.job.all) <= s.query.touched)
      && (s.job.Removal? ==> ToSet(s.job.lost) <= s.query.expired)
      && (forall e :: e in s.query.got || e in s.query.since ==> Held(s.disk, e) || e in s.query.expired)
      && (forall e :: Due(s.query, e) ==> e in s.query.got || Pending(s.query.todo, s.disk, e))
  }

  /** A sound filter lets a query through that an entry of the segment matches. */
  lemma NotSkipped(s: State, req: Request, ast: Option<Node>, blooms: map<Path, Bloom>, p: Path, e: Entry)
    requires FilteredSound(s, ast, blooms) && Idle(s, p) && e in At(s.disk, p) && Accepts(req, ast, e)
    ensures !Skipped(p, ast, blooms)
  {
    if p in blooms && ast.Some? {
      assert forall t :: t in TokenizeEntry(e) ==> t in BloomTokens(At(s.disk, p));
      BloomMissExactly(blooms[p], e, ast.value);
    }
  }

  lemma ResolveHolds(s: State, ev: Event)
    requires Agreed(s) && ev.Resolve? && Enabled(s, ev)
    ensures QueryHolds(Next(s, ev))
  {
    var t := Next(s, ev);
    HeldIsEntriesOf(s.disk);
    forall e | Due(t.query, e) ensures Pending(ev.paths, t.disk, e) {
      var p :| e in At(s.disk, p);
      assert Idle(s, p) && At(s.indexed, p) == At(s.disk, p);
      AcceptedIsCandidate(ev.req, ev.ast, At(s.indexed, p), e);
      NotSkipped(s, ev.req, ev.ast, ev.blooms, p, e);
      assert p in ev.paths;
    }
  }

  lemma ReadHolds(s: State)
    requires Agreed(s) && QueryHolds(s) && Enabled(s, Read)
    ensures QueryHolds(Next(s, Read))
  {
    var q, t := s.query, Next(s, Read);
    assert q.todo == [q.todo[0]] + q.todo[1..];
    forall e | Due(t.query, e) ensures e in t.query.got || Pending(t.query.todo, t.disk, e) {
      assert Due(q, e);
      if e !in q.got {
        var p :| p in q.todo && e in At(s.disk, p);
        if p != q.todo[0] {
          assert p in q.todo[1..];
        }
      }
    }
  }

  /** A step that keeps every entry outside the compactor's hands where it is. */
  lemma OthersHold(s: State, t: State, e: Entry)
    requires Agreed(s) && QueryHolds(s) && s.query.Reading? && Due(s.query, e)
    requires forall p :: Idle(s, p) ==> At(s.disk, p) <= At(t.disk, p)
    ensures e in s.query.got || Pending(s.query.todo, t.disk, e)
  {
    if e !in s.query.got {
      var p :| p in s.query.todo && e in At(s.disk, p);
      assert Idle(s, p);
      assert At(s.disk, p) <= At(t.disk, p);
      assert e in At(t.disk, p);
    }
  }

  lemma OtherStepHolds(s: State, ev: Event)
    requires Agreed(s) && QueryHolds(s) && Enabled(s, ev) && !ev.Resolve? && !ev.Read?
    ensures QueryHolds(Next(s, ev))
  {
    var t := Next(s, ev);
    if s.query.Reading? {
      forall e | e in t.query.got || e in t.query.since ensures Held(t.disk, e) || e in t.query.expired {
        StepConserves(s, ev, e);
      }
      forall e | Due(t.query, e) ensures e in t.query.got || Pending(t.query.todo, t.disk, e) {
        assert Due(s.query, e);
        OthersHold(s, t, e);
      }
    }
  }

  lemma StepHolds(s: State, ev: Event)
    requires Agreed(s) && QueryHolds(s)
    ensures QueryHolds(Apply(s, ev))
  {
    if Enabled(s, ev) {
      match ev
      case Resolve(_, _, _, _) => ResolveHolds(s, ev);
      case Read => ReadHolds(s);
      case _ => OtherStepHolds(s, ev);
    }
  }

  /** Whatever the interleaving: the index stays right outside the compactor's hands, and a query accounts for
      every entry due. */
  lemma {:induction false} RunHolds(s: State, evs: seq<Event>)
    requires Agreed(s) && QueryHolds(s)
    ensures Agreed(Run(s, evs)) && QueryHolds(Run(s, evs))
  {
    if evs != [] {
      var n := |evs| - 1;
      RunHolds(s, evs[..n]);
      StepAgreed(Run(s, evs[..n]), evs[n]);
      StepHolds(Run(s, evs[..n]), evs[n]);
    }
  }

  /** The answer of a query that has read everything, before paging: it repeats no ID; it holds only matching
      entries that are on disk or expired since Resolve; and it misses a matching entry that was on disk at Resolve
      only if the entry is in a run that was being merged, or in a segment that expired, at some time since. */
  lemma OverlappingAnswer(s: State, evs: seq<Event>)
    requires Agreed(s) && s.query.NoQuery?
    requires var q := Run(s, evs).query; q.Reading? && q.todo == [] && IdsIdentify(EntriesOf(Run(s, evs).disk) + q.expired)
    ensures var t := Run(s, evs);
      var q, ast := t.query, t.query.ast;
      && DistinctIds(Filtered(q.req, ast, Dedup(q.got)))
      && Survivors(q.req, ast, q.got) <= Matching(q.req, ast, EntriesOf(t.disk) + q.expired)
      && Matching(q.req, ast, q.since) - Survivors(q.req, ast, q.got) <= q.touched + q.expired
      && (q.touched + q.expired == {} ==> Matching(q.req, ast, q.since) <= Survivors(q.req, ast, q.got))
  {
    RunHolds(s, evs);
    var t := Run(s, evs);
    var q, ast := t.query, t.query.ast;
    HeldIsEntriesOf(t.disk);
    assert ToSet(q.got) <= EntriesOf(t.disk) + q.expired;
    SurvivorsMatch(q.req, ast, q.got);
    DedupKeeps(q.got);
    FilteredKeeps(q.req, ast, Dedup(q.got));
    forall e | e in Matching(q.req, ast, q.since) && e !in q.touched && e !in q.expired ensures e in q.got {
      assert Due(q, e);
    }
  }

  // ------------------------------------------------- what overlapping can do

  lemma Then(s: State, evs: seq<Event>, ev: Event, t: State)
    requires Enabled(Run(s, evs), ev) && Next(Run(s, evs), ev) == t
    ensures Run(s, evs + [ev]) == t
  {
    assert (evs + [ev])[..|evs|] == evs;
  }

  /** Two segments with one entry each, indexed. */
  ghost function TwoSegments(p: Path, q: Path, a: Entry, b: Entry): State {
    State(map[p := [a], q := [b]], map[p := [a], q := [b]], NoJob, NoQuery)
  }

  lemma TwoLog(p: Path, q: Path, a: Entry, b: Entry)
    requires p < q
    ensures Log([p, q], map[p := [a], q := [b]]) == [a, b]
  {
    var f := map[p := [a], q := [b]];
    assert [p, q][..1] == [p] && [p][..0] == [];
    assert Log([p], f) == [] + [a] == [a];
    assert [a] + [b] == [a, b];
  }

  lemma BothHeld(p: Path, q: Path, a: Entry, b: Entry)
    requires p < q
    ensures EntriesOf(map[p := [a], q := [b]]) == {a, b}
  {
    var d := map[p := [a], q := [b]];
    assert a in d[p] && b in d[q];
  }

  lemma BothKept(p: Path, q: Path, a: Entry, b: Entry)
    requires p < q
    ensures Kept([p, q], ANYTHING, None, map[p := [a], q := [b]], map[])
  {
  }

  /** The query has resolved both paths, and a merge of both has begun. */
  lemma Resolved(p: Path, q: Path, a: Entry, b: Entry) returns (evs: seq<Event>)
    requires p < q
    ensures var s := TwoSegments(p, q, a, b);
      Run(s, evs) == State(s.disk, s.indexed, Merge([p, q], [a, b], Removing(0)), Reading(ANYTHING, None, [p, q], [], {a, b}, {a, b}, {}))
  {
    var s := TwoSegments(p, q, a, b);
    var s1 := s.(query := Reading(ANYTHING, None, [p, q], [], {a, b}, {}, {}));
    JustResolved(p, q, a, b);
    TwoLog(p, q, a, b);
    assert ToSet([a, b]) == {a, b} && {} + {a, b} == {a, b};
    evs := [Resolve(ANYTHING, None, [p, q], map[])];
    var s2 := s1.(job := Merge([p, q], [a, b], Removing(0)), query := s1.query.(touched := {a, b}));
    Then(s, evs, Begin([p, q]), s2);
    evs := evs + [Begin([p, q])];
  }

  lemma JustResolved(p: Path, q: Path, a: Entry, b: Entry)
    requires p < q
    ensures var s := TwoSegments(p, q, a, b);
      Run(s, [Resolve(ANYTHING, None, [p, q], map[])]) == s.(query := Reading(ANYTHING, None, [p, q], [], {a, b}, {}, {}))
  {
    var s, ev := TwoSegments(p, q, a, b), Resolve(ANYTHING, None, [p, q], map[]);
    assert Run(s, []) == s;
    BothHeld(p, q, a, b);
    BothKept(p, q, a, b);
    Then(s, [], ev, s.(query := Reading(ANYTHING, None, [p, q], [], {a, b}, {}, {})));
    assert [] + [ev] == [ev];
  }

  /** From there, unindex both paths and rename; the query's reading does not matter. */
  lemma Renamed(s: State, p: Path, q: Path, a: Entry, b: Entry, evs: seq<Event>, reading: Query) returns (evs': seq<Event>)
    requires p < q && Run(s, evs) == State(map[p := [a], q := [b]], map[p := [a], q := [b]], Merge([p, q], [a, b], Removing(0)), reading)
    ensures Run(s, evs') == State(map[p := [a, b], q := [b]], map[], Merge([p, q], [a, b], Adding(0)), reading)
  {
    var mid := Unindexed(s, p, q, a, b, evs, reading);
    var s2 := Run(s, mid);
    var s3 := s2.(disk := map[p := [a, b], q := [b]], job := s2.job.(phase := Adding(0)));
    assert s2.disk[p := [a, b]] == s3.disk;
    Then(s, mid, Rename, s3);
    evs' := mid + [Rename];
  }

  lemma Unindexed(s: State, p: Path, q: Path, a: Entry, b: Entry, evs: seq<Event>, reading: Query) returns (evs': seq<Event>)
    requires p < q && Run(s, evs) == State(map[p := [a], q := [b]], map[p := [a], q := [b]], Merge([p, q], [a, b], Removing(0)), reading)
    ensures Run(s, evs') == State(map[p := [a], q := [b]], map[], Merge([p, q], [a, b], Removing(2)), reading)
  {
    var s0 := Run(s, evs);
    var s1 := s0.(indexed := map[q := [b]], job := s0.job.(phase := Removing(1)));
    assert s0.indexed - {p} == map[q := [b]];
    Then(s, evs, Unindex, s1);
    var s2 := s1.(indexed := map[], job := s0.job.(phase := Removing(2)));
    assert s1.indexed - {q} == map[];
    Then(s, evs + [Unindex], Unindex, s2);
    evs' := evs + [Unindex] + [Unindex];
  }

  lemma DeleteSecond(s: State, p: Path, q: Path, a: Entry, b: Entry)
    requires p < q && s.disk == map[p := [a, b], q := [b]] && s.job == Merge([p, q], [a, b], Deleting(1))
    ensures Enabled(s, Delete) && NextOfJob(s, Delete).disk == map[p := [a, b]]
  {
  }

  /** Then index the merged entries and delete the second file. */
  lemma Deleted(s: State, p: Path, q: Path, a: Entry, b: Entry, evs: seq<Event>, reading: Query) returns (evs': seq<Event>)
    requires p < q && Run(s, evs) == State(map[p := [a, b], q := [b]], map[], Merge([p, q], [a, b], Adding(0)), reading)
    ensures Run(s, evs').disk == map[p := [a, b]] && Run(s, evs').query == reading
  {
    var mid := Reindexed(s, p, q, a, b, evs, reading);
    var s2 := Run(s, mid);
    var s3 := s2.(job := s2.job.(phase := Deleting(1)));
    Then(s, mid, UpdatePaths, s3);
    DeleteSecond(s3, p, q, a, b);
    Then(s, mid + [UpdatePaths], Delete, NextOfJob(s3, Delete));
    evs' := mid + [UpdatePaths] + [Delete];
  }

  lemma Reindexed(s: State, p: Path, q: Path, a: Entry, b: Entry, evs: seq<Event>, reading: Query) returns (evs': seq<Event>)
    requires p < q && Run(s, evs) == State(map[p := [a, b], q := [b]], map[], Merge([p, q], [a, b], Adding(0)), reading)
    ensures Run(s, evs') == State(map[p := [a, b], q := [b]], map[p := [a, b]], Merge([p, q], [a, b], Adding(2)), reading)
  {
    var s0 := Run(s, evs);
    var s1 := s0.(indexed := map[p := [a]], job := s0.job.(phase := Adding(1)));
    assert [] + [a] == [a];
    Then(s, evs, AddNext, s1);
    var s2 := s1.(indexed := map[p := [a, b]], job := s0.job.(phase := Adding(2)));
    assert [a] + [b] == [a, b];
    Then(s, evs + [AddNext], AddNext, s2);
    evs' := evs + [AddNext] + [AddNext];
  }

  /** Unindexing before the rename does not by itself keep repeats out of a read: a query that resolved earlier
      reads the merged file and the old one. Deduplication is what removes the repeat. */
  lemma RepeatsReachTheRead(p: Path, q: Path, a: Entry, b: Entry)
    requires p < q
    ensures exists evs :: var t := Run(TwoSegments(p, q, a, b), evs); t.query.Reading? && t.query.todo == [] && t.query.got == [a, b, b]
  {
    var s := TwoSegments(p, q, a, b);
    var evs := Resolved(p, q, a, b);
    evs := Renamed(s, p, q, a, b, evs, Run(s, evs).query);
    var s0 := Run(s, evs);
    var s1 := s0.(query := s0.query.(todo := [q], got := [a, b]));
    assert [p, q][1..] == [q] && [] + [a, b] == [a, b];
    Then(s, evs, Read, s1);
    var s2 := s1.(query := s1.query.(todo := [], got := [a, b, b]));
    assert [q][1..] == [] && [a, b] + [b] == [a, b, b];
    Then(s, evs + [Read], Read, s2);
  }

  /** And a query can miss an entry of the run: read the first file before the rename, the second after its
      deletion. */
  lemma MergeCanHide(p: Path, q: Path, a: Entry, b: Entry)
    requires p < q
    ensures exists evs :: var t := Run(TwoSegments(p, q, a, b), evs); t.query.Reading? && t.query.todo == [] && t.query.got == [a]
  {
    var s := TwoSegments(p, q, a, b);
    var evs := Resolved(p, q, a, b);
    var s0 := Run(s, evs);
    var s1 := s0.(query := s0.query.(todo := [q], got := [a]));
    assert [p, q][1..] == [q] && [] + [a] == [a];
    Then(s, evs, Read, s1);
    evs := Renamed(s, p, q, a, b, evs + [Read], s1.query);
    evs := Deleted(s, p, q, a, b, evs, s1.query);
    var s3 := Run(s, evs);
    var s4 := s3.(query := s3.query.(todo := []));
    assert [q][1..] == [] && [a] + [] == [a];
    Then(s, evs, Read, s4);
  }
}
