/** The life of a storage node: any sequence of writes, merge passes and retention passes, each of which may be cut
short by a crash between any two of its changes of the directory, followed by a restart with filters on or off.

`Life` is what the events make of an empty data directory; `Live` is the node that they happen to.
*/
module Lifetimes {
  import opened Ordering
  import opened Entries
  import opened Executor
  import opened Index
  import opened Store
  import opened Merging
  import opened Filters
  import opened Compaction
  import opened Passes
  import opened Nodes
  import Runs

  datatype Op =
    | Write(e: Entry)
    | MergePass(threshold: int, fault: seq<Path> -> MergeFault)
    | RetentionPass(days: int, cutoff: int)

  /** The node dies after `at` changes of the directory, or right after the operation if it makes fewer, and is restarted
      with filters on or off. */
  datatype Crash = Crash(at: nat, bloom: bool)

  datatype Event = Event(op: Op, crash: Option<Crash>)

  datatype Config = Config(size: Entry -> nat, limit: int)

  /** Whether filters are on after the event. */
  function NextFlag(flag: bool, ev: Event): bool {
    if ev.crash.Some? then ev.crash.value.bloom else flag
  }

  function Flag(evs: seq<Event>, flag: bool): bool {
    if evs == [] then flag else NextFlag(Flag(evs[..|evs| - 1], flag), evs[|evs| - 1])
  }

  /** The largest retention cutoff so far. */
  function Cutoff(evs: seq<Event>): Option<int> {
    if evs == [] then None else NextCutoff(Cutoff(evs[..|evs| - 1]), evs[|evs| - 1].op)
  }

  function NextCutoff(cutoff: Option<int>, op: Op): Option<int> {
    if op.RetentionPass? && op.days > 0 then Later(cutoff, op.cutoff) else cutoff
  }

  /** Every entry that was ever handed to the node. */
  ghost function Offered(evs: seq<Event>): set<Entry> {
    set i | 0 <= i < |evs| && evs[i].op.Write? :: evs[i].op.e
  }

  /** The entries whose write came back without a crash. */
  ghost function Acknowledged(evs: seq<Event>): set<Entry> {
    set i | 0 <= i < |evs| && evs[i].op.Write? && evs[i].crash.None? :: evs[i].op.e
  }

  /** What one event may do to the entries on disk. */
  ghost predicate Moves(before: seq<Entry>, after: seq<Entry>, ev: Event) {
    && (forall e :: e in after ==> e in before || ev.op == Write(e))
    && (forall e :: e in before && e !in after ==> ev.op.RetentionPass? && ev.op.days > 0 && e.timestamp < ev.op.cutoff)
    && (ev.op.Write? && ev.crash.None? ==> ev.op.e in after)
  }

  // ----------------------------------------------------------------- operations

  /** The changes that an operation makes to the directory, in order. */
  ghost function ChangesOf(s: Store, op: Op, c: Config, bloom: bool): seq<Change>
    requires s.paths != []
  {
    match op
    case Write(e) => AppendChanges(s, e, c.size, c.limit, bloom)
    case MergePass(threshold, fault) => PassChanges(s, SmallIn(s.dir.files, c.size, threshold), fault, bloom)
    case RetentionPass(days, cutoff) => RetentionChanges(s, days, cutoff)
  }

  /** The store that a complete operation leaves. */
  ghost function StoreAfter(s: Store, op: Op, c: Config, bloom: bool): Store
    requires s.paths != []
  {
    match op
    case Write(e) => AppendTo(s, e, c.size, c.limit, bloom)
    case MergePass(threshold, fault) => PassStore(s, SmallIn(s.dir.files, c.size, threshold), fault, bloom)
    case RetentionPass(days, cutoff) => RetentionStore(s, days, cutoff)
  }

  /** The directory after the first `at` of the changes. */
  function CutShort(d: Dir, cs: seq<Change>, at: nat): Dir {
    Ran(d, if at <= |cs| then cs[..at] else cs)
  }

  /** The store after an event: of the complete operation, or of a restart on what the operation had done by then. */
  ghost function Next(s: Store, ev: Event, c: Config, bloom: bool): Store
    requires s.paths != []
  {
    match ev.crash
    case None => StoreAfter(s, ev.op, c, bloom)
    case Some(crash) => Recover(CutShort(s.dir, ChangesOf(s, ev.op, c, bloom), crash.at))
  }

  const EMPTY := Dir(map[], map[], map[], None)

  // ----------------------------------------------------------------- survival

  /** A crash in directory `d` of the event is survived. */
  ghost predicate Survives(d: Dir, before: seq<Entry>, ev: Event, bloom: bool, horizon: Option<int>) {
    Restartable(d, bloom, horizon) && Moves(before, StoreLog(Recover(d)), ev)
  }

  lemma WriteMoves(before: seq<Entry>, after: seq<Entry>, ev: Event)
    requires ev.op.Write? && ((after == before && ev.crash.Some?) || after == before + [ev.op.e])
    ensures Moves(before, after, ev)
  {
  }

  lemma MergeMoves(before: seq<Entry>, after: seq<Entry>, ev: Event)
    requires ev.op.MergePass? && SameUpToRepeats(after, before)
    ensures Moves(before, after, ev)
  {
    SameMembers(after, before);
  }

  lemma RetainMoves(before: seq<Entry>, after: seq<Entry>, ev: Event)
    requires ev.op.RetentionPass? && Subsequence(after, before)
    requires forall e :: e in before && e !in after ==> ev.op.days > 0 && e.timestamp < ev.op.cutoff
    ensures Moves(before, after, ev)
  {
    SubsequenceMembers(after, before);
  }

  /** Every place at which the event's operation can be cut short is survived. */
  ghost predicate SurvivesAll(s: Store, ev: Event, cs: seq<Change>, bloom: bool, horizon: Option<int>) {
    forall k :: 0 <= k <= |cs| ==> Survives(Ran(s.dir, cs[..k]), StoreLog(s), ev, bloom, horizon)
  }

  lemma WriteSurvives(s: Store, ev: Event, c: Config, bloom: bool, horizon: Option<int>)
    requires Quiet(s) && (bloom ==> SidecarsServe(s.dir, Active(s), horizon)) && ev.op.Write? && ev.crash.Some?
    ensures SurvivesAll(s, ev, ChangesOf(s, ev.op, c, bloom), bloom, horizon)
  {
    var cs := ChangesOf(s, ev.op, c, bloom);
    AppendStatesSafe(s, ev.op.e, c.size, c.limit, bloom, horizon);
    forall k | 0 <= k <= |cs| ensures Survives(Ran(s.dir, cs[..k]), StoreLog(s), ev, bloom, horizon) {
      assert AppendSafe(Ran(s.dir, cs[..k]), s, ev.op.e, bloom, horizon);
      WriteMoves(StoreLog(s), StoreLog(Recover(Ran(s.dir, cs[..k]))), ev);
    }
  }

  lemma MergeSurvives(s: Store, ev: Event, c: Config, bloom: bool, horizon: Option<int>)
    requires Quiet(s) && (bloom ==> SidecarsServe(s.dir, Active(s), horizon)) && ev.op.MergePass?
    ensures SurvivesAll(s, ev, ChangesOf(s, ev.op, c, bloom), bloom, horizon)
  {
    var cs := ChangesOf(s, ev.op, c, bloom);
    MergeStatesSafe(s, SmallIn(s.dir.files, c.size, ev.op.threshold), ev.op.fault, bloom, horizon);
    forall k | 0 <= k <= |cs| ensures Survives(Ran(s.dir, cs[..k]), StoreLog(s), ev, bloom, horizon) {
      assert MergeSafe(Ran(s.dir, cs[..k]), s, bloom, horizon);
      MergeMoves(StoreLog(s), StoreLog(Recover(Ran(s.dir, cs[..k]))), ev);
    }
  }

  lemma RetainSurvives(s: Store, ev: Event, c: Config, bloom: bool, horizon: Option<int>)
    requires Quiet(s) && (bloom ==> SidecarsServe(s.dir, Active(s), horizon)) && ev.op.RetentionPass?
    ensures SurvivesAll(s, ev, ChangesOf(s, ev.op, c, bloom), bloom, NextCutoff(horizon, ev.op))
  {
    var cs, later := ChangesOf(s, ev.op, c, bloom), NextCutoff(horizon, ev.op);
    RetainStatesSafe(s, ev.op.days, ev.op.cutoff, bloom, horizon);
    forall k | 0 <= k <= |cs| ensures Survives(Ran(s.dir, cs[..k]), StoreLog(s), ev, bloom, later) {
      if ev.op.days <= 0 {
        RestartExact(s);
        SubsequenceSelf(StoreLog(s));
      } else {
        assert RetainSafe(Ran(s.dir, cs[..k]), s, ev.op.cutoff, bloom, horizon);
      }
      RetainMoves(StoreLog(s), StoreLog(Recover(Ran(s.dir, cs[..k]))), ev);
    }
  }

  lemma CrashSurvived(s: Store, ev: Event, c: Config, bloom: bool, horizon: Option<int>)
    requires Quiet(s) && (bloom ==> SidecarsServe(s.dir, Active(s), horizon)) && ev.crash.Some?
    ensures SurvivesAll(s, ev, ChangesOf(s, ev.op, c, bloom), bloom, NextCutoff(horizon, ev.op))
  {
    match ev.op
    case Write(_) => WriteSurvives(s, ev, c, bloom, horizon);
    case MergePass(_, _) => MergeSurvives(s, ev, c, bloom, horizon);
    case RetentionPass(_, _) => RetainSurvives(s, ev, c, bloom, horizon);
  }

  /** A store that goes on: quiet, with sidecars that serve, and with the entries the event left it. */
  ghost predicate GoesOn(s: Store, ev: Event, t: Store, bloom: bool, horizon: Option<int>) {
    Quiet(t) && (bloom ==> SidecarsServe(t.dir, Active(t), horizon)) && Moves(StoreLog(s), StoreLog(t), ev)
  }

  lemma WriteDone(s: Store, ev: Event, c: Config, bloom: bool, horizon: Option<int>)
    requires Quiet(s) && (bloom ==> SidecarsServe(s.dir, Active(s), horizon)) && ev.op.Write?
    ensures GoesOn(s, ev, StoreAfter(s, ev.op, c, bloom), bloom, horizon)
  {
    AppendExact(s, ev.op.e, c.size, c.limit, bloom);
    AppendSidecars(s, ev.op.e, c.size, c.limit, bloom, horizon);
    WriteMoves(StoreLog(s), StoreLog(StoreAfter(s, ev.op, c, bloom)), ev);
  }

  lemma MergeDone(s: Store, ev: Event, c: Config, bloom: bool, horizon: Option<int>)
    requires Quiet(s) && (bloom ==> SidecarsServe(s.dir, Active(s), horizon)) && ev.op.MergePass?
    ensures GoesOn(s, ev, StoreAfter(s, ev.op, c, bloom), bloom, horizon)
  {
    PassSafe(s, SmallIn(s.dir.files, c.size, ev.op.threshold), ev.op.fault, bloom, horizon);
    MergeMoves(StoreLog(s), StoreLog(StoreAfter(s, ev.op, c, bloom)), ev);
  }

  lemma RetentionDone(s: Store, ev: Event, c: Config, bloom: bool, horizon: Option<int>)
    requires Quiet(s) && (bloom ==> SidecarsServe(s.dir, Active(s), horizon)) && ev.op.RetentionPass?
    ensures GoesOn(s, ev, StoreAfter(s, ev.op, c, bloom), bloom, NextCutoff(horizon, ev.op))
  {
    var t := StoreAfter(s, ev.op, c, bloom);
    RetentionThrough(s, ev.op.days, ev.op.cutoff);
    if ev.op.days <= 0 {
      PurgedNone(s, map[], t, map[]);
      SubsequenceSelf(StoreLog(s));
    } else {
      LoadedKeeps(s, bloom, horizon);
      PurgedKeeps(s, Loaded(s, bloom), t, Loaded(s, bloom) - ExpiredPaths(s, ev.op.cutoff), bloom, ev.op.cutoff, horizon);
    }
    RetainMoves(StoreLog(s), StoreLog(t), ev);
  }

  lemma OperationDone(s: Store, ev: Event, c: Config, bloom: bool, horizon: Option<int>)
    requires Quiet(s) && (bloom ==> SidecarsServe(s.dir, Active(s), horizon))
    ensures GoesOn(s, ev, StoreAfter(s, ev.op, c, bloom), bloom, NextCutoff(horizon, ev.op))
  {
    match ev.op
    case Write(_) => WriteDone(s, ev, c, bloom, horizon);
    case MergePass(_, _) => MergeDone(s, ev, c, bloom, horizon);
    case RetentionPass(_, _) => RetentionDone(s, ev, c, bloom, horizon);
  }

  // ------------------------------------------------------------------ horizons

  /** Above the timestamp of every entry. */
  function Beyond(log: seq<Entry>): int {
    MaxTimestamp(log) + 1
  }

  /** Entries from the horizon on can be found through the filters. Retention passes move it to their cutoff. Turning
      filters on moves it beyond every entry, unless the sidecars serve. */
  ghost function NextHorizon(horizon: Option<int>, ev: Event, bloom: bool, t: Store): Option<int>
    requires t.paths != []
  {
    var h := NextCutoff(horizon, ev.op);
    if !bloom && NextFlag(bloom, ev) && !SidecarsServe(t.dir, Active(t), h) then Later(h, Beyond(StoreLog(t))) else h
  }

  lemma NothingDue(s: Store, horizon: Option<int>)
    requires Quiet(s)
    ensures SidecarsServe(s.dir, Active(s), Later(horizon, Beyond(StoreLog(s))))
  {
    QuietEntries(s);
    forall p: Path, e | e in At(s.dir.files, p) ensures !Recent(e, Later(horizon, Beyond(StoreLog(s)))) {
      assert e in EntriesOf(s.dir.files);
      assert e in StoreLog(s) && e.timestamp <= MaxTimestamp(StoreLog(s));
    }
  }

  /** A restart serves from the new horizon on, whichever way the flag is set. */
  lemma RestartServes(d: Dir, ev: Event, bloom: bool, horizon: Option<int>)
    requires Restartable(d, bloom, NextCutoff(horizon, ev.op))
    ensures Restartable(d, NextFlag(bloom, ev), NextHorizon(horizon, ev, bloom, Recover(d)))
  {
    if !bloom && NextFlag(bloom, ev) {
      NothingDue(Recover(d), NextCutoff(horizon, ev.op));
    }
  }

  // -------------------------------------------------------------------- lives

  lemma NextGoesOn(s: Store, ev: Event, c: Config, bloom: bool, horizon: Option<int>)
    requires Quiet(s) && (bloom ==> SidecarsServe(s.dir, Active(s), horizon))
    ensures var t := Next(s, ev, c, bloom);
      Quiet(t) && GoesOn(s, ev, t, NextFlag(bloom, ev), NextHorizon(horizon, ev, bloom, t))
  {
    if ev.crash.None? {
      OperationDone(s, ev, c, bloom, horizon);
    } else {
      var cs, at := ChangesOf(s, ev.op, c, bloom), ev.crash.value.at;
      var d := CutShort(s.dir, cs, at);
      CrashSurvived(s, ev, c, bloom, horizon);
      assert cs[..|cs|] == cs;
      assert Survives(d, StoreLog(s), ev, bloom, NextCutoff(horizon, ev.op));
      RestartServes(d, ev, bloom, horizon);
    }
  }

  lemma NextQuiet(s: Store, ev: Event, c: Config, bloom: bool)
    requires Quiet(s)
    ensures Quiet(Next(s, ev, c, bloom))
  {
    NothingDue(s, None);
    NextGoesOn(s, ev, c, bloom, Later(None, Beyond(StoreLog(s))));
  }

  lemma EmptyQuiet()
    ensures Quiet(Recover(EMPTY)) && StoreLog(Recover(EMPTY)) == []
  {
    Runs.FreshQuiet();
  }

  /** The store that the events make of an empty data directory. */
  ghost function Life(evs: seq<Event>, c: Config, bloom: bool): (s: Store)
    ensures Quiet(s)
  {
    if evs == [] then EmptyQuiet(); Recover(EMPTY)
    else
      var n := |evs| - 1;
      NextQuiet(Life(evs[..n], c, bloom), evs[n], c, Flag(evs[..n], bloom));
      Next(Life(evs[..n], c, bloom), evs[n], c, Flag(evs[..n], bloom))
  }

  /** From when on the entries can be found through the filters at the end of the life. */
  ghost function Horizon(evs: seq<Event>, c: Config, bloom: bool): Option<int> {
    if evs == [] then None
    else
      var n := |evs| - 1;
      NextHorizon(Horizon(evs[..n], c, bloom), evs[n], Flag(evs[..n], bloom), Life(evs, c, bloom))
  }

  /** While filters are never turned on after they were off, the horizon is the largest retention cutoff. */
  lemma {:induction false} SteadyHorizon(evs: seq<Event>, c: Config, bloom: bool)
    requires forall k :: 0 <= k < |evs| ==> Flag(evs[..k], bloom) || !NextFlag(Flag(evs[..k], bloom), evs[k])
    ensures Horizon(evs, c, bloom) == Cutoff(evs)
  {
    if evs != [] {
      var n := |evs| - 1;
      forall k | 0 <= k < n ensures Flag(evs[..n][..k], bloom) || !NextFlag(Flag(evs[..n][..k], bloom), evs[..n][k]) {
        assert evs[..n][..k] == evs[..k];
      }
      SteadyHorizon(evs[..n], c, bloom);
    }
  }

  lemma {:induction false} RecentSinceCutoff(evs: seq<Event>, c: Config, bloom: bool, e: Entry)
    ensures Recent(e, Horizon(evs, c, bloom)) ==> Recent(e, Cutoff(evs))
  {
    if evs != [] {
      RecentSinceCutoff(evs[..|evs| - 1], c, bloom, e);
    }
  }

  lemma NoSidecars(d: Dir, active: Path)
    requires d.sidecars == map[]
    ensures SidecarsServe(d, active, None)
  {
    NoFilters(d.files, None);
    assert d.sidecars - {active} == map[];
  }

  lemma EmptyServes(bloom: bool)
    ensures Restartable(EMPTY, bloom, None)
  {
    EmptyQuiet();
    RecoverLeavesSidecars(EMPTY);
    NoSidecars(Recover(EMPTY).dir, Active(Recover(EMPTY)));
  }

  lemma RecoverLeavesSidecars(d: Dir)
    ensures Recover(d).dir.sidecars == d.sidecars
  {
  }

  /** At the end of every life the sidecars serve from the horizon on. */
  lemma {:induction false} LifeServes(evs: seq<Event>, c: Config, bloom: bool)
    ensures var s := Life(evs, c, bloom); Flag(evs, bloom) ==> SidecarsServe(s.dir, Active(s), Horizon(evs, c, bloom))
  {
    if evs == [] {
      EmptyServes(bloom);
    } else {
      var n := |evs| - 1;
      LifeServes(evs[..n], c, bloom);
      NextGoesOn(Life(evs[..n], c, bloom), evs[n], c, Flag(evs[..n], bloom), Horizon(evs[..n], c, bloom));
    }
  }

  /** At the end of every life, an operation can be cut short after any number of its changes: a restart finds a quiet
      store with sidecars that serve, and only what the operation may add or drop is added or dropped. */
  lemma EveryCrashSurvived(evs: seq<Event>, ev: Event, c: Config, bloom: bool, k: nat)
    requires ev.crash.Some? && k <= |ChangesOf(Life(evs, c, bloom), ev.op, c, Flag(evs, bloom))|
    ensures var s := Life(evs, c, bloom);
      Survives(Ran(s.dir, ChangesOf(s, ev.op, c, Flag(evs, bloom))[..k]), StoreLog(s), ev, Flag(evs, bloom), NextCutoff(Horizon(evs, c, bloom), ev.op))
  {
    LifeServes(evs, c, bloom);
    CrashSurvived(Life(evs, c, bloom), ev, c, Flag(evs, bloom), Horizon(evs, c, bloom));
  }

  /** What a life so far guarantees of the entries on disk. */
  ghost predicate Durable(log: seq<Entry>, evs: seq<Event>) {
    && (forall e :: e in log ==> e in Offered(evs))
    && (forall e :: e in Acknowledged(evs) && Recent(e, Cutoff(evs)) ==> e in log)
  }

  lemma DurableStep(before: seq<Entry>, after: seq<Entry>, evs: seq<Event>, k: nat)
    requires k < |evs| && Durable(before, evs[..k]) && Moves(before, after, evs[k])
    ensures Durable(after, evs[..k + 1])
  {
    var a, b := evs[..k], evs[..k + 1];
    assert b[..k] == a && b[k] == evs[k];
    forall e | e in after ensures e in Offered(b) {
      if e in before {
        var i :| 0 <= i < k && a[i].op.Write? && a[i].op.e == e;
        assert b[i] == a[i];
      } else {
        assert b[k].op.e == e;
      }
    }
    forall e | e in Acknowledged(b) && Recent(e, Cutoff(b)) ensures e in after {
      var i :| 0 <= i <= k && b[i].op.Write? && b[i].crash.None? && b[i].op.e == e;
      if i < k {
        assert a[i] == b[i];
        assert e in Acknowledged(a) && Recent(e, Cutoff(a));
      }
    }
  }

  lemma LifeMoves(evs: seq<Event>, c: Config, bloom: bool)
    requires evs != []
    ensures var n := |evs| - 1; Moves(StoreLog(Life(evs[..n], c, bloom)), StoreLog(Life(evs, c, bloom)), evs[n])
  {
    var n := |evs| - 1;
    LifeServes(evs[..n], c, bloom);
    NextGoesOn(Life(evs[..n], c, bloom), evs[n], c, Flag(evs[..n], bloom), Horizon(evs[..n], c, bloom));
  }

  /** The log after each number of events. */
  ghost predicate Trace(logs: seq<seq<Entry>>, evs: seq<Event>) {
    |logs| == |evs| + 1 && logs[0] == [] && forall i :: 0 <= i < |evs| ==> Moves(logs[i], logs[i + 1], evs[i])
  }

  lemma {:induction false} TraceDurable(logs: seq<seq<Entry>>, evs: seq<Event>, k: nat)
    requires Trace(logs, evs) && k <= |evs|
    ensures Durable(logs[k], evs[..k])
  {
    if k > 0 {
      TraceDurable(logs, evs, k - 1);
      DurableStep(logs[k - 1], logs[k], evs, k - 1);
    }
  }

  ghost function LogAt(evs: seq<Event>, c: Config, bloom: bool, i: nat): seq<Entry>
    requires i <= |evs|
  {
    StoreLog(Life(evs[..i], c, bloom))
  }

  lemma LogMoves(evs: seq<Event>, c: Config, bloom: bool, i: nat)
    requires i < |evs|
    ensures Moves(LogAt(evs, c, bloom, i), LogAt(evs, c, bloom, i + 1), evs[i])
  {
    assert evs[..i + 1][..i] == evs[..i];
    LifeMoves(evs[..i + 1], c, bloom);
  }

  lemma LogEnds(evs: seq<Event>, c: Config, bloom: bool)
    ensures LogAt(evs, c, bloom, 0) == [] && LogAt(evs, c, bloom, |evs|) == StoreLog(Life(evs, c, bloom))
  {
    assert evs[..0] == [] && evs[..|evs|] == evs;
    EmptyQuiet();
  }

  lemma LifeTrace(evs: seq<Event>, c: Config, bloom: bool) returns (logs: seq<seq<Entry>>)
    ensures Trace(logs, evs) && logs[|evs|] == StoreLog(Life(evs, c, bloom))
  {
    logs := seq(|evs| + 1, i requires 0 <= i <= |evs| => LogAt(evs, c, bloom, i));
    forall i | 0 <= i < |evs| ensures Moves(logs[i], logs[i + 1], evs[i]) {
      LogMoves(evs, c, bloom, i);
    }
    LogEnds(evs, c, bloom);
  }

  /** Every life, wherever its crashes fall: it holds only entries it was offered, and every acknowledged entry that is
      not older than a retention cutoff. */
  lemma LifeDurable(evs: seq<Event>, c: Config, bloom: bool)
    ensures Durable(StoreLog(Life(evs, c, bloom)), evs)
  {
    var logs := LifeTrace(evs, c, bloom);
    TraceDurable(logs, evs, |evs|);
    assert evs[..|evs|] == evs;
  }

  // -------------------------------------------------------------- as it happens

  /** A new node with this configuration. */
  twostate predicate NewNode(new n: StorageNode, size: Entry -> nat, limit: int, bloom: bool)
    reads n, n.manager
  {
    && fresh(n) && fresh(n.manager) && fresh(n.idx)
    && n.manager.size == size && n.manager.limit == limit && n.manager.bloomEnabled == bloom
  }

  /** The operation, and the changes that it made. */
  method Operate(n: StorageNode, op: Op, ghost horizon: Option<int>) returns (done: seq<Change>)
    requires n.Serving(horizon)
    modifies n.manager, n.idx
    ensures n.Serving(NextCutoff(horizon, op))
    ensures var s, c := old(n.manager.State()), Config(n.manager.size, n.manager.limit);
      n.manager.State() == StoreAfter(s, op, c, n.manager.bloomEnabled) && done == ChangesOf(s, op, c, n.manager.bloomEnabled)
  {
    var since := |n.manager.changes|;
    ghost var s, c0, c := n.manager.State(), n.manager.changes, Config(n.manager.size, n.manager.limit);
    match op {
      case Write(e) => n.Ingest(e, horizon);
      case MergePass(threshold, fault) => n.Merge(threshold, fault, horizon);
      case RetentionPass(days, cutoff) => n.Retain(days, cutoff, horizon);
    }
    done := n.manager.changes[since..];
    DropPrefix(c0, ChangesOf(s, op, c, n.manager.bloomEnabled));
  }

  /** One event: the operation, and the crash and restart if there is one. */
  method Happen(n: StorageNode, ev: Event, ghost horizon: Option<int>) returns (n': StorageNode)
    requires n.Serving(horizon)
    modifies n.manager, n.idx
    ensures n' == n || (fresh(n') && fresh(n'.manager) && fresh(n'.idx))
    ensures n'.manager.size == n.manager.size && n'.manager.limit == n.manager.limit && n'.manager.paths != []
    ensures n'.manager.bloomEnabled == NextFlag(n.manager.bloomEnabled, ev)
    ensures n'.manager.State() == Next(old(n.manager.State()), ev, Config(n.manager.size, n.manager.limit), n.manager.bloomEnabled)
    ensures n'.Serving(NextHorizon(horizon, ev, n.manager.bloomEnabled, n'.manager.State()))
  {
    var d0 := n.manager.dir;
    ghost var s := n.manager.State();
    NextGoesOn(s, ev, Config(n.manager.size, n.manager.limit), n.manager.bloomEnabled, horizon);
    var done := Operate(n, ev.op, horizon);
    n' := n;
    if ev.crash.Some? {
      var left := CutShort(d0, done, ev.crash.value.at);
      assert Recover(left) == Next(s, ev, Config(n.manager.size, n.manager.limit), n.manager.bloomEnabled);
      n' := StorageNode.Start(left, n.manager.size, n.manager.limit, ev.crash.value.bloom,
        NextHorizon(horizon, ev, n.manager.bloomEnabled, Recover(left)));
    }
  }

  /** Any life of a node, from an empty data directory, is the one that the events determine, and ends serving from the
      horizon on. */
  method Live(evs: seq<Event>, c: Config, bloom: bool) returns (n: StorageNode)
    ensures NewNode(n, c.size, c.limit, Flag(evs, bloom))
    ensures n.manager.State() == Life(evs, c, bloom) && n.Serving(Horizon(evs, c, bloom))
  {
    if evs == [] {
      EmptyServes(bloom);
      n := StorageNode.Start(EMPTY, c.size, c.limit, bloom, None);
    } else {
      var k := |evs| - 1;
      n := Live(evs[..k], c, bloom);
      n := Happen(n, evs[k], Horizon(evs[..k], c, bloom));
    }
  }

  /** The full scan of some offered entries, among them all acknowledged ones from the horizon on. */
  ghost predicate ScansDurable(req: Request, evs: seq<Event>, horizon: Option<int>, r: Outcome<QueryResult>) {
    exists some: set<Entry> :: HasDurable(some, evs, horizon) && IdsIdentify(some) && r == FullScan(req, some)
  }

  ghost predicate HasDurable(some: set<Entry>, evs: seq<Event>, horizon: Option<int>) {
    some <= Offered(evs) && forall e :: e in Acknowledged(evs) && Recent(e, horizon) ==> e in some
  }

  lemma ScansDurably(req: Request, evs: seq<Event>, log: seq<Entry>, horizon: Option<int>, r: Outcome<QueryResult>)
    requires Durable(log, evs) && ScansRecent(req, ToSet(log), horizon, r)
    requires forall e :: Recent(e, horizon) ==> Recent(e, Cutoff(evs))
    ensures ScansDurable(req, evs, horizon, r)
  {
    var some: set<Entry> :| HasRecent(some, ToSet(log), horizon) && IdsIdentify(some) && r == FullScan(req, some);
    assert HasDurable(some, evs, horizon);
  }

  /** What a query finds at the end of any life. Without filters, or when nothing ever expired and filters were never
      turned on beside sidecars that do not serve, it is the full scan of the log that the life ends with. */
  method LiveAndQuery(evs: seq<Event>, c: Config, bloom: bool, req: Request) returns (r: Outcome<QueryResult>)
    requires IdsIdentify(Offered(evs))
    ensures IdsIdentify(ToSet(StoreLog(Life(evs, c, bloom))))
    ensures CustomFree(req.query) ==> ScansDurable(req, evs, Horizon(evs, c, bloom), r)
    ensures !Flag(evs, bloom) || (CustomFree(req.query) && Horizon(evs, c, bloom).None?) ==>
      r == FullScan(req, ToSet(StoreLog(Life(evs, c, bloom))))
  {
    var n := Live(evs, c, bloom);
    ghost var horizon := Horizon(evs, c, bloom);
    LifeDurable(evs, c, bloom);
    assert ToSet(StoreLog(n.manager.State())) <= Offered(evs);
    r := n.Query(req, horizon);
    if CustomFree(req.query) {
      forall e | Recent(e, horizon) ensures Recent(e, Cutoff(evs)) {
        RecentSinceCutoff(evs, c, bloom, e);
      }
      ScansDurably(req, evs, StoreLog(n.manager.State()), horizon, r);
    }
  }
}
