/** Whole runs of the segment store: what any history of appends, merges, retention passes, restarts and
crashes inside rotations and merges keeps of the append sequence. */
module Runs {
  import opened Ordering
  import opened Entries
  import opened Index
  import opened Store
  import opened Merging

  datatype Event =
    | Append(e: Entry)
    | Merge(i: nat, j: nat)
    // crash after the rename, when the merged-away files before place m are deleted; then restart
    | MergeCrash(i: nat, j: nat, m: nat)
    // the expired segments in `gone` are dropped: all of them, or those deleted before a crash
    | Retain(cutoff: int, gone: set<Path>)
    // crash in a rotation: sidecar written, or new file created, or marker written; then restart
    | RotateCrash(stage: nat)
    | Restart

  datatype Config = Config(size: Entry -> nat, limit: int, bloom: bool)

  /** The store after a merge that was cut short after its rename and `m - i - 1` deletes. */
  ghost function Crashed(s: Store, i: nat, j: nat, m: nat): Store {
    if IsRun(s, i, j) && i < m <= j then Recover(MergedDir(s.dir, s.paths[i..j], m - i)) else s
  }

  /** The store after an event; parameters that name no run or no expired segment change nothing. */
  ghost function Apply(s: Store, ev: Event, c: Config): Store
    requires s.paths != []
  {
    match ev
    case Append(e) => AppendTo(s, e, c.size, c.limit, c.bloom)
    case Merge(i, j) => if IsRun(s, i, j) then MergedStore(s, i, j) else s
    case MergeCrash(i, j, m) => Crashed(s, i, j, m)
    case Retain(cutoff, gone) => if gone <= ExpiredPaths(s, cutoff) then Dropped(s, gone) else s
    case RotateCrash(stage) => Recover(RotateDir(s, c.bloom, stage))
    case Restart => Recover(s.dir)
  }

  /** A fresh data directory. */
  ghost function Fresh(): Store {
    Recover(Dir(map[], map[], map[], None))
  }

  lemma NoPaths()
    ensures SortedPaths({}) == []
  {
    EmptySet(SortedPaths({}));
  }

  lemma FreshQuiet()
    ensures Quiet(Fresh()) && StoreLog(Fresh()) == []
  {
    NoPaths();
    FirstSegment(Dir(map[], map[], map[], None));
  }

  /** The store after a history; every intermediate store is quiet. */
  ghost function Run(evs: seq<Event>, c: Config): (s: Store)
    ensures Quiet(s)
  {
    if evs == [] then FreshQuiet(); Fresh()
    else
      var s := Run(evs[..|evs| - 1], c);
      ApplyEffect(s, evs[|evs| - 1], c);
      Apply(s, evs[|evs| - 1], c)
  }

  /** What one event does to the log. */
  ghost predicate Effect(before: seq<Entry>, after: seq<Entry>, ev: Event) {
    match ev
    case Append(e) => after == before + [e]
    case Merge(_, _) => after == before
    case MergeCrash(_, _, _) => SameUpToRepeats(after, before)
    case Retain(cutoff, _) =>
      Subsequence(after, before) && forall e :: e in before && e !in after ==> e.timestamp < cutoff
    case RotateCrash(_) => after == before
    case Restart => after == before
  }

  lemma NoEffect(l: seq<Entry>, ev: Event)
    requires !ev.Append?
    ensures Effect(l, l, ev)
  {
    SubsequenceSelf(l);
  }

  lemma MergeEffect(s: Store, ev: Event, c: Config)
    requires Quiet(s) && ev.Merge?
    ensures Quiet(Apply(s, ev, c)) && Effect(StoreLog(s), StoreLog(Apply(s, ev, c)), ev)
  {
    if IsRun(s, ev.i, ev.j) {
      MergeExact(s, ev.i, ev.j);
    }
  }

  lemma CrashedMerge(s: Store, i: nat, j: nat, m: nat)
    requires Quiet(s)
    ensures Quiet(Crashed(s, i, j, m)) && SameUpToRepeats(StoreLog(Crashed(s, i, j, m)), StoreLog(s))
  {
    if IsRun(s, i, j) && i < m <= j {
      MergeCrashSafe(s, i, j, m);
    }
  }

  lemma MergeCrashEffect(s: Store, ev: Event, c: Config)
    requires Quiet(s) && ev.MergeCrash?
    ensures Quiet(Apply(s, ev, c)) && Effect(StoreLog(s), StoreLog(Apply(s, ev, c)), ev)
  {
    CrashedMerge(s, ev.i, ev.j, ev.m);
  }

  lemma RetainEffect(s: Store, ev: Event, c: Config)
    requires Quiet(s) && ev.Retain?
    ensures Quiet(Apply(s, ev, c)) && Effect(StoreLog(s), StoreLog(Apply(s, ev, c)), ev)
  {
    NoEffect(StoreLog(s), ev);
    if ev.gone <= ExpiredPaths(s, ev.cutoff) {
      RetentionDropsOld(s, ev.gone, ev.cutoff);
    }
  }

  lemma AppendEffect(s: Store, ev: Event, c: Config)
    requires Quiet(s) && ev.Append?
    ensures Quiet(Apply(s, ev, c)) && Effect(StoreLog(s), StoreLog(Apply(s, ev, c)), ev)
  {
    AppendExact(s, ev.e, c.size, c.limit, c.bloom);
  }

  lemma ApplyEffect(s: Store, ev: Event, c: Config)
    requires Quiet(s)
    ensures Quiet(Apply(s, ev, c)) && Effect(StoreLog(s), StoreLog(Apply(s, ev, c)), ev)
  {
    if ev.Append? {
      AppendEffect(s, ev, c);
    } else if ev.Merge? {
      MergeEffect(s, ev, c);
    } else if ev.MergeCrash? {
      MergeCrashEffect(s, ev, c);
    } else if ev.Retain? {
      RetainEffect(s, ev, c);
    } else if ev.RotateCrash? {
      RotateCrashKeepsLog(s, c.bloom, ev.stage);
    } else {
      RestartExact(s);
    }
  }

  /** The logs before, between and after the events. */
  ghost predicate Trace(logs: seq<seq<Entry>>, evs: seq<Event>) {
    && |logs| == |evs| + 1 && logs[0] == []
    && forall i :: 0 <= i < |evs| ==> Effect(logs[i], logs[i + 1], evs[i])
  }

  lemma RunStep(evs: seq<Event>, c: Config)
    requires evs != []
    ensures Effect(StoreLog(Run(evs[..|evs| - 1], c)), StoreLog(Run(evs, c)), evs[|evs| - 1])
  {
    ApplyEffect(Run(evs[..|evs| - 1], c), evs[|evs| - 1], c);
  }

  ghost function LogAt(evs: seq<Event>, c: Config, i: nat): seq<Entry>
    requires i <= |evs|
  {
    StoreLog(Run(evs[..i], c))
  }

  lemma LogAtStep(evs: seq<Event>, c: Config, i: nat)
    requires i < |evs|
    ensures Effect(LogAt(evs, c, i), LogAt(evs, c, i + 1), evs[i])
  {
    assert evs[..i + 1][..i] == evs[..i];
    RunStep(evs[..i + 1], c);
  }

  lemma RunTrace(evs: seq<Event>, c: Config) returns (logs: seq<seq<Entry>>)
    ensures Trace(logs, evs) && logs[|evs|] == StoreLog(Run(evs, c))
  {
    logs := seq(|evs| + 1, i requires 0 <= i <= |evs| => LogAt(evs, c, i));
    forall i | 0 <= i < |evs| ensures Effect(logs[i], logs[i + 1], evs[i]) {
      LogAtStep(evs, c, i);
    }
    LogAtEnds(evs, c);
  }

  lemma LogAtEnds(evs: seq<Event>, c: Config)
    ensures LogAt(evs, c, 0) == [] && LogAt(evs, c, |evs|) == StoreLog(Run(evs, c))
  {
    assert evs[..0] == [] && evs[..|evs|] == evs;
    FreshQuiet();
  }

  lemma TracePrefix(logs: seq<seq<Entry>>, evs: seq<Event>)
    requires Trace(logs, evs) && evs != []
    ensures Trace(logs[..|evs|], evs[..|evs| - 1]) && Effect(logs[|evs| - 1], logs[|evs|], evs[|evs| - 1])
  {
    var l, v := logs[..|evs|], evs[..|evs| - 1];
    forall i | 0 <= i < |v| ensures Effect(l[i], l[i + 1], v[i]) {
      assert l[i] == logs[i] && l[i + 1] == logs[i + 1] && v[i] == evs[i];
    }
    assert Effect(logs[|evs| - 1], logs[|evs| - 1 + 1], evs[|evs| - 1]);
  }

  /** The entries in append order. */
  function Appended(evs: seq<Event>): seq<Entry> {
    if evs == [] then []
    else
      var n := |evs| - 1;
      Appended(evs[..n]) + if evs[n].Append? then [evs[n].e] else []
  }

  // --------------------------------------------------------------- theorems

  lemma {:induction false} ExactTrace(logs: seq<seq<Entry>>, evs: seq<Event>)
    requires Trace(logs, evs)
    requires forall i :: 0 <= i < |evs| ==> !evs[i].MergeCrash? && !evs[i].Retain?
    ensures logs[|evs|] == Appended(evs)
  {
    if evs != [] {
      TracePrefix(logs, evs);
      ExactTrace(logs[..|evs|], evs[..|evs| - 1]);
    }
  }

  /** Appends, merges, restarts and crashes in rotations: reading the path list returns exactly the append
      sequence. */
  lemma LogIsAppendSequence(evs: seq<Event>, c: Config)
    requires forall i :: 0 <= i < |evs| ==> !evs[i].MergeCrash? && !evs[i].Retain?
    ensures StoreLog(Run(evs, c)) == Appended(evs)
  {
    var logs := RunTrace(evs, c);
    ExactTrace(logs, evs);
  }

  lemma {:induction false} DedupTrace(logs: seq<seq<Entry>>, evs: seq<Event>)
    requires Trace(logs, evs) && forall i :: 0 <= i < |evs| ==> !evs[i].Retain?
    ensures Dedup(logs[|evs|]) == Dedup(Appended(evs)) && ToSet(logs[|evs|]) == ToSet(Appended(evs))
  {
    if evs != [] {
      var n := |evs| - 1;
      TracePrefix(logs, evs);
      DedupTrace(logs[..|evs|], evs[..n]);
      assert !evs[n].Append? ==> Appended(evs) == Appended(evs[..n]);
      if evs[n].Append? {
        DedupPrefix(logs[n], Appended(evs[..n]), [evs[n].e]);
        ToSetConcat(logs[n], [evs[n].e]);
        ToSetConcat(Appended(evs[..n]), [evs[n].e]);
      }
    }
  }

  /** With crashes anywhere in merges as well: the same after dropping repeated IDs. */
  lemma CrashesOnlyRepeat(evs: seq<Event>, c: Config)
    requires forall i :: 0 <= i < |evs| ==> !evs[i].Retain?
    ensures Dedup(StoreLog(Run(evs, c))) == Dedup(Appended(evs))
    ensures ToSet(StoreLog(Run(evs, c))) == ToSet(Appended(evs))
  {
    var logs := RunTrace(evs, c);
    DedupTrace(logs, evs);
  }

  lemma {:induction false} SubsequenceTrace(logs: seq<seq<Entry>>, evs: seq<Event>)
    requires Trace(logs, evs) && forall i :: 0 <= i < |evs| ==> !evs[i].MergeCrash?
    ensures Subsequence(logs[|evs|], Appended(evs))
  {
    if evs != [] {
      var n := |evs| - 1;
      TracePrefix(logs, evs);
      SubsequenceTrace(logs[..|evs|], evs[..n]);
      assert !evs[n].Append? ==> Appended(evs) == Appended(evs[..n]);
      if evs[n].Append? {
        SubsequenceExtend(logs[n], Appended(evs[..n]), [evs[n].e]);
      } else if evs[n].Retain? {
        SubsequenceTransitive(logs[|evs|], logs[n], Appended(evs[..n]));
      }
    }
  }

  /** Without crashes in merges, retention included: the log is a subsequence of the appends. */
  lemma LogIsSubsequence(evs: seq<Event>, c: Config)
    requires forall i :: 0 <= i < |evs| ==> !evs[i].MergeCrash?
    ensures Subsequence(StoreLog(Run(evs, c)), Appended(evs))
  {
    var logs := RunTrace(evs, c);
    SubsequenceTrace(logs, evs);
  }

  /** Some retention pass after the entry's last append had a cutoff above its timestamp. */
  ghost predicate Outdated(e: Entry, evs: seq<Event>) {
    evs != [] && var ev := evs[|evs| - 1];
      ev != Append(e) && ((ev.Retain? && e.timestamp < ev.cutoff) || Outdated(e, evs[..|evs| - 1]))
  }

  /** What one event does to the set of entries. */
  lemma EffectMembers(before: seq<Entry>, after: seq<Entry>, ev: Event)
    requires Effect(before, after, ev)
    ensures forall e :: e in after ==> e in before || ev == Append(e)
    ensures forall e :: e in before && e !in after ==> ev.Retain? && e.timestamp < ev.cutoff
    ensures ev.Append? ==> ev.e in after
  {
    if ev.MergeCrash? {
      SameMembers(before, after);
    } else if ev.Retain? {
      SubsequenceMembers(after, before);
    }
  }

  lemma {:induction false} OutdatedTrace(logs: seq<seq<Entry>>, evs: seq<Event>)
    requires Trace(logs, evs)
    ensures forall e :: e in logs[|evs|] ==> e in Appended(evs)
    ensures forall e :: e in Appended(evs) && e !in logs[|evs|] ==> Outdated(e, evs)
  {
    if evs != [] {
      var n := |evs| - 1;
      TracePrefix(logs, evs);
      OutdatedTrace(logs[..|evs|], evs[..n]);
      EffectMembers(logs[n], logs[|evs|], evs[n]);
      forall e | e in Appended(evs) && e !in logs[|evs|] ensures Outdated(e, evs) {
        assert evs[n] != Append(e);
        assert e in Appended(evs[..n]);
      }
    }
  }

  /** Any history at all: the log holds only appended entries, and an appended entry is missing only if a
      later retention pass had a cutoff above its timestamp. */
  lemma OnlyOutdatedLost(evs: seq<Event>, c: Config)
    ensures forall e :: e in StoreLog(Run(evs, c)) ==> e in Appended(evs)
    ensures forall e :: e in Appended(evs) && e !in StoreLog(Run(evs, c)) ==> Outdated(e, evs)
  {
    var logs := RunTrace(evs, c);
    OutdatedTrace(logs, evs);
  }
}
