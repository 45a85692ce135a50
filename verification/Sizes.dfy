/** Segment sizes in bytes: what the sizes of the store are sizes of, when an append opens a new segment, and the limit
that every segment keeps. */
module Sizes {
  import opened Ordering
  import opened Entries
  import opened Index
  import opened Executor
  import opened Records
  import opened Store
  import opened Merging
  import opened Passes
  import opened Lifetimes

  // ------------------------------------------------------------------- bytes

  lemma {:induction false} SizeConcat(a: seq<Entry>, b: seq<Entry>, size: Entry -> nat)
    ensures Size(a + b, size) == Size(a, size) + Size(b, size)
  {
    if b == [] {
      AppendNone(a);
    } else {
      var n := |b| - 1;
      SizeConcat(a, b[..n], size);
      AppendLast(a, b);
    }
  }

  lemma SizeOne(e: Entry, size: Entry -> nat)
    ensures Size([e], size) == size(e)
  {
    assert [e][..0] == [];
  }

  /** Every entry can be written as a record, and its size is that of the record. */
  ghost predicate Sized(es: seq<Entry>, marshal: Entry -> Bytes, size: Entry -> nat) {
    forall e :: e in es ==> |marshal(e)| <= MAX_UINT32 && size(e) == 4 + |marshal(e)|
  }

  /** The bytes of a segment file: a record for each entry, in order. */
  function FileBytes(es: seq<Entry>, marshal: Entry -> Bytes): Bytes
    requires Writable(Marshaled(es, marshal))
  {
    Encoded(Marshaled(es, marshal))
  }

  /** The size of a segment is the length of its file. */
  lemma {:induction false} SizeIsBytes(es: seq<Entry>, marshal: Entry -> Bytes, size: Entry -> nat)
    requires Sized(es, marshal, size)
    ensures Writable(Marshaled(es, marshal)) && Size(es, size) == |FileBytes(es, marshal)|
  {
    if es != [] {
      var rest := es[1..];
      assert forall e :: e in rest ==> e in es;
      SizeIsBytes(rest, marshal, size);
      assert es == [es[0]] + rest;
      SizeConcat([es[0]], rest, size);
      SizeOne(es[0], size);
      assert Marshaled(es, marshal)[1..] == Marshaled(rest, marshal);
    }
  }

  // --------------------------------------------------------------- new segments

  /** An append opens a new segment exactly if the file of the active one and the record together would be longer than
      the limit; the new file then holds that record alone, and otherwise the active one is longer by the record. */
  lemma NewSegmentIff(s: Store, e: Entry, marshal: Entry -> Bytes, size: Entry -> nat, limit: int, bloom: bool)
    requires Quiet(s) && Sized(At(s.dir.files, Active(s)) + [e], marshal, size)
    ensures var active := At(s.dir.files, Active(s)); var t := AppendTo(s, e, size, limit, bloom);
      && Writable(Marshaled(active, marshal)) && Writable([marshal(e)]) && Writable(Marshaled(active + [e], marshal))
      && (Active(t) != Active(s) <==> |FileBytes(active, marshal)| + |Encoded([marshal(e)])| > limit)
      && (Active(t) != Active(s) ==>
        Active(t) !in s.paths && At(t.dir.files, Active(t)) == [e] && At(t.dir.files, Active(s)) == active)
      && (Active(t) == Active(s) ==>
        At(t.dir.files, Active(s)) == active + [e] && |FileBytes(active + [e], marshal)| <= limit)
  {
    var active := At(s.dir.files, Active(s));
    assert forall x :: x in active ==> x in active + [e];
    assert e in active + [e];
    SizeIsBytes(active, marshal, size);
    SizeIsBytes(active + [e], marshal, size);
    SizeConcat(active, [e], size);
    SizeOne(e, size);
    OneRecord(marshal(e));
    OpensOrFits(s, e, size, limit, bloom);
  }

  lemma OneRecord(p: Bytes)
    requires |p| <= MAX_UINT32
    ensures Writable([p]) && |Encoded([p])| == 4 + |p|
  {
    assert [p][1..] == [] && Encoded([p][1..]) == [];
  }

  lemma OpensOrFits(s: Store, e: Entry, size: Entry -> nat, limit: int, bloom: bool)
    requires Quiet(s)
    ensures var active := At(s.dir.files, Active(s)); var t := AppendTo(s, e, size, limit, bloom);
      if Size(active, size) + size(e) > limit then
        Active(t) == s.nextSeq && s.nextSeq !in s.paths && t.dir.files == s.dir.files[s.nextSeq := [e]]
      else Active(t) == Active(s) && t.dir.files == s.dir.files[Active(s) := active + [e]]
  {
    var files: Contents := s.dir.files;
    assert s.nextSeq !in ToSet(s.paths);
    assert Active(s) in ToSet(s.paths);
    var created: Contents := files[s.nextSeq := []];
    assert created[s.nextSeq := [e]] == files[s.nextSeq := [e]];
    assert [] + [e] == [e];
  }

  // ------------------------------------------------------------------- the limit

  /** No segment of two or more entries is larger than the limit. */
  ghost predicate Bounded(files: Contents, size: Entry -> nat, limit: int) {
    forall p :: p in files && |files[p]| >= 2 ==> Size(files[p], size) <= limit
  }

  lemma AppendBounded(s: Store, e: Entry, size: Entry -> nat, limit: int, bloom: bool)
    requires Quiet(s) && Bounded(s.dir.files, size, limit)
    ensures Bounded(AppendTo(s, e, size, limit, bloom).dir.files, size, limit)
  {
    var active := At(s.dir.files, Active(s));
    OpensOrFits(s, e, size, limit, bloom);
    SizeConcat(active, [e], size);
    SizeOne(e, size);
  }

  lemma RotationBounded(s: Store, bloom: bool, stage: nat, size: Entry -> nat, limit: int)
    requires s.paths != [] && Bounded(s.dir.files, size, limit)
    ensures Bounded(RotateDir(s, bloom, stage).files, size, limit)
  {
  }

  lemma CutBounded(s: Store, e: Entry, size: Entry -> nat, limit: int, bloom: bool, k: nat)
    requires Quiet(s) && Bounded(s.dir.files, size, limit) && k <= |AppendChanges(s, e, size, limit, bloom)|
    ensures Bounded(Ran(s.dir, AppendChanges(s, e, size, limit, bloom)[..k]).files, size, limit)
  {
    var d := Ran(s.dir, AppendChanges(s, e, size, limit, bloom)[..k]);
    AppendBounded(s, e, size, limit, bloom);
    AppendCut(s, e, size, limit, bloom, k);
    if d != s.dir && d != AppendTo(s, e, size, limit, bloom).dir {
      var stage :| 0 <= stage <= 2 && d == RotateDir(s, bloom, stage);
      RotationBounded(s, bloom, stage, size, limit);
    }
  }

  lemma RetentionBounded(s: Store, days: int, cutoff: int, size: Entry -> nat, limit: int, k: nat)
    requires Quiet(s) && Bounded(s.dir.files, size, limit) && k <= |RetentionChanges(s, days, cutoff)|
    ensures Bounded(Ran(s.dir, RetentionChanges(s, days, cutoff)[..k]).files, size, limit)
  {
    RetentionThrough(s, days, cutoff);
    assert RetentionStates(s, cutoff)(Ran(s.dir, RetentionChanges(s, days, cutoff)[..k]));
  }

  lemma NoMergeBounded(s: Store, threshold: int, fault: seq<Path> -> MergeFault, bloom: bool, size: Entry -> nat)
    requires Quiet(s) && threshold <= 0
    ensures PassChanges(s, SmallIn(s.dir.files, size, threshold), fault, bloom) == []
  {
    NothingToDo(s, SmallIn(s.dir.files, size, threshold), fault, bloom);
  }

  /** Whatever the operation has done when it ends or is cut short. */
  lemma OperationBounded(s: Store, op: Op, c: Config, bloom: bool, k: nat)
    requires Quiet(s) && Bounded(s.dir.files, c.size, c.limit) && (op.MergePass? ==> op.threshold <= 0)
    requires k <= |ChangesOf(s, op, c, bloom)|
    ensures Bounded(Ran(s.dir, ChangesOf(s, op, c, bloom)[..k]).files, c.size, c.limit)
  {
    match op
    case Write(e) => CutBounded(s, e, c.size, c.limit, bloom, k);
    case MergePass(threshold, fault) => NoMergeBounded(s, threshold, fault, bloom, c.size);
    case RetentionPass(days, cutoff) => RetentionBounded(s, days, cutoff, c.size, c.limit, k);
  }

  lemma RestartBounded(d: Dir, size: Entry -> nat, limit: int)
    requires Bounded(d.files, size, limit)
    ensures Bounded(Recover(d).dir.files, size, limit)
  {
  }

  lemma NextBounded(s: Store, ev: Event, c: Config, bloom: bool)
    requires Quiet(s) && Bounded(s.dir.files, c.size, c.limit) && (ev.op.MergePass? ==> ev.op.threshold <= 0)
    ensures Bounded(Next(s, ev, c, bloom).dir.files, c.size, c.limit)
  {
    var cs := ChangesOf(s, ev.op, c, bloom);
    assert cs[..|cs|] == cs;
    if ev.crash.None? {
      OperationBounded(s, ev.op, c, bloom, |cs|);
      if ev.op.Write? {
        AppendBounded(s, ev.op.e, c.size, c.limit, bloom);
      }
    } else {
      var k := if ev.crash.value.at <= |cs| then ev.crash.value.at else |cs|;
      OperationBounded(s, ev.op, c, bloom, k);
      RestartBounded(Ran(s.dir, cs[..k]), c.size, c.limit);
    }
  }

  /** In every life without merges, wherever its crashes fall, no segment of two or more entries is larger than the
      limit. */
  lemma {:induction false} SegmentsBounded(evs: seq<Event>, c: Config, bloom: bool)
    requires forall i :: 0 <= i < |evs| && evs[i].op.MergePass? ==> evs[i].op.threshold <= 0
    ensures Bounded(Life(evs, c, bloom).dir.files, c.size, c.limit)
  {
    if evs == [] {
      RestartBounded(EMPTY, c.size, c.limit);
    } else {
      var n := |evs| - 1;
      SegmentsBounded(evs[..n], c, bloom);
      NextBounded(Life(evs[..n], c, bloom), evs[n], c, Flag(evs[..n], bloom));
    }
  }

  /** In bytes. */
  lemma FilesWithinLimit(evs: seq<Event>, c: Config, bloom: bool, marshal: Entry -> Bytes, p: Path)
    requires forall i :: 0 <= i < |evs| && evs[i].op.MergePass? ==> evs[i].op.threshold <= 0
    requires var es := At(Life(evs, c, bloom).dir.files, p); |es| >= 2 && Sized(es, marshal, c.size)
    ensures var es := At(Life(evs, c, bloom).dir.files, p);
      Writable(Marshaled(es, marshal)) && |FileBytes(es, marshal)| <= c.limit
  {
    SegmentsBounded(evs, c, bloom);
    SizeIsBytes(At(Life(evs, c, bloom).dir.files, p), marshal, c.size);
  }

  /** A merge keeps the limit exactly if the entries that it puts into one file fit there. */
  lemma MergeBoundedIff(s: Store, i: nat, j: nat, size: Entry -> nat, limit: int)
    requires Quiet(s) && IsRun(s, i, j) && Bounded(s.dir.files, size, limit)
    ensures Bounded(MergedStore(s, i, j).dir.files, size, limit) <==>
      |Log(s.paths[i..j], s.dir.files)| < 2 || Size(Log(s.paths[i..j], s.dir.files), size) <= limit
  {
    var g := MergedStore(s, i, j).dir.files;
    MergedElsewhere(s, i, j, j);
    assert s.paths[i..j][0] == s.paths[i];
    assert forall p :: p in g && p != s.paths[i] ==> g[p] == At(s.dir.files, p);
  }

  /** In bytes, for a pass: only neighbours whose files are both shorter than the threshold are merged. */
  lemma MergesShortFiles(paths: seq<Path>, files: Contents, marshal: Entry -> Bytes, size: Entry -> nat, threshold: int,
    fault: seq<Path> -> MergeFault, k: nat)
    requires forall p :: p in paths ==> Sized(At(files, p), marshal, size)
    requires k < |paths| && paths[k] !in Plan(paths, SmallIn(files, size, threshold), fault)
    ensures 0 < k < |paths| - 1
    ensures forall p :: p in {paths[k - 1], paths[k]} ==>
      Writable(Marshaled(At(files, p), marshal)) && |FileBytes(At(files, p), marshal)| < threshold
  {
    MergesOnlySmall(paths, files, size, threshold, fault, k);
    SizeIsBytes(At(files, paths[k - 1]), marshal, size);
    SizeIsBytes(At(files, paths[k]), marshal, size);
  }
}
