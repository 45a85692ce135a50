/** What the bloom filters of a store promise over its lifetime.

`FiltersSound` is the plain promise: every filter holds all tokens of its segment. A crash inside a merge can
break it. `FiltersServe` is what survives every crash: each entry not older than the last retention cutoff is in
some segment whose filter, if it has one, holds the entry's tokens.
*/
module Filters {
  import opened Ordering
  import opened Entries
  import opened Index
  import opened Executor
  import opened Store

  // ------------------------------------------------------------ the promises

  /** Loaded filters and, with filters on, stored sidecars of closed segments hold their segments' tokens. */
  ghost predicate FiltersSound(s: Store, blooms: map<Path, Bloom>, bloom: bool)
    requires s.paths != []
  {
    && Closed(s, blooms) && Full(s.dir.files, blooms)
    && (if bloom then SidecarsSound(s.dir, Active(s)) else blooms == map[])
  }

  /** Filters are loaded for closed segments only. */
  ghost predicate Closed(s: Store, blooms: map<Path, Bloom>)
    requires s.paths != []
  {
    Active(s) !in blooms && blooms.Keys <= s.dir.files.Keys
  }

  ghost predicate Full(files: Contents, blooms: map<Path, Bloom>) {
    forall p :: p in blooms ==> BloomTokens(At(files, p)) <= blooms[p]
  }

  /** The sidecar of the active segment does not matter: it is rewritten before the segment is closed. */
  ghost predicate SidecarsSound(dir: Dir, active: Path) {
    Full(dir.files, dir.sidecars - {active})
  }

  /** Not older than the last retention cutoff, if there was one. */
  ghost predicate Recent(e: Entry, horizon: Option<int>) {
    horizon.Some? ==> e.timestamp >= horizon.value
  }

  ghost predicate Due(files: Contents, p: Path, e: Entry, horizon: Option<int>) {
    e in At(files, p) && Recent(e, horizon)
  }

  ghost predicate Serves(files: Contents, blooms: map<Path, Bloom>, horizon: Option<int>) {
    forall p, e :: Due(files, p, e, horizon) ==> Found(e, files, blooms)
  }

  ghost predicate FiltersServe(s: Store, blooms: map<Path, Bloom>, bloom: bool, horizon: Option<int>)
    requires s.paths != []
  {
    && Closed(s, blooms) && Serves(s.dir.files, blooms, horizon)
    && (if bloom then SidecarsServe(s.dir, Active(s), horizon) else blooms == map[])
  }

  ghost predicate SidecarsServe(dir: Dir, active: Path, horizon: Option<int>) {
    Serves(dir.files, dir.sidecars - {active}, horizon)
  }

  lemma FullServes(files: Contents, blooms: map<Path, Bloom>, horizon: Option<int>)
    requires Full(files, blooms)
    ensures Serves(files, blooms, horizon)
  {
    forall p, e | Due(files, p, e, horizon) ensures Found(e, files, blooms) {
      assert forall t :: t in TokenizeEntry(e) ==> t in BloomTokens(At(files, p));
      assert FoundAt(e, files, blooms, p);
    }
  }

  /** Sound filters serve everything. */
  lemma SoundServes(s: Store, blooms: map<Path, Bloom>, bloom: bool, horizon: Option<int>)
    requires s.paths != [] && FiltersSound(s, blooms, bloom)
    ensures FiltersServe(s, blooms, bloom, horizon)
  {
    FullServes(s.dir.files, blooms, horizon);
    if bloom {
      FullServes(s.dir.files, s.dir.sidecars - {Active(s)}, horizon);
    }
  }

  /** Without a horizon, serving is covering. */
  lemma ServesCovers(files: Contents, blooms: map<Path, Bloom>)
    requires Serves(files, blooms, None)
    ensures Covered(files, blooms)
  {
    forall e | e in EntriesOf(files) ensures Found(e, files, blooms) {
      var p :| p in files && e in files[p];
      assert Due(files, p, e, None);
    }
  }

  /** Segments lose no entry, gain entries only where no filter is, and filters change only to full ones. */
  ghost predicate Grown(f: Contents, F: map<Path, Bloom>, g: Contents, G: map<Path, Bloom>) {
    && (forall p, e :: e in At(f, p) ==> e in At(g, p))
    && (forall p :: p in G ==> BloomTokens(At(g, p)) <= G[p] || (p in F && F[p] == G[p] && At(g, p) == At(f, p)))
    && (forall p, e :: e in At(g, p) && e !in At(f, p) ==> p !in G)
  }

  lemma GrownKeeps(f: Contents, F: map<Path, Bloom>, g: Contents, G: map<Path, Bloom>, horizon: Option<int>)
    requires Grown(f, F, g, G)
    ensures Full(f, F) ==> Full(g, G)
    ensures Serves(f, F, horizon) ==> Serves(g, G, horizon)
  {
    if Serves(f, F, horizon) {
      forall p, e | Due(g, p, e, horizon) ensures Found(e, g, G) {
        if e in At(f, p) {
          assert Due(f, p, e, horizon);
          var q :| FoundAt(e, f, F, q);
          assert e in At(g, q) && forall t :: t in TokenizeEntry(e) ==> t in BloomTokens(At(g, q));
          assert FoundAt(e, g, G, q);
        } else {
          assert FoundAt(e, g, G, p);
        }
      }
    }
  }

  // ----------------------------------------------------------------- appends

  lemma ExtendKeeps(s: Store, blooms: map<Path, Bloom>, bloom: bool, e: Entry, horizon: Option<int>)
    requires s.paths != []
    ensures var t := s.(dir := Changed(s.dir, AppendRecord(Active(s), e)));
      && (FiltersSound(s, blooms, bloom) ==> FiltersSound(t, blooms, bloom))
      && (FiltersServe(s, blooms, bloom, horizon) ==> FiltersServe(t, blooms, bloom, horizon))
  {
    var f := s.dir.files;
    if Active(s) !in blooms {
      ExtendedServes(f, blooms, Active(s), e, horizon);
    }
    ExtendedServes(f, s.dir.sidecars - {Active(s)}, Active(s), e, horizon);
  }

  lemma ExtendedServes(f: Contents, F: map<Path, Bloom>, p: Path, e: Entry, horizon: Option<int>)
    requires p !in F
    ensures Full(f, F) ==> Full(Extended(f, p, e), F)
    ensures Serves(f, F, horizon) ==> Serves(Extended(f, p, e), F, horizon)
  {
    var g := Extended(f, p, e);
    assert Grown(f, F, g, F);
    GrownKeeps(f, F, g, F, horizon);
  }

  /** The filter that rotation loads for the closing segment. */
  function Sealed(s: Store, blooms: map<Path, Bloom>, bloom: bool): map<Path, Bloom>
    requires s.paths != []
  {
    if bloom then blooms[Active(s) := BloomTokens(At(s.dir.files, Active(s)))] else blooms
  }

  /** The loaded filters after an append: rotation adds the closing segment's. */
  function BloomsAfter(s: Store, blooms: map<Path, Bloom>, e: Entry, size: Entry -> nat, limit: int, bloom: bool): map<Path, Bloom>
    requires s.paths != []
  {
    if Size(At(s.dir.files, Active(s)), size) + size(e) > limit then Sealed(s, blooms, bloom) else blooms
  }

  lemma NewFile(s: Store, bloom: bool)
    requires Quiet(s)
    ensures s.nextSeq !in s.dir.files && Active(s) in s.dir.files && Active(s) != s.nextSeq
    ensures forall p :: At(Rotated(s, bloom).dir.files, p) == At(s.dir.files, p)
    ensures Rotated(s, bloom).dir.files.Keys == s.dir.files.Keys + {s.nextSeq} && Active(Rotated(s, bloom)) == s.nextSeq
  {
    assert s.nextSeq !in ToSet(s.paths) && Active(s) in ToSet(s.paths);
  }

  lemma RotateLoaded(s: Store, blooms: map<Path, Bloom>, bloom: bool, horizon: Option<int>)
    requires Quiet(s)
    ensures var f, g, now := s.dir.files, Rotated(s, bloom).dir.files, Sealed(s, blooms, bloom);
      && (Closed(s, blooms) ==> Closed(Rotated(s, bloom), now))
      && (Full(f, blooms) ==> Full(g, now)) && (Serves(f, blooms, horizon) ==> Serves(g, now, horizon))
  {
    NewFile(s, bloom);
    var f, g, now := s.dir.files, Rotated(s, bloom).dir.files, Sealed(s, blooms, bloom);
    assert Grown(f, blooms, g, now);
    GrownKeeps(f, blooms, g, now, horizon);
  }

  lemma RotateSidecars(s: Store, horizon: Option<int>)
    requires Quiet(s)
    ensures var t := Rotated(s, true);
      && (SidecarsSound(s.dir, Active(s)) ==> SidecarsSound(t.dir, Active(t)))
      && (SidecarsServe(s.dir, Active(s), horizon) ==> SidecarsServe(t.dir, Active(t), horizon))
  {
    NewFile(s, true);
    var t := Rotated(s, true);
    var side, now := s.dir.sidecars - {Active(s)}, t.dir.sidecars - {Active(t)};
    assert t.dir.sidecars == s.dir.sidecars[Active(s) := BloomTokens(At(s.dir.files, Active(s)))];
    assert Grown(s.dir.files, side, t.dir.files, now);
    GrownKeeps(s.dir.files, side, t.dir.files, now, horizon);
  }

  /** Rotation keeps the filters' promises: the new one is built from the whole closing segment. */
  lemma RotateKeeps(s: Store, blooms: map<Path, Bloom>, bloom: bool, horizon: Option<int>)
    requires Quiet(s)
    ensures FiltersSound(s, blooms, bloom) ==> FiltersSound(Rotated(s, bloom), Sealed(s, blooms, bloom), bloom)
    ensures FiltersServe(s, blooms, bloom, horizon) ==> FiltersServe(Rotated(s, bloom), Sealed(s, blooms, bloom), bloom, horizon)
  {
    RotateLoaded(s, blooms, bloom, horizon);
    if bloom {
      RotateSidecars(s, horizon);
    }
  }

  /** Appends keep the filters' promises. */
  lemma AppendKeeps(s: Store, blooms: map<Path, Bloom>, e: Entry, size: Entry -> nat, limit: int, bloom: bool, horizon: Option<int>)
    requires Quiet(s)
    ensures var t, now := AppendTo(s, e, size, limit, bloom), BloomsAfter(s, blooms, e, size, limit, bloom);
      && (FiltersSound(s, blooms, bloom) ==> FiltersSound(t, now, bloom))
      && (FiltersServe(s, blooms, bloom, horizon) ==> FiltersServe(t, now, bloom, horizon))
  {
    if Size(At(s.dir.files, Active(s)), size) + size(e) > limit {
      RotateKeeps(s, blooms, bloom, horizon);
      ExtendKeeps(Rotated(s, bloom), Sealed(s, blooms, bloom), bloom, e, horizon);
    } else {
      ExtendKeeps(s, blooms, bloom, e, horizon);
    }
  }

  // ---------------------------------------------------------------- restarts

  /** NewManager loads the sidecars of all listed segments but the active one. */
  function Loaded(s: Store, bloom: bool): map<Path, Bloom>
    requires s.paths != []
  {
    if bloom then map p | p in s.paths[..|s.paths| - 1] && p in s.dir.sidecars :: s.dir.sidecars[p] else map[]
  }

  lemma LoadedIs(s: Store, blooms: map<Path, Bloom>)
    requires s.paths != [] && forall p :: p in blooms <==> p in s.paths[..|s.paths| - 1] && p in s.dir.sidecars
    requires forall p :: p in blooms ==> blooms[p] == s.dir.sidecars[p]
    ensures blooms == Loaded(s, true)
  {
  }

  lemma LoadedKeeps(s: Store, bloom: bool, horizon: Option<int>)
    requires Quiet(s)
    ensures (bloom ==> SidecarsSound(s.dir, Active(s))) ==> FiltersSound(s, Loaded(s, bloom), bloom)
    ensures (bloom ==> SidecarsServe(s.dir, Active(s), horizon)) ==> FiltersServe(s, Loaded(s, bloom), bloom, horizon)
  {
    var now, n := Loaded(s, bloom), |s.paths| - 1;
    forall p | p in now ensures p in s.dir.files && p != Active(s) {
      var i :| 0 <= i < n && s.paths[i] == p;
      assert s.paths[i] != s.paths[n] && p in ToSet(s.paths);
    }
    if bloom {
      LoadedServes(s, now, horizon);
    } else {
      FullServes(s.dir.files, now, horizon);
    }
  }

  lemma LoadedServes(s: Store, now: map<Path, Bloom>, horizon: Option<int>)
    requires s.paths != [] && Closed(s, now) && forall p :: p in now ==> p in s.dir.sidecars && now[p] == s.dir.sidecars[p]
    ensures SidecarsServe(s.dir, Active(s), horizon) ==> Serves(s.dir.files, now, horizon)
  {
    var side := s.dir.sidecars - {Active(s)};
    if SidecarsServe(s.dir, Active(s), horizon) {
      forall p, e | Due(s.dir.files, p, e, horizon) ensures Found(e, s.dir.files, now) {
        var q :| FoundAt(e, s.dir.files, side, q);
        assert FoundAt(e, s.dir.files, now, q);
      }
    }
  }

  /** A crash anywhere in a rotation: restart finds the log, and sidecars that keep the promises. */
  lemma RotateCrashKeeps(s: Store, bloom: bool, stage: nat, horizon: Option<int>)
    requires Quiet(s)
    ensures var r := Recover(RotateDir(s, bloom, stage));
      && r.dir == RotateDir(s, bloom, stage) && Quiet(r) && StoreLog(r) == StoreLog(s)
      && (bloom && SidecarsSound(s.dir, Active(s)) ==> SidecarsSound(r.dir, Active(r)))
      && (bloom && SidecarsServe(s.dir, Active(s), horizon) ==> SidecarsServe(r.dir, Active(r), horizon))
  {
    RotateCrashKeepsLog(s, bloom, stage);
    if bloom {
      RotateDirSidecars(s, stage, Active(Recover(RotateDir(s, bloom, stage))), horizon);
    }
  }

  lemma RotateDirSidecars(s: Store, stage: nat, a: Path, horizon: Option<int>)
    requires Quiet(s) && (a == Active(s) || a == s.nextSeq)
    ensures var d := RotateDir(s, true, stage);
      && (SidecarsSound(s.dir, Active(s)) ==> SidecarsSound(d, a))
      && (SidecarsServe(s.dir, Active(s), horizon) ==> SidecarsServe(d, a, horizon))
  {
    var d := RotateDir(s, true, stage);
    RotateDirFiles(s, stage);
    if a == Active(s) {
      assert d.sidecars - {a} == s.dir.sidecars - {a};
      SameFiles(s.dir.files, d.files, s.dir.sidecars - {a}, horizon);
    } else {
      RotateSidecars(s, horizon);
      SameFiles(Rotated(s, true).dir.files, d.files, d.sidecars - {a}, horizon);
    }
  }

  lemma RotateDirFiles(s: Store, stage: nat)
    requires Quiet(s)
    ensures var d := RotateDir(s, true, stage);
      && d.sidecars == Rotated(s, true).dir.sidecars == s.dir.sidecars[Active(s) := BloomTokens(At(s.dir.files, Active(s)))]
      && (forall p :: At(d.files, p) == At(s.dir.files, p)) && forall p :: At(d.files, p) == At(Rotated(s, true).dir.files, p)
  {
    NewFile(s, true);
  }

  lemma SameFiles(f: Contents, g: Contents, blooms: map<Path, Bloom>, horizon: Option<int>)
    requires forall p :: At(g, p) == At(f, p)
    ensures Full(f, blooms) ==> Full(g, blooms)
    ensures Serves(f, blooms, horizon) ==> Serves(g, blooms, horizon)
  {
    assert Grown(f, blooms, g, blooms);
    GrownKeeps(f, blooms, g, blooms, horizon);
  }

  /** What a crash in an append can leave behind: a directory from which restart finds the log without or with
      the entry, and sidecars that keep the promises. */
  lemma AppendCrashKeeps(s: Store, e: Entry, size: Entry -> nat, limit: int, bloom: bool, k: nat, horizon: Option<int>)
    requires Quiet(s) && k <= |AppendChanges(s, e, size, limit, bloom)|
    ensures var d := Ran(s.dir, AppendChanges(s, e, size, limit, bloom)[..k]); var r := Recover(d);
      && r.dir == d && Quiet(r) && (StoreLog(r) == StoreLog(s) || StoreLog(r) == StoreLog(s) + [e])
      && (bloom && SidecarsSound(s.dir, Active(s)) ==> SidecarsSound(r.dir, Active(r)))
      && (bloom && SidecarsServe(s.dir, Active(s), horizon) ==> SidecarsServe(r.dir, Active(r), horizon))
  {
    var d := Ran(s.dir, AppendChanges(s, e, size, limit, bloom)[..k]);
    AppendCut(s, e, size, limit, bloom, k);
    if d == s.dir {
      RestartExact(s);
    } else if d == AppendTo(s, e, size, limit, bloom).dir {
      AppendExact(s, e, size, limit, bloom);
      RestartExact(AppendTo(s, e, size, limit, bloom));
      AppendSidecars(s, e, size, limit, bloom, horizon);
    } else {
      var stage :| 0 <= stage <= 2 && d == RotateDir(s, bloom, stage);
      RotateCrashKeeps(s, bloom, stage, horizon);
    }
  }

  lemma AppendSidecars(s: Store, e: Entry, size: Entry -> nat, limit: int, bloom: bool, horizon: Option<int>)
    requires Quiet(s)
    ensures var t := AppendTo(s, e, size, limit, bloom);
      && (bloom && SidecarsSound(s.dir, Active(s)) ==> SidecarsSound(t.dir, Active(t)))
      && (bloom && SidecarsServe(s.dir, Active(s), horizon) ==> SidecarsServe(t.dir, Active(t), horizon))
  {
    if bloom {
      LoadedKeeps(s, true, horizon);
      AppendKeeps(s, Loaded(s, true), e, size, limit, true, horizon);
    }
  }

  /** A restart between operations loads filters that keep the promises. */
  lemma RestartKeeps(s: Store, bloom: bool, horizon: Option<int>)
    requires Quiet(s)
    ensures var r := Recover(s.dir);
      && ((bloom ==> SidecarsSound(s.dir, Active(s))) ==> FiltersSound(r, Loaded(r, bloom), bloom))
      && ((bloom ==> SidecarsServe(s.dir, Active(s), horizon)) ==> FiltersServe(r, Loaded(r, bloom), bloom, horizon))
  {
    RestartExact(s);
    LoadedKeeps(Recover(s.dir), bloom, horizon);
  }
}
