/** The segment manager: active segment, path list, rotation and recovery, as it runs.

Every change of the directory goes through `Do`, one atomic change at a time, and is recorded in `changes`.
*/
module Managers {
  import opened Ordering
  import opened Entries
  import opened Index
  import opened Executor
  import opened Store
  import opened Filters

  method NextSeqFromMatches(matches: seq<Path>) returns (n: nat)
    ensures n == NextSeq(matches)
    ensures n == 1 || n - 1 in matches
    ensures n >= 1 && forall p :: p in matches ==> p <= n - 1
  {
    var max := 0;
    for i := 0 to |matches|
      invariant max + 1 == NextSeq(matches[..i])
      invariant max == 0 || max in matches[..i]
    {
      assert matches[..i + 1][..i] == matches[..i];
      TakeNext(matches, i);
      if matches[i] > max {
        max := matches[i];
      }
    }
    assert matches[..|matches|] == matches;
    n := max + 1;
  }

  /** The list without one path, in order. */
  method RemoveFrom(paths: seq<Path>, path: Path) returns (out: seq<Path>)
    ensures out == KeepPaths(paths, {path})
  {
    out := [];
    ghost var gone := {path};
    for i := 0 to |paths|
      invariant out == KeepPaths(paths[..i], gone)
    {
      KeepNext(paths, i, p => p !in gone);
      if paths[i] != path {
        out := out + [paths[i]];
      }
    }
    assert paths[..|paths|] == paths;
  }

  /** loadBlooms: the sidecars of these segments; one without a sidecar is left out. */
  method LoadBlooms(closed: seq<Path>, sidecars: map<Path, Bloom>) returns (blooms: map<Path, Bloom>)
    ensures forall p :: p in blooms <==> p in closed && p in sidecars
    ensures forall p :: p in blooms ==> blooms[p] == sidecars[p]
  {
    blooms := map[];
    for i := 0 to |closed|
      invariant forall p :: p in blooms <==> p in closed[..i] && p in sidecars
      invariant forall p :: p in blooms ==> blooms[p] == sidecars[p]
    {
      TakeNext(closed, i);
      if closed[i] in sidecars {
        blooms := blooms[closed[i] := sidecars[closed[i]]];
      }
    }
    assert closed[..|closed|] == closed;
  }

  /** NewManager's path list: the files by name, the active one moved to the end. */
  method ListFiles(dir: Dir) returns (paths: seq<Path>, next: nat)
    ensures next == NextSeq(SortedPaths(dir.files.Keys))
    ensures if dir.files.Keys == {} then paths == [] else Recover(dir) == Store(dir, paths, next) && paths != []
  {
    var matches := SortPaths(dir.files.Keys);
    SortedPathsIs(matches);
    EmptySet(matches);
    next := NextSeqFromMatches(matches);
    if dir.marker.Some? && dir.marker.value in dir.files {
      var rest := RemoveFrom(matches, dir.marker.value);
      return rest + [dir.marker.value], next;
    }
    if matches != [] {
      LastStays(matches);
    }
    paths := matches;
  }

  lemma LastStays(paths: seq<Path>)
    requires Ascending(paths, Below) && paths != []
    ensures KeepPaths(paths, {paths[|paths| - 1]}) + [paths[|paths| - 1]] == paths
  {
    var n := |paths| - 1;
    var gone := {paths[n]};
    forall i | 0 <= i < n ensures paths[i] !in gone {
      assert Below(paths[i], paths[n]);
    }
    KeepEverything(paths[..n], p => p !in gone);
    SplitLast(paths);
    AppendNone(paths[..n]);
  }

  class Manager {
    const size: Entry -> nat
    const limit: int
    const bloomEnabled: bool
    var dir: Dir
    var paths: seq<Path>
    var nextSeq: nat
    var blooms: map<Path, Bloom>

    /** Every change of the directory since the start, in order: a crash leaves it after some number of them. */
    var changes: seq<Change>

    function State(): Store
      reads this
    {
      Store(dir, paths, nextSeq)
    }

    /** Since the directory was `d0` and the record `c0`, exactly the changes `cs` were made. */
    ghost predicate Did(d0: Dir, c0: seq<Change>, cs: seq<Change>)
      reads this`dir, this`changes
    {
      dir == Ran(d0, cs) && changes == c0 + cs
    }

    /** One atomic change of the directory. */
    method Do(c: Change, ghost d0: Dir, ghost c0: seq<Change>, ghost cs: seq<Change>)
      requires Did(d0, c0, cs)
      modifies this`dir, this`changes
      ensures Did(d0, c0, cs + [c])
    {
      RanNext(d0, cs, c);
      Associate(c0, cs, [c]);
      dir := Changed(dir, c);
      changes := changes + [c];
    }

    constructor (dir: Dir, size: Entry -> nat, limit: int, bloomEnabled: bool)
      ensures State() == Recover(dir) && paths != [] && blooms == Loaded(State(), bloomEnabled)
      ensures this.size == size && this.limit == limit && this.bloomEnabled == bloomEnabled
      ensures Did(dir, [], StartChanges(dir))
    {
      this.size, this.limit, this.bloomEnabled := size, limit, bloomEnabled;
      var list, next := ListFiles(dir);
      this.dir, paths, nextSeq, blooms := dir, list, next, map[];
      changes := [];
      new;
      if list == [] {
        EmptySet(SortedPaths(dir.files.Keys));
        OpenNewSegment(dir, [], []);
        assert [] + [CreateSegment(1)] + [WriteMarker(1)] == StartChanges(dir);
      }
      LoadFilters();
    }

    method LoadFilters()
      requires paths != [] && blooms == map[]
      modifies this`blooms
      ensures blooms == Loaded(State(), bloomEnabled)
    {
      if bloomEnabled {
        blooms := LoadBlooms(paths[..|paths| - 1], dir.sidecars);
        LoadedIs(State(), blooms);
      }
    }

    method OpenNewSegment(ghost d0: Dir, ghost c0: seq<Change>, ghost cs: seq<Change>)
      requires Did(d0, c0, cs)
      modifies this`dir, this`paths, this`nextSeq, this`changes
      ensures State() == OpenNew(old(State()))
      ensures Did(d0, c0, cs + [CreateSegment(old(nextSeq))] + [WriteMarker(old(nextSeq))])
    {
      var name := nextSeq;
      Do(CreateSegment(name), d0, c0, cs);
      RanNext(d0, cs, CreateSegment(name));
      paths := paths + [name];
      nextSeq := nextSeq + 1;
      Do(WriteMarker(name), d0, c0, cs + [CreateSegment(name)]);
      RanNext(d0, cs + [CreateSegment(name)], WriteMarker(name));
    }

    /** rotate: with filters on, build the closing segment's filter and store it. */
    method Rotate()
      requires paths != []
      modifies this
      ensures State() == Rotated(old(State()), bloomEnabled)
      ensures Did(old(dir), old(changes), RotateChanges(old(State()), bloomEnabled))
      ensures blooms == Sealed(old(State()), old(blooms), bloomEnabled)
      ensures forall p :: p in blooms <==> p in old(blooms) || (bloomEnabled && p == Active(old(State())))
      ensures forall p :: p in blooms ==>
        blooms[p] == if bloomEnabled && p == Active(old(State())) then BloomTokens(At(old(dir).files, p)) else old(blooms)[p]
    {
      ghost var s, c0, cs := State(), changes, [];
      AppendNone(c0);
      var closing := paths[|paths| - 1];
      if bloomEnabled {
        var bf := BloomTokens(At(dir.files, closing));
        Do(WriteSidecar(closing, bf), s.dir, c0, cs);
        RanNext(s.dir, cs, WriteSidecar(closing, bf));
        cs := cs + [WriteSidecar(closing, bf)];
        blooms := blooms[closing := bf];
      }
      OpenNewSegment(s.dir, c0, cs);
      assert cs + [CreateSegment(s.nextSeq)] + [WriteMarker(s.nextSeq)] == RotateChanges(s, bloomEnabled);
    }

    /** AppendWithPath: the returned path is the segment that holds the entry. */
    method AppendWithPath(e: Entry) returns (path: Path)
      requires paths != []
      modifies this
      ensures State() == AppendTo(old(State()), e, size, limit, bloomEnabled)
      ensures Did(old(dir), old(changes), AppendChanges(old(State()), e, size, limit, bloomEnabled))
      ensures path == Active(State())
      ensures blooms == BloomsAfter(old(State()), old(blooms), e, size, limit, bloomEnabled)
    {
      ghost var s, c0 := State(), changes;
      MakeRoom(e);
      path := paths[|paths| - 1];
      Do(AppendRecord(path, e), s.dir, c0, RoomChanges(s, e, size, limit, bloomEnabled));
      AppendRuns(s, e, size, limit, bloomEnabled);
    }

    /** Rotate if the entry would exceed the limit. */
    method MakeRoom(e: Entry)
      requires paths != []
      modifies this
      ensures State() == WithRoom(old(State()), e, size, limit, bloomEnabled) && paths != []
      ensures Did(old(dir), old(changes), RoomChanges(old(State()), e, size, limit, bloomEnabled))
      ensures blooms == BloomsAfter(old(State()), old(blooms), e, size, limit, bloomEnabled)
    {
      AppendNone(changes);
      if Size(At(dir.files, paths[|paths| - 1]), size) + size(e) > limit {
        Rotate();
      }
    }

    /** The closed segments: all but the last. */
    method ListClosedSegments() returns (closed: seq<Path>)
      requires paths != []
      ensures closed == paths[..|paths| - 1]
    {
      if |paths| <= 1 {
        return [];
      }
      closed := paths[..|paths| - 1];
    }

    /** DeleteSegment: forget the path; the file stays. */
    method DeleteSegment(path: Path)
      modifies this`paths, this`blooms
      ensures paths == KeepPaths(old(paths), {path}) && blooms == old(blooms) - {path}
    {
      paths := RemoveFrom(paths, path);
      blooms := blooms - {path};
    }
  }

  /** The changes that a start makes: on a directory without segments, the first one is created. */
  function StartChanges(dir: Dir): seq<Change> {
    if dir.files.Keys == {} then [CreateSegment(1), WriteMarker(1)] else []
  }
}
