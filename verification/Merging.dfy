/** Merges and retention on the store as values: what they and their crashes leave of the log. */
module Merging {
  import opened Ordering
  import opened Entries
  import opened Index
  import opened Executor
  import opened Store

  // ------------------------------------------------------------- slices

  lemma RunTail<T>(s: seq<T>, i: nat, m: nat, j: nat)
    requires i < m <= j <= |s|
    ensures s[i..j][1..m - i] == s[i + 1..m] && s[i..j][0] == s[i]
  {
    assert s[i..j] == [s[i]] + s[i + 1..m] + s[m..j];
  }

  lemma CutParts<T>(s: seq<T>, i: nat, m: nat, j: nat)
    requires i < m <= j <= |s|
    ensures s[..i + 1] + s[m..] == s[..i] + [s[i]] + s[m..j] + s[j..]
  {
  }

  lemma RunParts<T>(s: seq<T>, i: nat, m: nat, j: nat)
    requires i <= m <= j <= |s|
    ensures s[i..j] == s[i..m] + s[m..j]
  {
  }

  lemma ThreeParts<T>(s: seq<T>, i: nat, j: nat)
    requires i <= j <= |s|
    ensures s == s[..i] + s[i..j] + s[j..]
  {
    assert s == s[..j] + s[j..] && s[..j] == s[..i] + s[i..j];
  }

  lemma RunHeadApart(paths: seq<Path>, i: nat, m: nat)
    requires Distinct(paths) && i < m <= |paths|
    ensures paths[i] !in paths[i + 1..m]
  {
  }

  lemma OutsideApart(paths: seq<Path>, i: nat, m: nat, a: nat)
    requires Distinct(paths) && i < m <= |paths| && a < |paths| && (a < i || m <= a)
    ensures paths[a] != paths[i] && paths[a] !in paths[i + 1..m]
  {
    assert a < i ==> paths[a] != paths[i];
    forall b | i < b < m ensures paths[b] != paths[a] {
    }
  }

  /** The list without the places after i and before k. */
  lemma CutList(paths: seq<Path>, i: nat, k: nat)
    requires Distinct(paths) && i < k <= |paths|
    ensures var q := paths[..i + 1] + paths[k..];
      && Distinct(q) && ToSet(q) == ToSet(paths) - ToSet(paths[i + 1..k])
      && exists m :: Embeds(q, paths, m)
  {
    var q := paths[..i + 1] + paths[k..];
    var m := seq(|q|, a requires 0 <= a < |q| => if a <= i then a else a - i - 1 + k);
    assert Embeds(q, paths, m);
    forall a, b | 0 <= a < b < |q| ensures q[a] != q[b] {
      assert m[a] < m[b];
    }
    CutMembers(paths, i, k);
  }

  lemma CutMembers(paths: seq<Path>, i: nat, k: nat)
    requires Distinct(paths) && i < k <= |paths|
    ensures ToSet(paths[..i + 1] + paths[k..]) == ToSet(paths) - ToSet(paths[i + 1..k])
  {
    ThreeParts(paths, i + 1, k);
    ToSetConcat(paths[..i + 1] + paths[i + 1..k], paths[k..]);
    ToSetConcat(paths[..i + 1], paths[i + 1..k]);
    ToSetConcat(paths[..i + 1], paths[k..]);
    forall a | i + 1 <= a < k ensures paths[a] !in paths[..i + 1] && paths[a] !in paths[k..] {
    }
  }

  // ------------------------------------------------------- a complete merge

  lemma Log4(a: seq<Path>, b: seq<Path>, c: seq<Path>, d: seq<Path>, f: Contents)
    ensures Log(a + b + c + d, f) == Log(a, f) + Log(b, f) + Log(c, f) + Log(d, f)
  {
    LogConcat(a + b + c, d, f);
    LogConcat(a + b, c, f);
    LogConcat(a, b, f);
  }

  lemma CutLog(paths: seq<Path>, i: nat, m: nat, j: nat, f: Contents, g: Contents)
    requires i < m <= j <= |paths|
    requires forall a :: 0 <= a < i ==> At(g, paths[a]) == At(f, paths[a])
    requires forall a :: m <= a < |paths| ==> At(g, paths[a]) == At(f, paths[a])
    ensures Log(paths[..i + 1] + paths[m..], g) ==
      Log(paths[..i], f) + At(g, paths[i]) + Log(paths[m..j], f) + Log(paths[j..], f)
  {
    CutParts(paths, i, m, j);
    PartsLog(paths[..i], paths[i], paths[m..j], paths[j..], f, g);
  }

  lemma PartsLog(a: seq<Path>, p: Path, c: seq<Path>, d: seq<Path>, f: Contents, g: Contents)
    requires forall i :: 0 <= i < |a| ==> At(g, a[i]) == At(f, a[i])
    requires forall i :: 0 <= i < |c| ==> At(g, c[i]) == At(f, c[i])
    requires forall i :: 0 <= i < |d| ==> At(g, d[i]) == At(f, d[i])
    ensures Log(a + [p] + c + d, g) == Log(a, f) + At(g, p) + Log(c, f) + Log(d, f)
  {
    LogSame(a, f, g);
    LogSame(c, f, g);
    LogSame(d, f, g);
    LogOne(p, g);
    Log4(a, [p], c, d, g);
  }

  lemma RunLog(s: Store, i: nat, j: nat)
    requires i < j <= |s.paths|
    ensures StoreLog(s) == var f := s.dir.files; Log(s.paths[..i], f) + Log(s.paths[i..j], f) + Log(s.paths[j..], f)
  {
    ThreeParts(s.paths, i, j);
    LogConcat(s.paths[..i] + s.paths[i..j], s.paths[j..], s.dir.files);
    LogConcat(s.paths[..i], s.paths[i..j], s.dir.files);
  }

  lemma MergedElsewhere(s: Store, i: nat, j: nat, m: nat)
    requires Quiet(s) && IsRun(s, i, j) && i < m <= j
    ensures var g := MergedFiles(s.dir.files, s.paths[i..j], m - i);
      && At(g, s.paths[i]) == Log(s.paths[i..j], s.dir.files)
      && (forall a :: 0 <= a < i ==> At(g, s.paths[a]) == At(s.dir.files, s.paths[a]))
      && (forall a :: m <= a < |s.paths| ==> At(g, s.paths[a]) == At(s.dir.files, s.paths[a]))
      && (forall a :: i < a < m ==> At(g, s.paths[a]) == [])
  {
    RunTail(s.paths, i, m, j);
    RunHeadApart(s.paths, i, m);
    forall a | 0 <= a < |s.paths| && (a < i || m <= a) ensures s.paths[a] != s.paths[i] && s.paths[a] !in s.paths[i + 1..m] {
      OutsideApart(s.paths, i, m, a);
    }
  }

  lemma MergedKeys(files: Contents, run: seq<Path>, k: nat)
    requires 1 <= k <= |run|
    ensures run[0] in files.Keys ==> MergedFiles(files, run, k).Keys == files.Keys - ToSet(run[1..k])
  {
  }

  /** If anything after the run has a smaller number than the run's first segment, the whole run is empty. */
  lemma RunBeforeRest(s: Store, i: nat, j: nat, k: nat)
    requires Quiet(s) && i < j <= k < |s.paths| && s.paths[k] < s.paths[i]
    ensures Log(s.paths[i..j], s.dir.files) == []
  {
    var f := s.dir.files;
    forall a | i <= a < j ensures At(f, s.paths[a]) == [] {
      assert PairOk(s.paths, f, i, k) && PairOk(s.paths, f, a, k) && TripleOk(s.paths, i, a, k);
    }
    EmptyLog(s.paths[i..j], f);
  }

  lemma {:induction false} EmptyLog(paths: seq<Path>, f: Contents)
    requires forall p :: p in paths ==> At(f, p) == []
    ensures Log(paths, f) == []
  {
    if paths != [] {
      SplitLast(paths);
      EmptyLog(paths[..|paths| - 1], f);
    }
  }

  /** A sublist stays orderly when only the element at place c gains entries, and nothing smaller follows it. */
  lemma OrderlyExcept(q: seq<Path>, paths: seq<Path>, m: seq<nat>, f: Contents, g: Contents, c: nat)
    requires Orderly(paths, f) && Embeds(q, paths, m) && c < |q|
    requires forall a :: 0 <= a < |q| && a != c && At(f, q[a]) == [] ==> At(g, q[a]) == []
    requires forall b :: c < b < |q| && q[b] < q[c] ==> At(g, q[c]) == []
    requires Distinct(q)
    ensures Orderly(q, g)
  {
    forall a: nat, b: nat | a < b < |q| ensures PairOk(q, g, a, b) {
      assert Below(m[a], m[b]) && PairOk(paths, f, m[a], m[b]);
      assert q[a] != q[b];
    }
    forall a: nat, b: nat, d: nat | a < b < d < |q| ensures TripleOk(q, a, b, d) {
      assert Below(m[a], m[b]) && Below(m[b], m[d]) && TripleOk(paths, m[a], m[b], m[d]);
    }
  }

  lemma NothingBefore(s: Store, i: nat, j: nat, b: nat)
    requires Quiet(s) && IsRun(s, i, j)
    requires var q := s.paths[..i + 1] + s.paths[j..]; i < b < |q| && q[b] < q[i]
    ensures Log(s.paths[i..j], s.dir.files) == []
  {
    RunBeforeRest(s, i, j, b - i - 1 + j);
  }

  lemma MergedOrderly(s: Store, i: nat, j: nat)
    requires Quiet(s) && IsRun(s, i, j)
    ensures Orderly(s.paths[..i + 1] + s.paths[j..], MergedFiles(s.dir.files, s.paths[i..j], j - i))
  {
    var q, f, g := s.paths[..i + 1] + s.paths[j..], s.dir.files, MergedFiles(s.dir.files, s.paths[i..j], j - i);
    CutList(s.paths, i, j);
    var m :| Embeds(q, s.paths, m);
    forall b | i < b < |q| && q[b] < q[i] ensures At(g, q[i]) == [] {
      NothingBefore(s, i, j, b);
      MergedHead(s, i, j, j);
    }
    MergedOthers(s, i, j);
    OrderlyExcept(q, s.paths, m, f, g, i);
  }

  lemma MergedOthers(s: Store, i: nat, j: nat)
    requires Quiet(s) && IsRun(s, i, j)
    ensures var q, g := s.paths[..i + 1] + s.paths[j..], MergedFiles(s.dir.files, s.paths[i..j], j - i);
      forall a :: 0 <= a < |q| && a != i ==> At(g, q[a]) == At(s.dir.files, q[a])
  {
    MergedElsewhere(s, i, j, j);
    MergedSame(s.paths, i, j, s.dir.files, MergedFiles(s.dir.files, s.paths[i..j], j - i));
  }

  lemma MergedSame(paths: seq<Path>, i: nat, j: nat, f: Contents, g: Contents)
    requires i < j <= |paths|
    requires forall a :: 0 <= a < i ==> At(g, paths[a]) == At(f, paths[a])
    requires forall a :: j <= a < |paths| ==> At(g, paths[a]) == At(f, paths[a])
    ensures var q := paths[..i + 1] + paths[j..]; forall a :: 0 <= a < |q| && a != i ==> At(g, q[a]) == At(f, q[a])
  {
    var q := paths[..i + 1] + paths[j..];
    forall a | 0 <= a < |q| && a != i ensures At(g, q[a]) == At(f, q[a]) {
      assert q[a] == paths[if a < i then a else a - i - 1 + j];
    }
  }

  lemma MergedListed(s: Store, i: nat, j: nat)
    requires Quiet(s) && IsRun(s, i, j)
    ensures var q := s.paths[..i + 1] + s.paths[j..];
      && Distinct(q) && ToSet(q) == MergedFiles(s.dir.files, s.paths[i..j], j - i).Keys <= ToSet(s.paths)
      && q[|q| - 1] == Active(s)
  {
    CutList(s.paths, i, j);
    RunTail(s.paths, i, j, j);
    assert s.paths[i] in ToSet(s.paths);
    MergedKeys(s.dir.files, s.paths[i..j], j - i);
  }

  lemma MergeQuiet(s: Store, i: nat, j: nat)
    requires Quiet(s) && IsRun(s, i, j)
    ensures Quiet(MergedStore(s, i, j))
  {
    MergedOrderly(s, i, j);
    MergedListed(s, i, j);
    QuietFrom(s, MergedStore(s, i, j));
  }

  /** A store with fewer files, the same active segment and an orderly list is quiet. */
  lemma QuietFrom(s: Store, t: Store)
    requires Quiet(s) && t.paths != [] && Distinct(t.paths) && ToSet(t.paths) == t.dir.files.Keys <= ToSet(s.paths)
    requires Orderly(t.paths, t.dir.files) && Active(t) == Active(s) && t.dir.marker == s.dir.marker && t.nextSeq == s.nextSeq
    ensures Quiet(t)
  {
    assert Active(t) in ToSet(t.paths);
    assert forall p :: p in t.paths ==> p in ToSet(t.paths);
    assert forall p :: p in ToSet(s.paths) ==> p in s.paths;
  }

  lemma MergeLog(s: Store, i: nat, j: nat)
    requires Quiet(s) && IsRun(s, i, j)
    ensures Log(s.paths[..i + 1] + s.paths[j..], MergedFiles(s.dir.files, s.paths[i..j], j - i)) == StoreLog(s)
  {
    var f, g := s.dir.files, MergedFiles(s.dir.files, s.paths[i..j], j - i);
    MergedElsewhere(s, i, j, j);
    CutLog(s.paths, i, j, j, f, g);
    RunLog(s, i, j);
    DropEmpty(Log(s.paths[..i], f), Log(s.paths[i..j], f), Log(s.paths[j..j], f), Log(s.paths[j..], f));
  }

  lemma DropEmpty(a: seq<Entry>, b: seq<Entry>, e: seq<Entry>, c: seq<Entry>)
    requires e == []
    ensures a + b + e + c == a + b + c
  {
  }

  /** A complete merge changes neither the log nor the quiet state. */
  lemma MergeExact(s: Store, i: nat, j: nat)
    requires Quiet(s) && IsRun(s, i, j)
    ensures Quiet(MergedStore(s, i, j)) && StoreLog(MergedStore(s, i, j)) == StoreLog(s)
  {
    MergeQuiet(s, i, j);
    MergeLog(s, i, j);
  }

  // --------------------------------------------------- a merge cut short

  /** The non-empty segments before the run, of the run from place m on, and after it. */
  ghost predicate Parts(s: Store, i: nat, m: nat, j: nat, b: seq<Path>, d: seq<Path>, r: seq<Path>)
    requires i < m <= j <= |s.paths|
  {
    && b == Busy(s.paths[..i], s.dir.files)
    && d == Busy(s.paths[m..j], s.dir.files)
    && r == Busy(s.paths[j..], s.dir.files)
  }

  lemma TwoParts(paths: seq<Path>, m: nat, j: nat)
    requires m <= j <= |paths|
    ensures paths[m..] == paths[m..j] + paths[j..]
  {
  }

  lemma BusyParts(paths: seq<Path>, i: nat, m: nat, j: nat, f: Contents)
    requires i <= m <= j <= |paths|
    ensures Busy(paths, f) == Busy(paths[..i], f) + Busy(paths[i..m], f) + (Busy(paths[m..j], f) + Busy(paths[j..], f))
  {
    ThreeParts(paths, i, m);
    BusyConcat(paths[..i] + paths[i..m], paths[m..], f);
    BusyConcat(paths[..i], paths[i..m], f);
    TwoParts(paths, m, j);
    BusyConcat(paths[m..j], paths[j..], f);
  }

  lemma PartsAscending(s: Store, i: nat, m: nat, j: nat, b: seq<Path>, d: seq<Path>, r: seq<Path>)
    requires Quiet(s) && i < m <= j <= |s.paths| && Parts(s, i, m, j, b, d, r)
    ensures Ascending(b + (d + r), Below)
  {
    BusyParts(s.paths, i, m, j, s.dir.files);
    BusyOrder(s.paths, s.dir.files);
    AscendingCut(b, Busy(s.paths[i..m], s.dir.files), d + r, Below);
  }

  /** What is left of the run and not empty comes after the run's first segment, except at most the first. */
  lemma LeftOfRun(s: Store, i: nat, m: nat, j: nat, b: seq<Path>, d: seq<Path>, r: seq<Path>)
    requires Quiet(s) && i < m <= j < |s.paths| && Parts(s, i, m, j, b, d, r)
    ensures forall p :: p in b ==> p < s.paths[i]
    ensures forall p :: p in r && Log(s.paths[i..j], s.dir.files) != [] ==> s.paths[i] < p
    ensures d != [] ==> forall p :: p in d[1..] ==> s.paths[i] < p
    ensures forall p :: p in d ==> p != s.paths[i]
  {
    var f, x := s.dir.files, s.paths[i];
    BusyMembers(s.paths[..i], f);
    BusyMembers(s.paths[j..], f);
    BusyMembers(s.paths[m..j], f);
    forall p | p in b ensures p < x {
      var a :| 0 <= a < i && s.paths[a] == p;
      assert PairOk(s.paths, f, a, i);
    }
    forall p | p in r && Log(s.paths[i..j], f) != [] ensures x < p {
      var k :| j <= k < |s.paths| && s.paths[k] == p;
      if s.paths[k] < s.paths[i] {
        RunBeforeRest(s, i, j, k);
      }
    }
    if d != [] {
      LeftBehind(s, i, m, j);
    }
  }

  lemma LeftBehind(s: Store, i: nat, m: nat, j: nat)
    requires Quiet(s) && i < m <= j <= |s.paths| && Busy(s.paths[m..j], s.dir.files) != []
    ensures forall p :: p in Busy(s.paths[m..j], s.dir.files)[1..] ==> s.paths[i] < p
  {
    var f, part := s.dir.files, s.paths[m..j];
    var d := Busy(part, f);
    var e := KeepEmbeds(part, p => At(f, p) != []);
    forall z | 1 <= z < |d| ensures s.paths[i] < d[z] {
      assert Below(e[0], e[z]);
      assert d[0] == s.paths[m + e[0]] && d[z] == s.paths[m + e[z]];
      BusyOrder(s.paths, f);
      assert TripleOk(s.paths, i, m + e[0], m + e[z]);
      BusyMembers(part, f);
      assert d[0] in d && PairOk(s.paths, f, m + e[0], m + e[z]);
    }
  }

  /** If one comes before it, the part of the run already gone was empty. */
  lemma NothingGone(s: Store, i: nat, m: nat, j: nat)
    requires Quiet(s) && i < m <= j <= |s.paths|
    requires Busy(s.paths[m..j], s.dir.files) != [] && Busy(s.paths[m..j], s.dir.files)[0] < s.paths[i]
    ensures Log(s.paths[i..m], s.dir.files) == []
  {
    var f, part := s.dir.files, s.paths[m..j];
    var d := Busy(part, f);
    BusyMembers(part, f);
    assert d[0] in d;
    var x :| 0 <= x < |part| && part[x] == d[0];
    forall a | i <= a < m ensures At(f, s.paths[a]) == [] {
      assert PairOk(s.paths, f, i, m + x) && PairOk(s.paths, f, a, m + x) && TripleOk(s.paths, i, a, m + x);
    }
    EmptyLog(s.paths[i..m], f);
  }

  /** The non-empty files mid-merge, by number. */
  ghost function MidBusy(s: Store, i: nat, m: nat, j: nat, b: seq<Path>, d: seq<Path>, r: seq<Path>): seq<Path>
    requires i < m <= j < |s.paths|
  {
    Placed(b, d, r, s.paths[i], Log(s.paths[i..j], s.dir.files))
  }

  /** The merged file `x` takes its place by number, or none when nothing was merged. */
  ghost function Placed(b: seq<Path>, d: seq<Path>, r: seq<Path>, x: Path, merged: seq<Entry>): seq<Path> {
    if merged == [] then b + (d + r)
    else if d != [] && d[0] < x then (b + [d[0]]) + [x] + (d[1..] + r)
    else b + [x] + (d + r)
  }

  lemma MidBusyAscending(s: Store, i: nat, m: nat, j: nat, b: seq<Path>, d: seq<Path>, r: seq<Path>)
    requires Quiet(s) && i < m <= j < |s.paths| && Parts(s, i, m, j, b, d, r)
    ensures Ascending(MidBusy(s, i, m, j, b, d, r), Below)
  {
    PartsAscending(s, i, m, j, b, d, r);
    LeftOfRun(s, i, m, j, b, d, r);
    var x := s.paths[i];
    if Log(s.paths[i..j], s.dir.files) != [] {
      if d != [] && d[0] < x {
        assert b + (d + r) == (b + [d[0]]) + (d[1..] + r);
        AscendingInsert(b + [d[0]], x, d[1..] + r, Below);
      } else {
        assert forall p :: p in d ==> p == d[0] || p in d[1..];
        AscendingInsert(b, x, d + r, Below);
      }
    }
  }

  lemma MidBusyMembers(s: Store, i: nat, m: nat, j: nat, b: seq<Path>, d: seq<Path>, r: seq<Path>)
    requires Quiet(s) && IsRun(s, i, j) && i < m <= j && Parts(s, i, m, j, b, d, r)
    ensures var g := MergedFiles(s.dir.files, s.paths[i..j], m - i);
      forall p :: p in MidBusy(s, i, m, j, b, d, r) <==> At(g, p) != []
  {
    var f, g := s.dir.files, MergedFiles(s.dir.files, s.paths[i..j], m - i);
    MergedElsewhere(s, i, j, m);
    forall p ensures p in MidBusy(s, i, m, j, b, d, r) <==> At(g, p) != [] {
      MidBusyHas(s, i, m, j, b, d, r, p);
      assert p !in f && p != s.paths[i] ==> p !in g;
      if p in f {
        assert p in ToSet(s.paths);
        var a :| 0 <= a < |s.paths| && s.paths[a] == p;
        InParts(s, i, m, j, b, d, r, a);
      } else {
        NotInParts(s, i, m, j, b, d, r, p);
        assert s.paths[i] in ToSet(s.paths);
      }
    }
  }

  lemma InParts(s: Store, i: nat, m: nat, j: nat, b: seq<Path>, d: seq<Path>, r: seq<Path>, a: nat)
    requires Distinct(s.paths) && i < m <= j < |s.paths| && Parts(s, i, m, j, b, d, r) && a < |s.paths|
    ensures s.paths[a] in b || s.paths[a] in d || s.paths[a] in r <==> (a < i || m <= a) && At(s.dir.files, s.paths[a]) != []
  {
    var f, p := s.dir.files, s.paths[a];
    BusyMembers(s.paths[..i], f);
    BusyMembers(s.paths[j..], f);
    BusyMembers(s.paths[m..j], f);
    assert p in s.paths[..i] <==> a < i;
    assert p in s.paths[m..j] <==> m <= a < j by {
      assert m <= a < j ==> s.paths[m..j][a - m] == p;
    }
    assert p in s.paths[j..] <==> j <= a by {
      assert j <= a ==> s.paths[j..][a - j] == p;
    }
  }

  lemma NotInParts(s: Store, i: nat, m: nat, j: nat, b: seq<Path>, d: seq<Path>, r: seq<Path>, p: Path)
    requires i < m <= j < |s.paths| && Parts(s, i, m, j, b, d, r) && At(s.dir.files, p) == []
    ensures p !in b && p !in d && p !in r
  {
    BusyMembers(s.paths[..i], s.dir.files);
    BusyMembers(s.paths[j..], s.dir.files);
    BusyMembers(s.paths[m..j], s.dir.files);
  }

  lemma MidBusyHas(s: Store, i: nat, m: nat, j: nat, b: seq<Path>, d: seq<Path>, r: seq<Path>, p: Path)
    requires i < m <= j < |s.paths|
    ensures p in MidBusy(s, i, m, j, b, d, r) <==>
      p in b || p in d || p in r || (p == s.paths[i] && Log(s.paths[i..j], s.dir.files) != [])
  {
    assert d != [] ==> (p in d <==> p == d[0] || p in d[1..]);
  }

  lemma MidLog(s: Store, i: nat, m: nat, j: nat, b: seq<Path>, d: seq<Path>, r: seq<Path>)
    requires Quiet(s) && IsRun(s, i, j) && i < m <= j && Parts(s, i, m, j, b, d, r)
    ensures var f, g := s.dir.files, MergedFiles(s.dir.files, s.paths[i..j], m - i);
      Log(b, g) == Log(s.paths[..i], f) && Log(d, g) == Log(s.paths[m..j], f) && Log(r, g) == Log(s.paths[j..], f)
  {
    var f, g := s.dir.files, MergedFiles(s.dir.files, s.paths[i..j], m - i);
    MergedSlices(s, i, m, j);
    BusyElsewhere(s.paths[..i], f, g);
    BusyElsewhere(s.paths[m..j], f, g);
    BusyElsewhere(s.paths[j..], f, g);
  }

  ghost predicate SameAt(paths: seq<Path>, f: Contents, g: Contents) {
    forall i :: 0 <= i < |paths| ==> At(g, paths[i]) == At(f, paths[i])
  }

  lemma MergedSlices(s: Store, i: nat, m: nat, j: nat)
    requires Quiet(s) && IsRun(s, i, j) && i < m <= j
    ensures var f, g := s.dir.files, MergedFiles(s.dir.files, s.paths[i..j], m - i);
      SameAt(s.paths[..i], f, g) && SameAt(s.paths[m..j], f, g) && SameAt(s.paths[j..], f, g)
  {
    MergedElsewhere(s, i, j, m);
    SlicesSame(s.paths, i, m, j, s.dir.files, MergedFiles(s.dir.files, s.paths[i..j], m - i));
  }

  lemma SlicesSame(paths: seq<Path>, i: nat, m: nat, j: nat, f: Contents, g: Contents)
    requires i <= m <= j <= |paths|
    requires forall a :: 0 <= a < i || m <= a < |paths| ==> At(g, paths[a]) == At(f, paths[a])
    ensures SameAt(paths[..i], f, g) && SameAt(paths[m..j], f, g) && SameAt(paths[j..], f, g)
  {
  }

  lemma BusyElsewhere(paths: seq<Path>, f: Contents, g: Contents)
    requires SameAt(paths, f, g)
    ensures Log(Busy(paths, f), g) == Log(paths, f)
  {
    BusyMembers(paths, f);
    BusyLog(paths, f);
    LogSame(Busy(paths, f), f, g);
  }

  /** The same entries, and the same log once repeated IDs are dropped. */
  ghost predicate SameUpToRepeats(a: seq<Entry>, b: seq<Entry>) {
    Dedup(a) == Dedup(b) && ToSet(a) == ToSet(b)
  }

  lemma CopiesAbsorbed(x: seq<Entry>, a: seq<Entry>, b: seq<Entry>, y: seq<Entry>)
    ensures SameUpToRepeats(x + (a + b) + b + y, x + (a + b) + y)
  {
    IdsConcat(x, a + b);
    IdsConcat(a, b);
    DedupAbsorbs(x + (a + b), b, y);
  }

  lemma CopiesAround(x: seq<Entry>, a: seq<Entry>, b: seq<Entry>, y: seq<Entry>)
    ensures SameUpToRepeats(x + a + (a + b) + (b + y), x + (a + b) + y)
  {
    IdsConcat(x, a);
    DedupAbsorbs(x + a, a, b + (b + y));
    assert x + a + a + (b + (b + y)) == x + a + (a + b) + (b + y);
    assert x + a + (b + (b + y)) == x + (a + b) + b + y;
    CopiesAbsorbed(x, a, b, y);
    assert ToSet(x + a + (a + b) + (b + y)) == ToSet(x + (a + b) + y);
  }

  lemma MidMergeLog(s: Store, i: nat, j: nat, m: nat, b: seq<Path>, d: seq<Path>, r: seq<Path>)
    requires Quiet(s) && IsRun(s, i, j) && i < m <= j && Parts(s, i, m, j, b, d, r)
    ensures SameUpToRepeats(Log(MidBusy(s, i, m, j, b, d, r), MergedFiles(s.dir.files, s.paths[i..j], m - i)), StoreLog(s))
  {
    var f, g, x := s.dir.files, MergedFiles(s.dir.files, s.paths[i..j], m - i), s.paths[i];
    MidLog(s, i, m, j, b, d, r);
    LogInParts(s.paths, i, m, j, f);
    MergedHead(s, i, j, m);
    AheadOnlyIfGone(s, i, m, j, d);
    MidCases(b, d, r, x, g, Log(s.paths[i..m], f));
  }

  lemma AheadOnlyIfGone(s: Store, i: nat, m: nat, j: nat, d: seq<Path>)
    requires Quiet(s) && i < m <= j <= |s.paths| && d == Busy(s.paths[m..j], s.dir.files)
    ensures d != [] && d[0] < s.paths[i] ==> Log(s.paths[i..m], s.dir.files) == []
  {
    if d != [] && d[0] < s.paths[i] {
      NothingGone(s, i, m, j);
    }
  }

  lemma MergedHead(s: Store, i: nat, j: nat, m: nat)
    requires Quiet(s) && IsRun(s, i, j) && i < m <= j
    ensures At(MergedFiles(s.dir.files, s.paths[i..j], m - i), s.paths[i]) == Log(s.paths[i..j], s.dir.files)
  {
    MergedElsewhere(s, i, j, m);
  }

  lemma LogInParts(paths: seq<Path>, i: nat, m: nat, j: nat, f: Contents)
    requires i < m <= j <= |paths|
    ensures Log(paths[i..j], f) == Log(paths[i..m], f) + Log(paths[m..j], f)
    ensures Log(paths, f) == Log(paths[..i], f) + Log(paths[i..j], f) + Log(paths[j..], f)
  {
    RunParts(paths, i, m, j);
    LogConcat(paths[i..m], paths[m..j], f);
    ThreeParts(paths, i, j);
    LogConcat(paths[..i] + paths[i..j], paths[j..], f);
    LogConcat(paths[..i], paths[i..j], f);
  }

  /** The three cases: an empty run, one segment left in front of the merged one, or none. */
  lemma MidCases(b: seq<Path>, d: seq<Path>, r: seq<Path>, x: Path, g: Contents, gone: seq<Entry>)
    requires At(g, x) == gone + Log(d, g) && (d != [] && d[0] < x ==> gone == [])
    ensures SameUpToRepeats(Log(Placed(b, d, r, x, gone + Log(d, g)), g), Log(b, g) + (gone + Log(d, g)) + Log(r, g))
  {
    if gone + Log(d, g) == [] {
      NothingMerged(b, d, r, g, Log(b, g), Log(r, g));
    } else if d != [] && d[0] < x {
      OneAhead(b, d, r, x, g);
    } else {
      HeadFirst(b, d, r, x, g);
      CopiesAbsorbed(Log(b, g), gone, Log(d, g), Log(r, g));
    }
  }

  lemma NothingMerged(b: seq<Path>, d: seq<Path>, r: seq<Path>, g: Contents, x: seq<Entry>, y: seq<Entry>)
    requires Log(b, g) == x && Log(d, g) == [] && Log(r, g) == y
    ensures Log(b + (d + r), g) == x + [] + y
  {
    LogConcat(b, d + r, g);
    LogConcat(d, r, g);
  }

  lemma OneAhead(b: seq<Path>, d: seq<Path>, r: seq<Path>, x: Path, g: Contents)
    requires d != [] && At(g, x) == Log(d, g)
    ensures SameUpToRepeats(Log((b + [d[0]]) + [x] + (d[1..] + r), g), Log(b, g) + ([] + Log(d, g)) + Log(r, g))
  {
    FirstOf(d, g);
    FiveLogs(b, d[0], x, d[1..], r, g);
    CopiesAround(Log(b, g), At(g, d[0]), Log(d[1..], g), Log(r, g));
    assert [] + Log(d, g) == Log(d, g);
  }

  lemma FirstOf(d: seq<Path>, g: Contents)
    requires d != []
    ensures Log(d, g) == At(g, d[0]) + Log(d[1..], g)
  {
    assert d == [d[0]] + d[1..];
    LogConcat([d[0]], d[1..], g);
    LogOne(d[0], g);
  }

  lemma FiveLogs(b: seq<Path>, p: Path, x: Path, d: seq<Path>, r: seq<Path>, g: Contents)
    ensures Log((b + [p]) + [x] + (d + r), g) == Log(b, g) + At(g, p) + At(g, x) + (Log(d, g) + Log(r, g))
  {
    LogConcat(b + [p] + [x], d + r, g);
    LogConcat(d, r, g);
    LogEnd(b + [p], x, g);
    LogEnd(b, p, g);
  }

  lemma HeadFirst(b: seq<Path>, d: seq<Path>, r: seq<Path>, x: Path, g: Contents)
    ensures Log(b + [x] + (d + r), g) == Log(b, g) + At(g, x) + Log(d, g) + Log(r, g)
  {
    LogConcat(b + [x], d + r, g);
    LogConcat(d, r, g);
    LogEnd(b, x, g);
    Associate(Log(b + [x], g), Log(d, g), Log(r, g));
  }

  lemma MidMergeKeys(s: Store, i: nat, j: nat, m: nat)
    requires Quiet(s) && IsRun(s, i, j) && i < m <= j
    ensures var g := MergedFiles(s.dir.files, s.paths[i..j], m - i); g.Keys <= s.dir.files.Keys && Active(s) in g && s.paths[i] in g
    ensures Active(s) != s.paths[i]
  {
    var n := |s.paths| - 1;
    RunTail(s.paths, i, m, j);
    RunHeadApart(s.paths, i, m);
    OutsideApart(s.paths, i, m, n);
    assert s.paths[i] in ToSet(s.paths) && s.paths[n] in ToSet(s.paths);
    MergedKeys(s.dir.files, s.paths[i..j], m - i);
  }

  lemma AboveActiveEmpty(s: Store, i: nat, j: nat, m: nat, p: Path)
    requires Quiet(s) && IsRun(s, i, j) && i < m <= j && Active(s) < p
    ensures At(MergedFiles(s.dir.files, s.paths[i..j], m - i), p) == []
  {
    if p == s.paths[i] {
      RunBeforeRest(s, i, j, |s.paths| - 1);
      MergedHead(s, i, j, m);
    } else {
      RunTail(s.paths, i, m, j);
      QuietRecoverable(s);
    }
  }

  lemma MidMergeRecoverable(s: Store, i: nat, j: nat, m: nat)
    requires Quiet(s) && IsRun(s, i, j) && i < m <= j
    ensures var d := MergedDir(s.dir, s.paths[i..j], m - i); Recoverable(d) && Active(s) in d.files && Marked(d, Active(s))
  {
    MidMergeKeys(s, i, j, m);
    var g := MergedFiles(s.dir.files, s.paths[i..j], m - i);
    forall p | p in g && Active(s) < p ensures At(g, p) == [] {
      AboveActiveEmpty(s, i, j, m, p);
    }
  }

  /** A crash after the rename and any number of deletes: restart finds the same entries, and the same log up
      to repeated copies. */
  lemma MergeCrashSafe(s: Store, i: nat, j: nat, m: nat)
    requires Quiet(s) && IsRun(s, i, j) && i < m <= j
    ensures var d := MergedDir(s.dir, s.paths[i..j], m - i); var t := Recover(d);
      && t.dir == d && Quiet(t) && Active(t) == Active(s) && SameUpToRepeats(StoreLog(t), StoreLog(s))
  {
    var dir := MergedDir(s.dir, s.paths[i..j], m - i);
    var b, d, r := Busy(s.paths[..i], s.dir.files), Busy(s.paths[m..j], s.dir.files), Busy(s.paths[j..], s.dir.files);
    MidMergeRecoverable(s, i, j, m);
    RecoverShape(dir);
    RecoveredActive(dir, Active(s));
    MidBusyAscending(s, i, m, j, b, d, r);
    MidBusyMembers(s, i, m, j, b, d, r);
    RecoverReads(dir, MidBusy(s, i, m, j, b, d, r));
    MidMergeLog(s, i, j, m, b, d, r);
  }

  // --------------------------------------------------------------- retention

  /** runRetentionPass's running maximum of the timestamps, from 0. */
  function MaxTimestamp(es: seq<Entry>): (m: int)
    ensures m >= 0 && forall e :: e in es ==> e.timestamp <= m
  {
    if es == [] then 0
    else
      var n := |es| - 1;
      var m := MaxTimestamp(es[..n]);
      SplitLast(es);
      if es[n].timestamp > m then es[n].timestamp else m
  }

  predicate Expired(es: seq<Entry>, cutoff: int) {
    0 < MaxTimestamp(es) < cutoff
  }

  lemma {:induction false} NewestIn(es: seq<Entry>)
    requires MaxTimestamp(es) > 0
    ensures exists e :: e in es && e.timestamp == MaxTimestamp(es)
  {
    var n := |es| - 1;
    if es[n].timestamp > MaxTimestamp(es[..n]) {
      assert es[n] in es;
    } else {
      NewestIn(es[..n]);
      var e :| e in es[..n] && e.timestamp == MaxTimestamp(es[..n]);
      assert e in es;
    }
  }

  /** Some entry has a positive timestamp, and all are older than the cutoff. */
  ghost predicate AllOld(es: seq<Entry>, cutoff: int) {
    (exists e :: e in es && e.timestamp > 0) && forall e :: e in es ==> e.timestamp < cutoff
  }

  lemma ExpiredIff(es: seq<Entry>, cutoff: int)
    ensures Expired(es, cutoff) <==> AllOld(es, cutoff)
  {
    if MaxTimestamp(es) > 0 {
      NewestIn(es);
    }
  }

  /** The closed segments whose newest entry is older than the cutoff. */
  function ExpiredPaths(s: Store, cutoff: int): set<Path> {
    set i | 0 <= i < |s.paths| - 1 && Expired(At(s.dir.files, s.paths[i]), cutoff) :: s.paths[i]
  }

  /** Drop some closed segments: the manager's list, and the files. */
  function Dropped(s: Store, gone: set<Path>): Store {
    s.(dir := s.dir.(files := s.dir.files - gone), paths := KeepPaths(s.paths, gone))
  }

  /** `a` is `b` with some elements left out. */
  ghost predicate Subsequence(a: seq<Entry>, b: seq<Entry>) {
    if b == [] then a == []
    else
      var n := |b| - 1;
      Subsequence(a, b[..n]) || (a != [] && a[|a| - 1] == b[n] && Subsequence(a[..|a| - 1], b[..n]))
  }

  lemma {:induction false} SubsequenceSelf(a: seq<Entry>)
    ensures Subsequence(a, a)
  {
    if a != [] {
      SubsequenceSelf(a[..|a| - 1]);
    }
  }

  lemma {:induction false} SubsequenceMembers(a: seq<Entry>, b: seq<Entry>)
    requires Subsequence(a, b)
    ensures forall e :: e in a ==> e in b
    decreases |b|
  {
    if b != [] {
      var n := |b| - 1;
      if Subsequence(a, b[..n]) {
        SubsequenceMembers(a, b[..n]);
      } else {
        SubsequenceMembers(a[..|a| - 1], b[..n]);
        assert a == a[..|a| - 1] + [a[|a| - 1]];
      }
    }
  }

  lemma {:induction false} SubsequenceDistinct(a: seq<Entry>, b: seq<Entry>)
    requires Subsequence(a, b) && DistinctIds(b)
    ensures DistinctIds(a)
  {
    if b != [] {
      var n := |b| - 1;
      if Subsequence(a, b[..n]) {
        SubsequenceDistinct(a, b[..n]);
      } else {
        SubsequenceDistinct(a[..|a| - 1], b[..n]);
        SubsequenceMembers(a[..|a| - 1], b[..n]);
        forall i | 0 <= i < |a| - 1 ensures a[i].id != b[n].id {
          assert a[..|a| - 1][i] == a[i] && a[i] in b[..n];
        }
      }
    }
  }

  lemma {:induction false} SubsequenceExtend(a: seq<Entry>, b: seq<Entry>, c: seq<Entry>)
    requires Subsequence(a, b)
    ensures Subsequence(a, b + c) && Subsequence(a + c, b + c)
  {
    if c == [] {
      assert b + c == b && a + c == a;
    } else {
      var n := |c| - 1;
      SubsequenceExtend(a, b, c[..n]);
      assert (b + c)[..|b| + n] == b + c[..n] && (a + c)[..|a| + n] == a + c[..n];
    }
  }

  lemma {:induction false} SubsequenceTransitive(a: seq<Entry>, b: seq<Entry>, c: seq<Entry>)
    requires Subsequence(a, b) && Subsequence(b, c)
    ensures Subsequence(a, c)
    decreases |c|
  {
    if c != [] {
      var n := |c| - 1;
      if Subsequence(b, c[..n]) {
        SubsequenceTransitive(a, b, c[..n]);
      } else {
        var m := |b| - 1;
        if Subsequence(a, b[..m]) {
          SubsequenceTransitive(a, b[..m], c[..n]);
        } else {
          SubsequenceTransitive(a[..|a| - 1], b[..m], c[..n]);
        }
      }
    }
  }

  /** The log of the kept segments is a subsequence; what is missing was in a dropped segment. */
  lemma {:induction false} KeepLog(paths: seq<Path>, gone: set<Path>, f: Contents)
    ensures Subsequence(Log(KeepPaths(paths, gone), f - gone), Log(paths, f))
    ensures forall e :: e in Log(paths, f) && e !in Log(KeepPaths(paths, gone), f - gone) ==>
      exists p :: p in gone && p in paths && e in At(f, p)
  {
    if paths != [] {
      var n := |paths| - 1;
      KeepLog(paths[..n], gone, f);
      var k, l := KeepPaths(paths[..n], gone), Log(paths[..n], f);
      SplitLast(paths);
      SubsequenceExtend(Log(k, f - gone), l, At(f, paths[n]));
      if paths[n] in gone {
        AppendNone(k);
      } else {
        LogEnd(k, paths[n], f - gone);
      }
    }
  }

  lemma DroppedQuiet(s: Store, gone: set<Path>)
    requires Quiet(s) && Active(s) !in gone
    ensures Quiet(Dropped(s, gone)) && Active(Dropped(s, gone)) == Active(s)
  {
    var q := KeepPaths(s.paths, gone);
    KeptPaths(s.paths, gone);
    var m := KeepEmbeds(s.paths, p => p !in gone);
    SubsetOrderly(q, s.paths, m, s.dir.files, s.dir.files - gone);
    forall i, j | 0 <= i < j < |q| ensures q[i] != q[j] {
      assert Below(m[i], m[j]);
    }
    assert q[|q| - 1] == Active(s);
    assert Active(s) in ToSet(s.paths);
    assert ToSet(q) == ToSet(s.paths) - gone;
  }

  lemma ActiveKept(s: Store, cutoff: int)
    requires Quiet(s)
    ensures Active(s) !in ExpiredPaths(s, cutoff)
  {
    assert forall i :: 0 <= i < |s.paths| - 1 ==> s.paths[i] != s.paths[|s.paths| - 1];
  }

  /** Retention, complete or cut short by a crash: a quiet store, a subsequence of the log, and only entries
      older than the cutoff are gone. */
  lemma RetentionDropsOld(s: Store, gone: set<Path>, cutoff: int)
    requires Quiet(s) && gone <= ExpiredPaths(s, cutoff)
    ensures Quiet(Dropped(s, gone)) && Active(Dropped(s, gone)) == Active(s)
    ensures Subsequence(StoreLog(Dropped(s, gone)), StoreLog(s))
    ensures forall e :: e in StoreLog(s) && e !in StoreLog(Dropped(s, gone)) ==> e.timestamp < cutoff
  {
    ActiveKept(s, cutoff);
    DroppedQuiet(s, gone);
    KeepLog(s.paths, gone, s.dir.files);
  }
}
