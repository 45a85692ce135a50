/** Log entries, their result order, deduplication by ID and paging.

Both the local executor and the coordinator order results by timestamp descending
with the ID as tie-breaker, drop repeated IDs and cut one page out of the list.
*/
module Entries {
  import opened Ordering

  datatype Option<+T> = None | Some(value: T)

  datatype Entry = Entry(
    id: string,
    timestamp: int,
    receivedAt: int,
    namespace: string,
    service: string,
    level: string,
    message: string,
    fields: map<string, string>)

  const MAX_INT32: int := 0x7fff_ffff

  /** Go's conversion to int32: two's complement truncation. */
  function ToInt32(n: int): int {
    (n + 0x8000_0000) % 0x1_0000_0000 - 0x8000_0000
  }

  lemma ToInt32Fits(n: int)
    ensures -0x8000_0000 <= n <= MAX_INT32 ==> ToInt32(n) == n
    ensures MAX_INT32 < n <= 2 * MAX_INT32 ==> ToInt32(n) == n - 0x1_0000_0000
  {
  }

  /** Newest first, then smallest ID first. */
  predicate Before(a: Entry, b: Entry) {
    if a.timestamp != b.timestamp then a.timestamp > b.timestamp else StringLess(a.id, b.id)
  }

  predicate ReceivedEarlier(a: Entry, b: Entry) {
    a.receivedAt < b.receivedAt
  }

  lemma BeforeWeak()
    ensures WeakOrder(Before)
    ensures forall a: Entry, b: Entry :: a.id != b.id ==> Before(a, b) || Before(b, a)
  {
    StringLessWeak();
    forall a: Entry, b: Entry | a.id != b.id ensures Before(a, b) || Before(b, a) {
      StringLessTotal(a.id, b.id);
    }
  }

  /** Within the set, an ID names one record. */
  ghost predicate IdsIdentify(s: set<Entry>) {
    forall a, b :: a in s && b in s && a.id == b.id ==> a == b
  }

  ghost predicate DistinctIds(s: seq<Entry>) {
    forall i, j :: 0 <= i < j < |s| ==> s[i].id != s[j].id
  }

  function Ids(s: seq<Entry>): set<string> {
    set e | e in s :: e.id
  }

  lemma IdsConcat(a: seq<Entry>, b: seq<Entry>)
    ensures Ids(a + b) == Ids(a) + Ids(b)
  {
  }

  lemma ToSetConcat<T>(a: seq<T>, b: seq<T>)
    ensures ToSet(a + b) == ToSet(a) + ToSet(b)
  {
  }

  // ---------------------------------------------------------------- ranking

  ghost function Insert(x: Entry, s: seq<Entry>): (r: seq<Entry>)
    requires Ascending(s, Before) && forall e :: e in s ==> e.id != x.id
    ensures Ascending(r, Before) && ToSet(r) == ToSet(s) + {x}
  {
    BeforeWeak();
    if s == [] || Before(x, s[0]) then
      assert forall i :: 0 < i < |s| ==> Before(s[0], s[i]);
      [x] + s
    else
      var t := Insert(x, s[1..]);
      assert ToSet(s) == {s[0]} + ToSet(s[1..]);
      assert forall i :: 0 <= i < |t| ==> t[i] in ToSet(t);
      assert forall e :: e in s[1..] ==> Before(s[0], e);
      assert Before(s[0], x);
      var r := [s[0]] + t;
      assert ToSet(r) == {s[0]} + ToSet(t);
      r
  }

  /** The entries of `s` in result order. */
  ghost function Rank(s: set<Entry>): (r: seq<Entry>)
    requires IdsIdentify(s)
    ensures Ascending(r, Before) && ToSet(r) == s
  {
    if s == {} then []
    else
      var x :| x in s;
      var r := Rank(s - {x});
      OthersDiffer(s, x, r);
      Insert(x, r)
  }

  lemma RankCount(s: set<Entry>)
    requires IdsIdentify(s)
    ensures |Rank(s)| == |s|
  {
    BeforeWeak();
    AscendingDistinct(Rank(s), Before);
    DistinctCount(Rank(s));
  }

  lemma OthersDiffer(s: set<Entry>, x: Entry, r: seq<Entry>)
    requires IdsIdentify(s) && x in s && ToSet(r) == s - {x}
    ensures forall e :: e in r ==> e.id != x.id
  {
    assert forall e :: e in r ==> e in ToSet(r);
  }

  /** An entry's place in the ranking of a part is no later than in the ranking of the whole. */
  lemma RankPlace(part: set<Entry>, whole: set<Entry>, k: nat) returns (j: nat)
    requires IdsIdentify(part) && IdsIdentify(whole) && part <= whole
    requires k < |Rank(whole)| && Rank(whole)[k] in part
    ensures j < |Rank(part)| && Rank(part)[j] == Rank(whole)[k] && j <= k
  {
    BeforeWeak();
    assert Rank(whole)[k] in ToSet(Rank(part));
    j :| 0 <= j < |Rank(part)| && Rank(part)[j] == Rank(whole)[k];
    PlaceInPart(Rank(part), Rank(whole), j, k, Before);
  }

  /** A part that keeps the first `k` of the whole ranks them first. */
  lemma RankPrefix(part: set<Entry>, whole: set<Entry>, k: nat)
    requires IdsIdentify(part) && IdsIdentify(whole) && part <= whole
    requires k <= |Rank(whole)| && forall i :: 0 <= i < k ==> Rank(whole)[i] in part
    ensures k <= |Rank(part)| && Rank(part)[..k] == Rank(whole)[..k]
  {
    BeforeWeak();
    forall i | 0 <= i < k ensures Rank(whole)[i] in Rank(part) {
      assert Rank(whole)[i] in ToSet(Rank(part));
    }
    PrefixAgrees(Rank(whole), Rank(part), k, Before);
  }

  ghost function Prefix(s: seq<Entry>, n: nat): seq<Entry> {
    if n < |s| then s[..n] else s
  }

  /** A part that contains the first `n` of the whole has the same first `n`, and the same pages in it. */
  lemma SameFirst(part: set<Entry>, whole: set<Entry>, n: nat, offset: nat, limit: nat)
    requires IdsIdentify(part) && IdsIdentify(whole) && part <= whole
    requires forall i :: 0 <= i < n && i < |Rank(whole)| ==> Rank(whole)[i] in part
    requires 0 < limit && offset + limit <= n
    ensures |part| <= |whole| && (|part| == |whole| || |part| >= n)
    ensures Page(Rank(part), offset, limit) == Page(Rank(whole), offset, limit)
  {
    var k := if n < |Rank(whole)| then n else |Rank(whole)|;
    RankPrefix(part, whole, k);
    RankCount(part);
    RankCount(whole);
    CountWithin(part, whole);
    SamePage(Rank(part), Rank(whole), n, offset, limit);
  }

  lemma SamePage(d: seq<Entry>, u: seq<Entry>, n: nat, offset: nat, limit: nat)
    requires 0 < limit && offset + limit <= n && |d| <= |u|
    requires var k := if n < |u| then n else |u|; k <= |d| && d[..k] == u[..k]
    ensures Page(d, offset, limit) == Page(u, offset, limit)
  {
    var k := if n < |u| then n else |u|;
    assert forall i :: 0 <= i < k ==> d[i] == d[..k][i] && u[i] == u[..k][i];
    PagePrefix(d, u, offset, limit);
  }

  /** A ranked list is the ranking of its entries. */
  lemma RankOf(s: seq<Entry>)
    requires Ascending(s, Before) && IdsIdentify(ToSet(s))
    ensures Rank(ToSet(s)) == s
  {
    BeforeWeak();
    AscendingUnique(s, Rank(ToSet(s)), Before);
  }

  lemma {:induction false} CountWithin<T>(a: set<T>, b: set<T>)
    requires a <= b
    ensures |a| <= |b|
  {
    if x :| x in a {
      CountWithin(a - {x}, b - {x});
    }
  }

  /** Sorting a duplicate-free list yields exactly the ranking of its entries. */
  lemma SortedIsRank(s: seq<Entry>, t: seq<Entry>)
    requires DistinctIds(s) && multiset(s) == multiset(t) && NoInversion(t, Before)
    ensures IdsIdentify(ToSet(s)) && t == Rank(ToSet(s)) && |t| == |s|
  {
    BeforeWeak();
    DistinctIdsIdentify(s);
    SortedDistinct(s, t, Before);
    AscendingUnique(t, Rank(ToSet(s)), Before);
    SameElements(s, t);
  }

  lemma DistinctIdsIdentify(s: seq<Entry>)
    requires DistinctIds(s)
    ensures IdsIdentify(ToSet(s)) && Distinct(s)
    ensures forall x, y :: x in s && y in s && x != y ==> x.id != y.id
  {
    forall x, y | x in s && y in s && x != y ensures x.id != y.id {
      var i :| 0 <= i < |s| && s[i] == x;
      var j :| 0 <= j < |s| && s[j] == y;
      assert i < j || j < i;
    }
  }

  /** `a` is newer than `b`, or of the same time with the smaller ID: smaller at the first differing character, or a
      proper prefix. */
  ghost predicate NewerOrSmaller(a: Entry, b: Entry) {
    a.timestamp > b.timestamp || (a.timestamp == b.timestamp && exists k :: SmallerAt(a.id, b.id, k))
  }

  /** Newest first, and by ID among entries of the same time. */
  ghost predicate InResultOrder(es: seq<Entry>) {
    forall i, j :: 0 <= i < j < |es| ==> NewerOrSmaller(es[i], es[j])
  }

  lemma RankInOrder(s: set<Entry>, offset: nat, limit: nat)
    requires IdsIdentify(s)
    ensures InResultOrder(Rank(s)) && InResultOrder(Page(Rank(s), offset, limit))
  {
    var r := Rank(s);
    forall i, j | 0 <= i < j < |r| ensures NewerOrSmaller(r[i], r[j]) {
      assert Before(r[i], r[j]);
      StringLessIff(r[i].id, r[j].id);
    }
  }

  // ---------------------------------------------------------- deduplication

  /** Keep the first entry of every ID. */
  function Dedup(s: seq<Entry>): seq<Entry> {
    if s == [] then []
    else
      var n := |s| - 1;
      var d := Dedup(s[..n]);
      if s[n].id in Ids(s[..n]) then d else d + [s[n]]
  }

  lemma DedupStep(s: seq<Entry>, e: Entry)
    ensures Dedup(s + [e]) == if e.id in Ids(s) then Dedup(s) else Dedup(s) + [e]
    ensures Ids(s + [e]) == Ids(s) + {e.id}
  {
    assert (s + [e])[..|s|] == s;
    IdsConcat(s, [e]);
    assert Ids([e]) == {e.id} by { assert e in [e]; }
  }

  lemma {:induction false} DedupKeeps(s: seq<Entry>)
    ensures DistinctIds(Dedup(s)) && Ids(Dedup(s)) == Ids(s) && ToSet(Dedup(s)) <= ToSet(s)
  {
    if s != [] {
      var n := |s| - 1;
      SplitLast(s);
      DedupKeeps(s[..n]);
      DedupStep(s[..n], s[n]);
      SnocKeeps(s[..n], s[n], Dedup(s[..n]));
    }
  }

  lemma ExtendDistinct(a: seq<Entry>, e: Entry)
    requires DistinctIds(a) && e.id !in Ids(a)
    ensures DistinctIds(a + [e])
  {
    IdsAt(a);
  }

  lemma KeepDistinctIds(s: seq<Entry>, keep: Entry -> bool)
    ensures DistinctIds(s) ==> DistinctIds(Keep(s, keep))
  {
    var m := KeepEmbeds(s, keep);
    var k := Keep(s, keep);
    if DistinctIds(s) {
      forall i, j | 0 <= i < j < |k| ensures k[i].id != k[j].id {
        assert Below(m[i], m[j]);
      }
    }
  }

  /** No two kept places have the same ID. */
  ghost predicate KeptApart(s: seq<Entry>, keep: Entry -> bool) {
    forall i, j :: 0 <= i < j < |s| && keep(s[i]) && keep(s[j]) ==> s[i].id != s[j].id
  }

  lemma KeptApartNext(s: seq<Entry>, keep: Entry -> bool)
    requires s != []
    ensures var n := |s| - 1;
      KeptApart(s, keep) <==> KeptApart(s[..n], keep) && (keep(s[n]) ==> forall i :: 0 <= i < n && keep(s[i]) ==> s[i].id != s[n].id)
  {
    assert forall i :: 0 <= i < |s| - 1 ==> s[..|s| - 1][i] == s[i];
  }

  lemma {:induction false} KeepDistinctIff(s: seq<Entry>, keep: Entry -> bool)
    ensures DistinctIds(Keep(s, keep)) <==> KeptApart(s, keep)
  {
    if s != [] {
      KeepDistinctIff(s[..|s| - 1], keep);
      KeptApartNext(s, keep);
      if keep(s[|s| - 1]) {
        LastIdNew(s, keep);
      } else {
        AppendNone(Keep(s[..|s| - 1], keep));
      }
    }
  }

  lemma LastIdNew(s: seq<Entry>, keep: Entry -> bool)
    requires s != [] && keep(s[|s| - 1])
    ensures var n := |s| - 1; DistinctIds(Keep(s, keep)) <==>
      DistinctIds(Keep(s[..n], keep)) && forall i :: 0 <= i < n && keep(s[i]) ==> s[i].id != s[n].id
  {
    var n := |s| - 1;
    var k := Keep(s[..n], keep);
    KeepMembers(s[..n], keep);
    assert Keep(s, keep) == k + [s[n]];
    forall i | 0 <= i < n && keep(s[i]) ensures s[i] in k {
      assert s[..n][i] == s[i];
    }
    if DistinctIds(k + [s[n]]) {
      forall i | 0 <= i < n && keep(s[i]) ensures s[i].id != s[n].id {
        var j :| 0 <= j < |k| && k[j] == s[i];
        assert (k + [s[n]])[j].id != (k + [s[n]])[|k|].id;
      }
      forall i, j | 0 <= i < j < |k| ensures k[i].id != k[j].id {
        assert (k + [s[n]])[i].id != (k + [s[n]])[j].id;
      }
    }
    if forall i :: 0 <= i < n && keep(s[i]) ==> s[i].id != s[n].id {
      forall i | 0 <= i < |k| ensures k[i].id != s[n].id {
        assert k[i] in k;
      }
    }
  }

  lemma SnocKeeps(s: seq<Entry>, e: Entry, d: seq<Entry>)
    requires DistinctIds(d) && Ids(d) == Ids(s) && ToSet(d) <= ToSet(s)
    ensures var t := if e.id in Ids(s) then d else d + [e];
      DistinctIds(t) && Ids(t) == Ids(s + [e]) && ToSet(t) <= ToSet(s + [e])
  {
    IdsConcat(s, [e]);
    IdsConcat(d, [e]);
    ToSetConcat(s, [e]);
    ToSetConcat(d, [e]);
    assert Ids([e]) == {e.id} by {
      assert e in [e];
    }
    if e.id !in Ids(s) {
      ExtendDistinct(d, e);
    }
  }

  lemma IdsAt(s: seq<Entry>)
    ensures forall i :: 0 <= i < |s| ==> s[i].id in Ids(s)
  {
  }

  lemma DedupSet(s: seq<Entry>)
    requires IdsIdentify(ToSet(s))
    ensures ToSet(Dedup(s)) == ToSet(s)
  {
    DedupKeeps(s);
    forall e | e in s ensures e in Dedup(s) {
      assert e.id in Ids(s);
      var d :| d in Dedup(s) && d.id == e.id;
      assert d in ToSet(Dedup(s)) && e in ToSet(s);
    }
  }

  lemma {:induction false} DedupDistinct(s: seq<Entry>)
    requires DistinctIds(s)
    ensures Dedup(s) == s
  {
    if s != [] {
      var n := |s| - 1;
      DedupDistinct(s[..n]);
      SplitLast(s);
      assert s[n].id !in Ids(s[..n]);
    }
  }

  /** Entries whose IDs occurred before are dropped. */
  lemma {:induction false} DedupDrops(x: seq<Entry>, b: seq<Entry>)
    requires Ids(b) <= Ids(x)
    ensures Dedup(x + b) == Dedup(x)
  {
    if b == [] {
      AppendNone(x);
    } else {
      var n := |b| - 1;
      SplitLast(b);
      IdsConcat(b[..n], [b[n]]);
      IdsConcat(x, b[..n]);
      IdsAt([b[n]]);
      DedupDrops(x, b[..n]);
      AppendLast(x, b);
      DedupStep(x + b[..n], b[n]);
    }
  }

  /** Deduplication only looks at what the earlier part deduplicates to. */
  lemma {:induction false} DedupPrefix(x: seq<Entry>, x': seq<Entry>, y: seq<Entry>)
    requires Dedup(x) == Dedup(x')
    ensures Dedup(x + y) == Dedup(x' + y)
  {
    if y == [] {
      AppendNone(x);
      AppendNone(x');
    } else {
      DedupPrefix(x, x', y[..|y| - 1]);
      AppendLast(x, y);
      AppendLast(x', y);
      DedupSame(x + y[..|y| - 1], x' + y[..|y| - 1], y[|y| - 1]);
    }
  }

  /** So they can be cut out anywhere without changing the result. */
  lemma DedupAbsorbs(x: seq<Entry>, b: seq<Entry>, y: seq<Entry>)
    requires Ids(b) <= Ids(x)
    ensures Dedup(x + b + y) == Dedup(x + y)
  {
    DedupDrops(x, b);
    DedupPrefix(x + b, x, y);
  }

  lemma DedupSame(x: seq<Entry>, x': seq<Entry>, e: Entry)
    requires Dedup(x) == Dedup(x')
    ensures Dedup(x + [e]) == Dedup(x' + [e])
  {
    DedupStep(x, e);
    DedupStep(x', e);
    DedupKeeps(x);
    DedupKeeps(x');
  }

  // ----------------------------------------------------------------- paging

  /** The page `[offset, offset + limit)`, cut short at the end; limit 0 means no limit. */
  function Page(s: seq<Entry>, offset: nat, limit: nat): (p: seq<Entry>)
    ensures forall i :: 0 <= i < |p| ==> offset + i < |s| && p[i] == s[offset + i]
    ensures |p| <= |s|
  {
    var off := if offset > |s| then |s| else offset;
    var rest := s[off..];
    if 0 < limit < |rest| then rest[..limit] else rest
  }

  /** A page only depends on the first `offset + limit` places. */
  lemma PagePrefix(s: seq<Entry>, t: seq<Entry>, offset: nat, limit: nat)
    requires limit > 0
    requires |s| == |t| || (|s| >= offset + limit && |t| >= offset + limit)
    requires forall i :: 0 <= i < |s| && i < |t| && i < offset + limit ==> s[i] == t[i]
    ensures Page(s, offset, limit) == Page(t, offset, limit)
  {
    assert |Page(s, offset, limit)| == |Page(t, offset, limit)|;
  }

  /** Pages 0, 1, ..., n - 1 of size `limit`, one after the other. */
  function Pages(s: seq<Entry>, limit: nat, n: nat): (r: seq<Entry>)
  {
    if n == 0 then [] else Pages(s, limit, n - 1) + Page(s, (n - 1) * limit, limit)
  }

  /** Successive pages tile the list: no gap, no repeat. */
  lemma {:induction false} PagesTile(s: seq<Entry>, limit: nat, n: nat)
    requires limit > 0
    ensures Pages(s, limit, n) == if n * limit <= |s| then s[..n * limit] else s
  {
    if n > 0 {
      PagesTile(s, limit, n - 1);
      var from := (n - 1) * limit;
      assert n * limit == from + limit;
      var p := Page(s, from, limit);
      if from + limit <= |s| {
        assert |p| == limit;
        assert s[..from + limit] == s[..from] + p;
      } else if from <= |s| {
        assert s == s[..from] + p;
      } else {
        assert p == [];
      }
    }
  }
}
