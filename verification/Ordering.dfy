/** Orders, sorting and the uniqueness of sorted sequences.

The engine sorts entries, node IDs, shard numbers and segment paths with Go's `sort`
package. `Sort` carries that package's contract: a permutation without inversions,
and no promise about the order of elements that compare equal.
*/
module Ordering {

  ghost predicate StrictOrder<T(!new)>(less: (T, T) -> bool) {
    && (forall x :: !less(x, x))
    && (forall x, y, z :: less(x, y) && less(y, z) ==> less(x, z))
  }

  /** A strict order whose incomparability is transitive: what a sort needs of its comparator. */
  ghost predicate WeakOrder<T(!new)>(less: (T, T) -> bool) {
    && StrictOrder(less)
    && (forall x, y, z :: !less(x, y) && !less(y, z) ==> !less(x, z))
  }

  ghost predicate Ascending<T>(s: seq<T>, less: (T, T) -> bool) {
    forall i, j :: 0 <= i < j < |s| ==> less(s[i], s[j])
  }

  ghost predicate NoInversion<T>(s: seq<T>, less: (T, T) -> bool) {
    forall i, j :: 0 <= i < j < |s| ==> !less(s[j], s[i])
  }

  predicate Distinct<T(==)>(s: seq<T>) {
    forall i, j :: 0 <= i < j < |s| ==> s[i] != s[j]
  }

  function ToSet<T>(s: seq<T>): set<T> {
    set x | x in s
  }

  lemma SameMembers<T>(a: seq<T>, b: seq<T>)
    requires ToSet(a) == ToSet(b)
    ensures forall x :: x in a <==> x in b
  {
    assert forall x :: x in a <==> x in ToSet(a);
    assert forall x :: x in b <==> x in ToSet(b);
  }

  lemma EmptySet<T>(s: seq<T>)
    ensures ToSet(s) == {} <==> s == []
  {
    if s != [] {
      assert s[0] in ToSet(s);
    }
  }

  lemma SplitLast<T>(s: seq<T>)
    requires s != []
    ensures s == s[..|s| - 1] + [s[|s| - 1]]
  {
  }

  lemma TakeNext<T>(s: seq<T>, i: nat)
    requires i < |s|
    ensures s[..i + 1] == s[..i] + [s[i]]
  {
  }

  lemma AppendLast<T>(x: seq<T>, y: seq<T>)
    requires y != []
    ensures x + y == x + y[..|y| - 1] + [y[|y| - 1]]
  {
  }

  lemma AppendNone<T>(x: seq<T>)
    ensures x + [] == x
  {
  }

  lemma DropPrefix<T>(a: seq<T>, b: seq<T>)
    ensures (a + b)[|a|..] == b
  {
  }

  lemma Associate<T>(a: seq<T>, b: seq<T>, c: seq<T>)
    ensures a + b + c == a + (b + c)
  {
  }

  predicate Below(a: nat, b: nat) {
    a < b
  }

  /** Byte-wise string comparison, Go's `<` on strings. */
  predicate StringLess(a: string, b: string)
    decreases |a|
  {
    if b == [] then false
    else if a == [] then true
    else if a[0] != b[0] then a[0] < b[0]
    else StringLess(a[1..], b[1..])
  }

  /** The strings agree on the first `k` characters, where `a` ends, or has the smaller character. */
  ghost predicate SmallerAt(a: string, b: string, k: nat) {
    k <= |a| && k < |b| && a[..k] == b[..k] && (k == |a| || a[k] < b[k])
  }

  lemma AgreeFirst(a: string, b: string, k: nat)
    requires SmallerAt(a, b, k)
    ensures k == 0 || (a != [] && b != [] && a[0] == b[0])
  {
    if k > 0 {
      assert a[..k][0] == a[0] && b[..k][0] == b[0];
    }
  }

  /** Smaller at the first differing character, or a proper prefix. */
  lemma {:induction false} StringLessIff(a: string, b: string)
    ensures StringLess(a, b) <==> exists k :: SmallerAt(a, b, k)
    decreases |a|
  {
    if a == [] || b == [] || a[0] != b[0] {
      if StringLess(a, b) {
        assert SmallerAt(a, b, 0);
      }
      if k: nat :| SmallerAt(a, b, k) {
        AgreeFirst(a, b, k);
      }
    } else {
      StringLessIff(a[1..], b[1..]);
      if k: nat :| SmallerAt(a[1..], b[1..], k) {
        assert a[..k + 1] == [a[0]] + a[1..][..k] && b[..k + 1] == [b[0]] + b[1..][..k];
        assert SmallerAt(a, b, k + 1);
      }
      if k: nat :| SmallerAt(a, b, k) {
        assert k > 0 && a[1..][..k - 1] == a[..k][1..] && b[1..][..k - 1] == b[..k][1..];
        assert SmallerAt(a[1..], b[1..], k - 1);
      }
    }
  }

  lemma {:induction false} StringLessTotal(a: string, b: string)
    ensures StringLess(a, b) || StringLess(b, a) || a == b
    ensures !(StringLess(a, b) && StringLess(b, a))
    decreases |a|
  {
    if a != [] && b != [] && a[0] == b[0] {
      StringLessTotal(a[1..], b[1..]);
      assert a == [a[0]] + a[1..] && b == [b[0]] + b[1..];
    }
  }

  lemma {:induction false} StringLessTransitive(a: string, b: string, c: string)
    requires StringLess(a, b) && StringLess(b, c)
    ensures StringLess(a, c)
    decreases |a|
  {
    if a != [] && a[0] == b[0] && b[0] == c[0] {
      StringLessTransitive(a[1..], b[1..], c[1..]);
    }
  }

  lemma StringLessWeak()
    ensures WeakOrder(StringLess)
  {
    forall a ensures !StringLess(a, a) {
      StringLessTotal(a, a);
    }
    forall a, b, c | StringLess(a, b) && StringLess(b, c) ensures StringLess(a, c) {
      StringLessTransitive(a, b, c);
    }
    forall a, b, c | !StringLess(a, b) && !StringLess(b, c) ensures !StringLess(a, c) {
      if StringLess(a, c) {
        StringLessTotal(a, b);
        StringLessTotal(b, c);
        if b != c {
          StringLessTransitive(a, c, b);
        }
      }
    }
  }

  /** A strictly sorted sequence is determined by its set of elements. */
  lemma {:induction false} AscendingUnique<T(!new)>(s: seq<T>, t: seq<T>, less: (T, T) -> bool)
    requires StrictOrder(less) && Ascending(s, less) && Ascending(t, less)
    requires ToSet(s) == ToSet(t)
    ensures s == t
  {
    assert forall i :: 0 <= i < |s| ==> s[i] in ToSet(s);
    assert forall i :: 0 <= i < |t| ==> t[i] in ToSet(t);
    PrefixAgrees(s, t, |s|, less);
    PrefixAgrees(t, s, |t|, less);
  }

  /** If `b` keeps the `k` first elements of the sorted `a` and adds nothing, it starts with them. */
  lemma {:induction false} PrefixAgrees<T(!new)>(a: seq<T>, b: seq<T>, k: nat, less: (T, T) -> bool)
    requires StrictOrder(less) && Ascending(a, less) && Ascending(b, less)
    requires ToSet(b) <= ToSet(a)
    requires k <= |a| && forall i :: 0 <= i < k ==> a[i] in b
    ensures k <= |b| && a[..k] == b[..k]
  {
    if k > 0 {
      PrefixAgrees(a, b, k - 1, less);
      assert forall i :: 0 <= i < k - 1 ==> a[i] == a[..k - 1][i] == b[i];
      var j :| 0 <= j < |b| && b[j] == a[k - 1];
      assert k - 1 <= j;
      assert b[k - 1] in ToSet(b);
      var m :| 0 <= m < |a| && a[m] == b[k - 1];
      assert k - 1 <= m;
      assert j == k - 1;
      assert a[..k] == a[..k - 1] + [a[k - 1]];
      assert b[..k] == b[..k - 1] + [b[k - 1]];
    }
  }

  /** A sorted part of a sorted whole: an element's place in the part is no later than in the whole. */
  lemma {:induction false} PlaceInPart<T(!new)>(part: seq<T>, whole: seq<T>, j: nat, i: nat, less: (T, T) -> bool)
    requires StrictOrder(less) && Ascending(part, less) && Ascending(whole, less)
    requires ToSet(part) <= ToSet(whole)
    requires j < |part| && i < |whole| && part[j] == whole[i]
    ensures j <= i
  {
    if j > 0 {
      assert part[j - 1] in ToSet(part);
      var m :| 0 <= m < |whole| && whole[m] == part[j - 1];
      assert m < i;
      PlaceInPart(part, whole, j - 1, m, less);
    }
  }

  lemma AscendingDistinct<T(!new)>(s: seq<T>, less: (T, T) -> bool)
    requires StrictOrder(less) && Ascending(s, less)
    ensures Distinct(s)
  {
    forall i, j | 0 <= i < j < |s| ensures s[i] != s[j] {
      assert less(s[i], s[j]);
    }
  }

  lemma {:induction false} DistinctCount<T>(s: seq<T>)
    requires Distinct(s)
    ensures |ToSet(s)| == |s|
  {
    if s != [] {
      var n := |s| - 1;
      DistinctCount(s[..n]);
      assert ToSet(s) == ToSet(s[..n]) + {s[n]};
    }
  }

  lemma SameElements<T>(s: seq<T>, t: seq<T>)
    requires multiset(s) == multiset(t)
    ensures ToSet(s) == ToSet(t)
    ensures |s| == |t|
  {
    forall x ensures x in s <==> x in t {
      assert x in s <==> x in multiset(s);
      assert x in t <==> x in multiset(t);
    }
    assert |multiset(s)| == |s| && |multiset(t)| == |t|;
  }

  lemma InsertedInOrder<T(!new)>(r: seq<T>, x: T, k: nat, less: (T, T) -> bool)
    requires WeakOrder(less) && NoInversion(r, less)
    requires k <= |r| && (forall i :: 0 <= i < k ==> !less(x, r[i]))
    requires k < |r| ==> less(x, r[k])
    ensures NoInversion(r[..k] + [x] + r[k..], less)
  {
    var s := r[..k] + [x] + r[k..];
    forall i, j | 0 <= i < j < |s| ensures !less(s[j], s[i]) {
      if j == k {
        assert s[i] == r[i];
      } else if i == k {
        assert s[j] == r[j - 1] && (j - 1 == k || !less(r[j - 1], r[k]));
      } else {
        assert s[i] == r[if i < k then i else i - 1] && s[j] == r[if j < k then j else j - 1];
      }
    }
  }

  /** Go's `sort.Slice`, `sort.Strings` and `sort.Ints`. */
  method Sort<T(!new)>(xs: seq<T>, less: (T, T) -> bool) returns (r: seq<T>)
    requires WeakOrder(less)
    ensures multiset(r) == multiset(xs)
    ensures NoInversion(r, less)
  {
    r := [];
    for n := 0 to |xs|
      invariant multiset(r) == multiset(xs[..n])
      invariant NoInversion(r, less)
    {
      var k := 0;
      while k < |r| && !less(xs[n], r[k])
        invariant 0 <= k <= |r|
        invariant forall i :: 0 <= i < k ==> !less(xs[n], r[i])
      {
        k := k + 1;
      }
      InsertedInOrder(r, xs[n], k, less);
      assert r == r[..k] + r[k..];
      TakeNext(xs, n);
      r := r[..k] + [xs[n]] + r[k..];
    }
    assert xs[..|xs|] == xs;
  }

  lemma ShuffledDistinct<T>(s: seq<T>, t: seq<T>)
    requires multiset(s) == multiset(t) && Distinct(s)
    ensures Distinct(t) && ToSet(t) == ToSet(s)
  {
    SameElements(s, t);
    DistinctCount(s);
    forall i, j | 0 <= i < j < |t| ensures t[i] != t[j] {
      if t[i] == t[j] {
        var rest := t[..i] + t[i + 1..];
        assert t == t[..i] + [t[i]] + t[i + 1..];
        assert rest[j - 1] == t[j];
        assert ToSet(rest) == ToSet(t);
        SetNoLarger(rest);
        assert false;
      }
    }
  }

  lemma SortedDistinct<T(!new)>(s: seq<T>, t: seq<T>, less: (T, T) -> bool)
    requires multiset(s) == multiset(t) && Distinct(s)
    requires NoInversion(t, less)
    requires forall x, y :: x in s && y in s && x != y ==> less(x, y) || less(y, x)
    ensures Ascending(t, less) && Distinct(t) && ToSet(t) == ToSet(s)
  {
    ShuffledDistinct(s, t);
    forall i, j | 0 <= i < j < |t| ensures less(t[i], t[j]) {
      assert t[i] in ToSet(t) && t[j] in ToSet(t);
    }
  }

  lemma {:induction false} SetNoLarger<T>(s: seq<T>)
    ensures |ToSet(s)| <= |s|
  {
    if s != [] {
      var n := |s| - 1;
      SetNoLarger(s[..n]);
      assert ToSet(s) == ToSet(s[..n]) + {s[n]};
    }
  }

  // --------------------------------------------------------------- filtering

  /** The elements that pass, in order: the loop `if keep(x) { out = append(out, x) }`. */
  function Keep<T>(s: seq<T>, keep: T -> bool): seq<T> {
    if s == [] then []
    else
      var n := |s| - 1;
      Keep(s[..n], keep) + if keep(s[n]) then [s[n]] else []
  }

  lemma KeepNext<T>(s: seq<T>, i: nat, keep: T -> bool)
    requires i < |s|
    ensures Keep(s[..i + 1], keep) == if keep(s[i]) then Keep(s[..i], keep) + [s[i]] else Keep(s[..i], keep)
  {
    assert s[..i + 1][..i] == s[..i];
    AppendNone(Keep(s[..i], keep));
  }

  lemma {:induction false} KeepConcat<T>(a: seq<T>, b: seq<T>, keep: T -> bool)
    ensures Keep(a + b, keep) == Keep(a, keep) + Keep(b, keep)
  {
    if b == [] {
      AppendNone(a);
      AppendNone(Keep(a, keep));
    } else {
      var n := |b| - 1;
      KeepConcat(a, b[..n], keep);
      assert (a + b)[..|a| + n] == a + b[..n];
      Associate(Keep(a, keep), Keep(b[..n], keep), if keep(b[n]) then [b[n]] else []);
    }
  }

  lemma {:induction false} KeepMembers<T>(s: seq<T>, keep: T -> bool)
    ensures forall x :: x in Keep(s, keep) <==> x in s && keep(x)
  {
    if s != [] {
      KeepMembers(s[..|s| - 1], keep);
      SplitLast(s);
    }
  }

  lemma {:induction false} KeepEverything<T>(s: seq<T>, keep: T -> bool)
    requires forall x :: x in s ==> keep(x)
    ensures Keep(s, keep) == s
  {
    if s != [] {
      SplitLast(s);
      KeepEverything(s[..|s| - 1], keep);
    }
  }

  lemma {:induction false} KeepNothing<T>(s: seq<T>, keep: T -> bool)
    requires forall x :: x in s ==> !keep(x)
    ensures Keep(s, keep) == []
  {
    if s != [] {
      SplitLast(s);
      KeepNothing(s[..|s| - 1], keep);
    }
  }

  lemma {:induction false} KeepCounts<T>(s: seq<T>, keep: T -> bool, x: T)
    ensures multiset(Keep(s, keep))[x] == if keep(x) then multiset(s)[x] else 0
  {
    if s != [] {
      KeepCounts(s[..|s| - 1], keep, x);
      SplitLast(s);
    }
  }

  /** Keeping from a permutation gives a permutation. */
  lemma KeepShuffled<T>(s: seq<T>, t: seq<T>, keep: T -> bool)
    requires multiset(s) == multiset(t)
    ensures multiset(Keep(s, keep)) == multiset(Keep(t, keep))
  {
    forall x ensures multiset(Keep(s, keep))[x] == multiset(Keep(t, keep))[x] {
      KeepCounts(s, keep, x);
      KeepCounts(t, keep, x);
    }
    SameCounts(multiset(Keep(s, keep)), multiset(Keep(t, keep)));
  }

  lemma SameCounts<T>(a: multiset<T>, b: multiset<T>)
    requires forall x :: a[x] == b[x]
    ensures a == b
  {
  }

  lemma {:induction false} KeepTwice<T>(s: seq<T>, keep: T -> bool, keep': T -> bool, both: T -> bool)
    requires forall x :: x in s ==> both(x) == (keep(x) && keep'(x))
    ensures Keep(Keep(s, keep), keep') == Keep(s, both)
  {
    if s != [] {
      var n := |s| - 1;
      SplitLast(s);
      KeepTwice(s[..n], keep, keep', both);
      var k := Keep(s[..n], keep);
      assert (k + [s[n]])[..|k|] == k;
      AppendNone(k);
    }
  }

  /** Places `m` of `s`, in order, hold the elements of `t`. */
  ghost predicate Embeds<T>(t: seq<T>, s: seq<T>, m: seq<nat>) {
    && |m| == |t| && Ascending(m, Below)
    && forall i :: 0 <= i < |t| ==> m[i] < |s| && t[i] == s[m[i]]
  }

  lemma {:induction false} KeepEmbeds<T>(s: seq<T>, keep: T -> bool) returns (m: seq<nat>)
    ensures Embeds(Keep(s, keep), s, m)
  {
    m := [];
    if s != [] {
      var n := |s| - 1;
      m := KeepEmbeds(s[..n], keep);
      if keep(s[n]) {
        m := m + [n];
      }
    }
  }

  /** What holds between any two kept elements makes the kept list sorted. */
  lemma KeepOrdered<T>(s: seq<T>, keep: T -> bool, less: (T, T) -> bool)
    requires forall i, j :: 0 <= i < j < |s| && keep(s[i]) && keep(s[j]) ==> less(s[i], s[j])
    ensures Ascending(Keep(s, keep), less)
  {
    var m := KeepEmbeds(s, keep);
    KeepMembers(s, keep);
    var k := Keep(s, keep);
    forall i, j | 0 <= i < j < |k| ensures less(k[i], k[j]) {
      assert Below(m[i], m[j]) && k[i] in k && k[j] in k;
    }
  }

  lemma AscendingInsert<T>(a: seq<T>, x: T, b: seq<T>, less: (T, T) -> bool)
    requires Ascending(a + b, less) && (forall y :: y in a ==> less(y, x)) && (forall y :: y in b ==> less(x, y))
    ensures Ascending(a + [x] + b, less)
  {
    var s, t := a + b, a + [x] + b;
    forall i, j | 0 <= i < j < |t| ensures less(t[i], t[j]) {
      if i != |a| && j != |a| {
        assert less(s[if i < |a| then i else i - 1], s[if j < |a| then j else j - 1]);
      } else if i == |a| {
        assert t[j] == b[j - |a| - 1];
      } else {
        assert t[i] == a[i];
      }
    }
  }

  lemma AscendingCut<T>(a: seq<T>, b: seq<T>, c: seq<T>, less: (T, T) -> bool)
    requires Ascending(a + b + c, less)
    ensures Ascending(a + c, less)
  {
    var s, t := a + b + c, a + c;
    forall i, j | 0 <= i < j < |t| ensures less(t[i], t[j]) {
      assert t[i] == s[if i < |a| then i else i + |b|] && t[j] == s[if j < |a| then j else j + |b|];
    }
  }
}
