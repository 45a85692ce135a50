/** ASCII text: lower-casing, word splitting and the message tokens shared by the index,
the executor and the bloom filters. */
module Text {
  import opened Ordering

  predicate IsSpace(c: char) {
    c == ' ' || '\t' <= c <= '\r'
  }

  predicate IsAlphanumeric(c: char) {
    'a' <= c <= 'z' || '0' <= c <= '9'
  }

  predicate IsSeparator(c: char) {
    !IsAlphanumeric(c)
  }

  function LowerChar(c: char): char {
    if 'A' <= c <= 'Z' then c + 32 as char else c
  }

  function ToLower(s: string): (r: string)
    ensures |r| == |s| && forall i :: 0 <= i < |s| ==> r[i] == LowerChar(s[i])
  {
    seq(|s|, i requires 0 <= i < |s| => LowerChar(s[i]))
  }

  /** Go's strings.EqualFold on ASCII. */
  predicate EqualFold(a: string, b: string) {
    |a| == |b| && forall i :: 0 <= i < |a| ==> LowerChar(a[i]) == LowerChar(b[i])
  }

  lemma LowerIdempotent(s: string)
    ensures ToLower(ToLower(s)) == ToLower(s)
  {
  }

  /** Length of the leading run of characters that are not separators. */
  function WordEnd(s: string, sep: char -> bool): (k: nat)
    ensures k <= |s| && (forall i :: 0 <= i < k ==> !sep(s[i])) && (k < |s| ==> sep(s[k]))
  {
    if s == [] || sep(s[0]) then 0 else 1 + WordEnd(s[1..], sep)
  }

  /** The maximal separator-free runs of `s`, in order. */
  function Words(s: string, sep: char -> bool): seq<string>
    decreases |s|
  {
    if s == [] then []
    else if sep(s[0]) then Words(s[1..], sep)
    else
      var k := WordEnd(s, sep);
      [s[..k]] + Words(s[k..], sep)
  }

  lemma WordEndAt(s: string, sep: char -> bool, k: nat)
    requires k <= |s| && (forall i :: 0 <= i < k ==> !sep(s[i])) && (k < |s| ==> sep(s[k]))
    ensures WordEnd(s, sep) == k
  {
  }

  /** A separator splits the words on its two sides. */
  lemma {:induction false} WordsSplit(a: string, c: char, b: string, sep: char -> bool)
    requires sep(c)
    ensures Words(a + [c] + b, sep) == Words(a, sep) + Words(b, sep)
    decreases |a|
  {
    var s := a + [c] + b;
    if a == [] {
      assert s[1..] == b;
    } else if sep(a[0]) {
      assert s[1..] == a[1..] + [c] + b;
      WordsSplit(a[1..], c, b, sep);
    } else {
      var k := WordEnd(a, sep);
      WordEndAt(s, sep, k);
      assert s[..k] == a[..k] && s[k..] == a[k..] + [c] + b;
      WordsSplit(a[k..], c, b, sep);
      assert Words(s, sep) == [s[..k]] + Words(s[k..], sep);
      assert Words(a, sep) == [a[..k]] + Words(a[k..], sep);
    }
  }

  lemma WordsSingle(w: string, sep: char -> bool)
    requires w != [] && forall c :: c in w ==> !sep(c)
    ensures Words(w, sep) == [w]
  {
    WordEndAt(w, sep, |w|);
    assert w[..|w|] == w && w[|w|..] == [];
  }

  /** Every word is non-empty, separator-free and made of characters of `s`. */
  lemma {:induction false} WordsClean(s: string, sep: char -> bool)
    ensures forall w :: w in Words(s, sep) ==> w != [] && forall c :: c in w ==> c in s && !sep(c)
    decreases |s|
  {
    if s != [] {
      if sep(s[0]) {
        WordsClean(s[1..], sep);
      } else {
        var k := WordEnd(s, sep);
        WordsClean(s[k..], sep);
      }
    }
  }

  /** `s[i..j]` is a non-empty run without separators that cannot be extended on either side. */
  ghost predicate MaximalRun(s: string, sep: char -> bool, i: nat, j: nat) {
    && i < j <= |s| && (forall k :: i <= k < j ==> !sep(s[k]))
    && (i == 0 || sep(s[i - 1])) && (j == |s| || sep(s[j]))
  }

  ghost predicate RunIs(s: string, sep: char -> bool, i: nat, j: nat, w: string) {
    MaximalRun(s, sep, i, j) && s[i..j] == w
  }

  lemma RunAfter(s: string, sep: char -> bool, n: nat, i: nat, j: nat, w: string)
    requires n <= |s| && (n == |s| || sep(s[n]) || (n > 0 && sep(s[n - 1])))
    ensures RunIs(s[n..], sep, i, j, w) ==> RunIs(s, sep, n + i, n + j, w)
  {
    if RunIs(s[n..], sep, i, j, w) {
      assert s[n..][i..j] == s[n + i..n + j];
      assert forall k :: n + i <= k < n + j ==> s[k] == s[n..][k - n];
      assert i > 0 ==> s[n + i - 1] == s[n..][i - 1];
      assert j < |s[n..]| ==> s[n + j] == s[n..][j];
      assert i == 0 ==> s[n] == s[n..][0];
    }
  }

  lemma RunBeyond(s: string, sep: char -> bool, n: nat, i: nat, j: nat, w: string)
    requires n <= i && RunIs(s, sep, i, j, w)
    ensures RunIs(s[n..], sep, i - n, j - n, w)
  {
    assert s[n..][i - n..j - n] == s[i..j];
    assert forall k :: i - n <= k < j - n ==> s[n..][k] == s[n + k];
    assert i > n ==> s[n..][i - n - 1] == s[i - 1];
    assert j < |s| ==> s[n..][j - n] == s[j];
  }

  /** The words are exactly the maximal runs. */
  lemma {:induction false} WordsExactly(s: string, sep: char -> bool, w: string)
    ensures w in Words(s, sep) <==> exists i, j :: RunIs(s, sep, i, j, w)
    decreases |s|
  {
    if s != [] {
      if sep(s[0]) {
        WordsExactly(s[1..], sep, w);
        ShiftedRuns(s, sep, 1, w);
      } else {
        var k := WordEnd(s, sep);
        WordsExactly(s[k..], sep, w);
        ShiftedRuns(s, sep, k, w);
        assert RunIs(s, sep, 0, k, s[..k]) by { assert s[0..k] == s[..k]; }
        if i: nat, j: nat :| RunIs(s, sep, i, j, w) && i < k {
          assert i == 0 && j == k;
        }
      }
    }
  }

  /** After a separator or up to one, the runs of the rest are the later runs. */
  lemma ShiftedRuns(s: string, sep: char -> bool, n: nat, w: string)
    requires 0 < n <= |s| && (n == |s| || sep(s[n]) || (n == 1 && sep(s[0])))
    ensures (exists i, j :: RunIs(s[n..], sep, i, j, w)) <==> exists i, j :: n <= i && RunIs(s, sep, i, j, w)
  {
    if i: nat, j: nat :| RunIs(s[n..], sep, i, j, w) {
      RunAfter(s, sep, n, i, j, w);
      assert RunIs(s, sep, n + i, n + j, w);
    }
    if i: nat, j: nat :| n <= i && RunIs(s, sep, i, j, w) {
      RunBeyond(s, sep, n, i, j, w);
    }
  }

  /** The tokens of a message: its lower-case alphanumeric words. */
  function Tokens(message: string): seq<string> {
    Words(ToLower(message), IsSeparator)
  }

  /** Go's regexp Split: the pieces around the separator runs, which may be empty at the ends. */
  function Pieces(s: string, sep: char -> bool): seq<string>
    decreases |s|
  {
    var k := WordEnd(s, sep);
    if k == |s| then [s] else [s[..k]] + Pieces(s[SepEnd(s, k, sep)..], sep)
  }

  function SepEnd(s: string, k: nat, sep: char -> bool): (m: nat)
    requires k < |s| && sep(s[k])
    ensures k < m <= |s|
    decreases |s| - k
  {
    if k + 1 == |s| || !sep(s[k + 1]) then k + 1 else SepEnd(s, k + 1, sep)
  }

  lemma {:induction false} SkipSeparators(s: string, k: nat, sep: char -> bool)
    requires k < |s| && sep(s[k])
    ensures Words(s[k..], sep) == Words(s[SepEnd(s, k, sep)..], sep)
    decreases |s| - k
  {
    assert s[k..][1..] == s[k + 1..];
    if k + 1 < |s| && sep(s[k + 1]) {
      SkipSeparators(s, k + 1, sep);
    }
  }

  function NonEmpty(parts: seq<string>): seq<string> {
    Keep(parts, x => x != "")
  }

  lemma NonEmptyOne(p: string)
    ensures NonEmpty([p]) == if p == "" then [] else [p]
  {
    KeepNext([p], 0, x => x != "");
    assert [p][..1] == [p] && [p][..0] == [];
  }

  lemma WordsFirst(s: string, sep: char -> bool)
    ensures Words(s, sep) == NonEmpty([s[..WordEnd(s, sep)]]) + Words(s[WordEnd(s, sep)..], sep)
  {
    var k := WordEnd(s, sep);
    NonEmptyOne(s[..k]);
    if k == 0 {
      assert s[0..] == s;
    }
  }

  lemma {:induction false} PiecesAreWords(s: string, sep: char -> bool)
    ensures NonEmpty(Pieces(s, sep)) == Words(s, sep)
    decreases |s|
  {
    var k := WordEnd(s, sep);
    WordsFirst(s, sep);
    if k == |s| {
      assert s[..k] == s && s[k..] == [];
    } else {
      var m := SepEnd(s, k, sep);
      PiecesAreWords(s[m..], sep);
      KeepConcat([s[..k]], Pieces(s[m..], sep), x => x != "");
      SkipSeparators(s, k, sep);
    }
  }

  /** tokenize: split around separator runs and drop the empty pieces. */
  method Tokenize(s: string) returns (out: seq<string>)
    ensures out == Tokens(s)
  {
    var parts := Pieces(ToLower(s), IsSeparator);
    out := [];
    for i := 0 to |parts|
      invariant out == NonEmpty(parts[..i])
    {
      KeepNext(parts, i, x => x != "");
      if parts[i] != "" {
        out := out + [parts[i]];
      }
    }
    assert parts[..|parts|] == parts;
    PiecesAreWords(ToLower(s), IsSeparator);
  }

  /** Tokens are lower-case already, so looking one up never depends on its case. */
  lemma TokensLower(message: string)
    ensures forall t :: t in Tokens(message) ==> ToLower(t) == t && t != ""
  {
    WordsClean(ToLower(message), IsSeparator);
    forall t | t in Tokens(message) ensures ToLower(t) == t {
      forall i | 0 <= i < |t| ensures LowerChar(t[i]) == t[i] {
        assert t[i] in t;
      }
    }
  }
}
