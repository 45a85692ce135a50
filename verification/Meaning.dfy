/** What queries mean: which entries a term, a field and an operator select, in terms of the entries' own fields, and
what this makes of the answers to composed queries. */
module Meaning {
  import opened Ordering
  import opened Entries
  import opened Text
  import opened Parser
  import opened Grammar
  import opened Printer
  import opened Index
  import opened Executor

  // ------------------------------------------------------------------- letters

  predicate IsLetterOrDigit(c: char) {
    'a' <= c <= 'z' || 'A' <= c <= 'Z' || '0' <= c <= '9'
  }

  /** `d` is `c`, or the small letter of the capital `c`. */
  predicate Lowers(c: char, d: char) {
    if 'A' <= c <= 'Z' then d as int - 'a' as int == c as int - 'A' as int else d == c
  }

  predicate SameLetter(c: char, d: char) {
    c == d || Lowers(c, d) || Lowers(d, c)
  }

  predicate SameIgnoringCase(a: string, b: string) {
    |a| == |b| && forall i :: 0 <= i < |a| ==> SameLetter(a[i], b[i])
  }

  /** The message has the word at `i` up to `j`: letters and digits that cannot be extended, in small letters `t`. */
  ghost predicate WordAt(message: string, i: nat, j: nat, t: string) {
    && i < j <= |message| && |t| == j - i
    && (forall k :: i <= k < j ==> IsLetterOrDigit(message[k]) && Lowers(message[k], t[k - i]))
    && (i == 0 || !IsLetterOrDigit(message[i - 1])) && (j == |message| || !IsLetterOrDigit(message[j]))
  }

  ghost predicate HasWord(message: string, t: string) {
    exists i, j :: WordAt(message, i, j, t)
  }

  lemma LowerIs(c: char)
    ensures Lowers(c, LowerChar(c)) && (forall d :: Lowers(c, d) ==> d == LowerChar(c))
    ensures IsSeparator(LowerChar(c)) <==> !IsLetterOrDigit(c)
  {
  }

  lemma RunIsWord(m: string, i: nat, j: nat, t: string)
    ensures RunIs(ToLower(m), IsSeparator, i, j, t) <==> WordAt(m, i, j, t)
  {
    var s := ToLower(m);
    forall k | 0 <= k < |m|
      ensures Lowers(m[k], s[k]) && (forall d :: Lowers(m[k], d) ==> d == s[k]) && (IsSeparator(s[k]) <==> !IsLetterOrDigit(m[k]))
    {
      LowerIs(m[k]);
    }
    if i < j <= |m| && |t| == j - i {
      assert s[i..j] == t <==> forall k :: i <= k < j ==> s[k] == t[k - i] by {
        assert forall k :: i <= k < j ==> s[i..j][k - i] == s[k];
      }
    }
  }

  lemma TokenIffWord(message: string, t: string)
    ensures t in Tokens(message) <==> HasWord(message, t)
  {
    WordsExactly(ToLower(message), IsSeparator, t);
    if i: nat, j: nat :| RunIs(ToLower(message), IsSeparator, i, j, t) {
      RunIsWord(message, i, j, t);
    }
    if i: nat, j: nat :| WordAt(message, i, j, t) {
      RunIsWord(message, i, j, t);
    }
  }

  lemma SameLetterIff(c: char, d: char)
    ensures LowerChar(c) == LowerChar(d) <==> SameLetter(c, d)
  {
  }

  lemma FoldIff(a: string, b: string)
    ensures EqualFold(a, b) <==> SameIgnoringCase(a, b)
    ensures ToLower(a) == ToLower(b) <==> SameIgnoringCase(a, b)
  {
    if |a| == |b| {
      forall i | 0 <= i < |a| ensures LowerChar(a[i]) == LowerChar(b[i]) <==> SameLetter(a[i], b[i]) {
        SameLetterIff(a[i], b[i]);
      }
      assert ToLower(a) == ToLower(b) <==> forall i :: 0 <= i < |a| ==> ToLower(a)[i] == ToLower(b)[i];
    }
  }

  // -------------------------------------------------------------------- leaves

  /** A term selects the entries whose message has it as a word. */
  lemma TermSelects(e: Entry, t: string)
    ensures MatchesNode(e, Term(t)) <==> HasWord(e.message, t)
  {
    TokenIffWord(e.message, t);
  }

  ghost predicate IsNamed(field: string, name: string) {
    SameIgnoringCase(field, name)
  }

  ghost predicate IsCustom(field: string) {
    !IsNamed(field, "level") && !IsNamed(field, "service") && !IsNamed(field, "namespace") && !IsNamed(field, "message")
  }

  lemma NamesAre(field: string, name: string)
    requires name == "level" || name == "service" || name == "namespace" || name == "message"
    ensures ToLower(field) == name <==> IsNamed(field, name)
  {
    BuiltinNames();
    assert ToLower("message") == "message";
    FoldIff(field, name);
  }

  /** A field selects by the entry's own field: the level in any case, service and namespace exactly, the message by a
      word of it, and any other name by the custom field of exactly that name, a missing one counting as empty. */
  lemma FieldSelects(e: Entry, f: string, v: string)
    ensures IsNamed(f, "level") ==> (MatchesNode(e, Field(f, v)) <==> SameIgnoringCase(e.level, v))
    ensures IsNamed(f, "service") ==> (MatchesNode(e, Field(f, v)) <==> e.service == v)
    ensures IsNamed(f, "namespace") ==> (MatchesNode(e, Field(f, v)) <==> e.namespace == v)
    ensures IsNamed(f, "message") ==> (MatchesNode(e, Field(f, v)) <==> exists t :: HasWord(e.message, t) && IsSmall(v, t))
    ensures IsCustom(f) ==> (MatchesNode(e, Field(f, v)) <==> if f in e.fields then e.fields[f] == v else v == "")
  {
    NamesAre(f, "level");
    NamesAre(f, "service");
    NamesAre(f, "namespace");
    NamesAre(f, "message");
    assert |"level"| == 5 && |"service"| == 7 && |"namespace"| == 9 && |"message"| == 7 && "service"[0] != "message"[0];
    FoldIff(e.level, v);
    SmallIs(v);
    TokenIffWord(e.message, ToLower(v));
  }

  /** `t` is `v` in small letters. */
  ghost predicate IsSmall(v: string, t: string) {
    |t| == |v| && forall i :: 0 <= i < |v| ==> Lowers(v[i], t[i])
  }

  lemma SmallIs(v: string)
    ensures forall t :: IsSmall(v, t) <==> t == ToLower(v)
  {
    forall i | 0 <= i < |v| ensures Lowers(v[i], ToLower(v)[i]) && forall d :: Lowers(v[i], d) ==> d == ToLower(v)[i] {
      LowerIs(v[i]);
    }
  }

  // ----------------------------------------------------------------- operators

  /** OR selects the union of what its operands select, AND the intersection, and no query at all selects by namespace,
      service and time alone. */
  lemma OperatorsSelect(req: Request, l: Node, r: Node, all: set<Entry>)
    ensures Matching(req, Some(Or(l, r)), all) == Matching(req, Some(l), all) + Matching(req, Some(r), all)
    ensures Matching(req, Some(And(l, r)), all) == Matching(req, Some(l), all) * Matching(req, Some(r), all)
  {
  }

  /** The request's own tests: empty names and times that are not positive select everything. */
  ghost predicate Asked(req: Request, e: Entry) {
    && (req.namespace == "" || e.namespace == req.namespace) && (req.service == "" || e.service == req.service)
    && (req.start <= 0 || req.start <= e.timestamp) && (req.end <= 0 || e.timestamp <= req.end)
  }

  lemma RequestSelects(req: Request, ast: Option<Node>, all: set<Entry>)
    ensures Matching(req, ast, all) == set e | e in all && Asked(req, e) && (ast.None? || MatchesNode(e, ast.value))
  {
  }

  // ----------------------------------------------------------------- conjuncts

  /** Every match of `node` must match `leaf`: it stands in `node` under ANDs only. */
  ghost predicate Conjunct(node: Node, leaf: Node) {
    leaf == node || (node.And? && (Conjunct(node.left, leaf) || Conjunct(node.right, leaf)))
  }

  lemma {:induction false} ConjunctsMatch(e: Entry, node: Node, leaf: Node)
    requires MatchesNode(e, node) && Conjunct(node, leaf)
    ensures MatchesNode(e, leaf)
  {
    if leaf != node {
      if Conjunct(node.left, leaf) {
        ConjunctsMatch(e, node.left, leaf);
      } else {
        ConjunctsMatch(e, node.right, leaf);
      }
    }
  }

  /** The tokens that are looked up in the index are exactly the terms among the conjuncts. */
  lemma {:induction false} LookedUpIff(node: Node, t: string)
    ensures t in CollectTermTokens(node) <==> Conjunct(node, Term(t))
  {
    if node.And? {
      LookedUpIff(node.left, t);
      LookedUpIff(node.right, t);
    }
  }

  /** A filter rules a segment out exactly if it lacks a term, or the small-lettered value of a field, among the
      conjuncts. */
  lemma {:induction false} RuledOutIff(bf: Bloom, node: Node)
    ensures BloomDefiniteMiss(bf, node) <==>
      || (exists t :: Conjunct(node, Term(t)) && t !in bf)
      || (exists f, v :: Conjunct(node, Field(f, v)) && ToLower(v) !in bf)
  {
    match node
    case And(l, r) =>
      RuledOutIff(bf, l);
      RuledOutIff(bf, r);
      assert forall leaf :: Conjunct(l, leaf) || Conjunct(r, leaf) ==> Conjunct(node, leaf);
    case Or(_, _) =>
    case Term(t) =>
      assert Conjunct(node, Term(t));
    case Field(f, v) =>
      assert Conjunct(node, Field(f, v));
  }

  // -------------------------------------------------------------------- spaces

  predicate AllSpace(s: string) {
    forall c :: c in s ==> c in [' ', '\t', '\n', 11 as char, 12 as char, '\r']
  }

  lemma SpacesAre(s: string)
    ensures AllSpace(s) <==> forall c :: c in s ==> IsSpace(c)
    ensures AllSpace(s) <==> Blank(s)
  {
    forall c: char ensures c in [' ', '\t', '\n', 11 as char, 12 as char, '\r'] <==> IsSpace(c) {
    }
  }

  predicate Blank(s: string) {
    forall i :: 0 <= i < |s| ==> IsSpace(s[i])
  }

  lemma TrimFirst(c: char, s: string)
    requires IsSpace(c)
    ensures Trim([c] + s) == Trim(s)
  {
    assert ([c] + s)[1..] == s;
  }

  lemma {:induction false} TrimBefore(a: string, s: string)
    requires Blank(a)
    ensures Trim(a + s) == Trim(s)
  {
    if a == [] {
      assert a + s == s;
    } else {
      assert a + s == [a[0]] + (a[1..] + s);
      TrimBefore(a[1..], s);
      TrimFirst(a[0], a[1..] + s);
    }
  }

  lemma {:induction false} TrimLast(s: string, c: char)
    requires IsSpace(c)
    ensures Trim(s + [c]) == Trim(s)
  {
    if s == [] {
      assert s + [c] == [c] + s;
      TrimFirst(c, s);
    } else if IsSpace(s[0]) {
      assert s == [s[0]] + s[1..] && s + [c] == [s[0]] + (s[1..] + [c]);
      TrimLast(s[1..], c);
      TrimFirst(s[0], s[1..] + [c]);
      TrimFirst(s[0], s[1..]);
    } else {
      assert (s + [c])[..|s|] == s;
    }
  }

  lemma {:induction false} TrimAfter(s: string, b: string)
    requires Blank(b)
    ensures Trim(s + b) == Trim(s)
  {
    if b == [] {
      assert s + b == s;
    } else {
      var n := |b| - 1;
      assert s + b == (s + b[..n]) + [b[n]];
      TrimAfter(s, b[..n]);
      TrimLast(s + b[..n], b[n]);
    }
  }

  lemma TrimIgnores(a: string, s: string, b: string)
    requires AllSpace(a) && AllSpace(b)
    ensures Trim(a + s + b) == Trim(s)
  {
    SpacesAre(a);
    SpacesAre(b);
    TrimAfter(a + s, b);
    TrimBefore(a, s);
  }

  /** Spaces before and after a query never matter. */
  lemma SpacesIgnored(a: string, s: string, b: string)
    requires AllSpace(a) && AllSpace(b)
    ensures Parsed(a + s + b) == Parsed(s)
  {
    TrimIgnores(a, s, b);
  }

  /** A query parses to no AST if and only if it is all spaces. */
  lemma BlankIff(s: string)
    ensures Parsed(s) == Ok(None) <==> AllSpace(s)
  {
    TrimLeaves(s);
    SpacesAre(s);
    if AllSpace(s) {
      assert [] + s == s;
      TrimAfter([], s);
    }
  }

  lemma {:induction false} TrimLeaves(s: string)
    ensures Lexed(Trim(s)) == Lexed(s)
    ensures Trim(s) == "" ==> forall c :: c in s ==> IsSpace(c)
    decreases |s|
  {
    if s != [] && IsSpace(s[0]) {
      TrimLeaves(s[1..]);
      assert "" + [s[0]] + s[1..] == s;
      LexSpace("", s[0], s[1..]);
      LexNothing();
    } else if s != [] && IsSpace(s[|s| - 1]) {
      var n := |s| - 1;
      TrimLeaves(s[..n]);
      assert s[..n] + [s[n]] + "" == s;
      LexSpace(s[..n], s[n], "");
      LexNothing();
      AppendNone(Lexed(s[..n]));
    }
  }

  lemma NoTokens()
    ensures ParsedTokens([]).Err?
  {
  }

  /** A query has an AST if and only if its tokens parse to it. */
  lemma ParsedByTokens(s: string, node: Node)
    ensures Parsed(s) == Ok(Some(node)) <==> ParsedTokens(Lexed(s)) == Ok(node)
  {
    TrimLeaves(s);
    LexNothing();
    NoTokens();
  }

  // ----------------------------------------------------------- composed queries

  /** Two queries in brackets, joined by an operator. */
  function Joined(p: string, op: string, q: string): string {
    "(" + p + ") " + op + " (" + q + ")"
  }

  lemma JoinedShape(p: string, op: string, q: string)
    ensures Joined(p, op, q) == "" + ['('] + (p + [')'] + ("" + [' '] + (op + [' '] + ("" + ['('] + (q + [')'] + "")))))
  {
  }

  lemma LexJoined(p: string, op: string, q: string)
    requires op == "AND" || op == "OR"
    ensures Lexed(Joined(p, op, q)) == (["("] + Lexed(p) + [")"]) + [op] + (["("] + Lexed(q) + [")"])
  {
    var tail := "" + ['('] + (q + [')'] + "");
    JoinedShape(p, op, q);
    LexBracket("", '(', p + [')'] + ("" + [' '] + (op + [' '] + tail)));
    LexBracket(p, ')', "" + [' '] + (op + [' '] + tail));
    LexSpace("", ' ', op + [' '] + tail);
    LexSpace(op, ' ', tail);
    LexBracket("", '(', q + [')'] + "");
    LexBracket(q, ')', "");
    LexNothing();
    LexWord(op);
    Regrouped(Lexed(p), op, Lexed(q));
  }

  lemma Regrouped(a: seq<string>, op: string, b: seq<string>)
    ensures [] + [['(']] + (a + [[')']] + ([] + ([op] + ([] + [['(']] + (b + [[')']] + []))))) == (["("] + a + [")"]) + [op] + (["("] + b + [")"])
  {
  }

  /** A query in brackets, joined to another in brackets, parses to the operator applied to their ASTs. */
  lemma JoinedParses(p: string, q: string, a: Node, b: Node)
    requires Parsed(p) == Ok(Some(a)) && Parsed(q) == Ok(Some(b))
    ensures Parsed(Joined(p, "OR", q)) == Ok(Some(Or(a, b))) && Parsed(Joined(p, "AND", q)) == Ok(Some(And(a, b)))
  {
    ParsedByTokens(p, a);
    ParsedByTokens(q, b);
    ParsesIffDerivable(Lexed(p), a);
    ParsesIffDerivable(Lexed(q), b);
    var op :| Derives(op, Lexed(p), a);
    var oq :| Derives(oq, Lexed(q), b);
    OrJoins(Paren(op), Paren(oq), p, q);
    AndJoins(Paren(op), Paren(oq), p, q);
  }

  lemma OrJoins(l: Atom, r: Atom, p: string, q: string)
    requires AtomOk(l) && AtomOk(r) && AtomYield(l) == ["("] + Lexed(p) + [")"] && AtomYield(r) == ["("] + Lexed(q) + [")"]
    ensures Parsed(Joined(p, "OR", q)) == Ok(Some(Or(AtomAst(l), AtomAst(r))))
  {
    var ts, node, o := Lexed(Joined(p, "OR", q)), Or(AtomAst(l), AtomAst(r)), Either(l, r).inner;
    LexJoined(p, "OR", q);
    EitherMeans(l, r);
    EitherSpells(l, r);
    Unbracketed(OrYield(o), AtomYield(l), "OR", AtomYield(r));
    assert Derives(o, ts, node);
    ParsesIffDerivable(ts, node);
    ParsedByTokens(Joined(p, "OR", q), node);
  }

  lemma AndJoins(l: Atom, r: Atom, p: string, q: string)
    requires AtomOk(l) && AtomOk(r) && AtomYield(l) == ["("] + Lexed(p) + [")"] && AtomYield(r) == ["("] + Lexed(q) + [")"]
    ensures Parsed(Joined(p, "AND", q)) == Ok(Some(And(AtomAst(l), AtomAst(r))))
  {
    var ts, node, o := Lexed(Joined(p, "AND", q)), And(AtomAst(l), AtomAst(r)), Both(l, r).inner;
    LexJoined(p, "AND", q);
    BothMeans(l, r);
    BothSpells(l, r);
    Unbracketed(OrYield(o), AtomYield(l), "AND", AtomYield(r));
    assert Derives(o, ts, node);
    ParsesIffDerivable(ts, node);
    ParsedByTokens(Joined(p, "AND", q), node);
  }

  lemma Unbracketed(y: seq<string>, a: seq<string>, op: string, b: seq<string>)
    requires ["("] + y + [")"] == ["("] + a + [op] + b + [")"]
    ensures y == a + [op] + b
  {
    var x, z := ["("] + y + [")"], ["("] + a + [op] + b + [")"];
    assert y == x[1..|x| - 1] && a + [op] + b == z[1..|z| - 1];
  }

  // -------------------------------------------------------------------- answers

  /** The request from the first entry on, with room for all of them. */
  ghost predicate Unpaged(req: Request, all: set<Entry>) {
    req.offset == 0 && req.limit > |all|
  }

  /** The entries of an answer without paging are the matching ones. */
  lemma UnpagedAnswer(req: Request, all: set<Entry>)
    requires IdsIdentify(all) && Unpaged(req, all) && Parsed(req.query).Ok?
    ensures FullScan(req, all).Success? && ToSet(FullScan(req, all).value.entries) == Matching(req, Parsed(req.query).value, all)
  {
    var some := Matching(req, Parsed(req.query).value, all);
    CountWithin(some, all);
    RankCount(some);
    assert Page(Rank(some), 0, req.limit) == Rank(some);
  }

  /** On any store, the answer to two queries joined by OR has the entries that either one gets, and joined by AND those
      that both get. */
  lemma JoinedAnswers(req: Request, p: string, q: string, all: set<Entry>)
    requires IdsIdentify(all) && Unpaged(req, all)
    requires Parsed(p).Ok? && Parsed(p).value.Some? && Parsed(q).Ok? && Parsed(q).value.Some?
    ensures var a, b := FullScan(req.(query := p), all), FullScan(req.(query := q), all);
      var either, both := FullScan(req.(query := Joined(p, "OR", q)), all), FullScan(req.(query := Joined(p, "AND", q)), all);
      && a.Success? && b.Success? && either.Success? && both.Success?
      && ToSet(either.value.entries) == ToSet(a.value.entries) + ToSet(b.value.entries)
      && ToSet(both.value.entries) == ToSet(a.value.entries) * ToSet(b.value.entries)
  {
    var l, r := Parsed(p).value.value, Parsed(q).value.value;
    JoinedParses(p, q, l, r);
    UnpagedAnswer(req.(query := p), all);
    UnpagedAnswer(req.(query := q), all);
    UnpagedAnswer(req.(query := Joined(p, "OR", q)), all);
    UnpagedAnswer(req.(query := Joined(p, "AND", q)), all);
    OperatorsSelect(req, l, r, all);
    SameTests(req, p, Some(l), all);
    SameTests(req, q, Some(r), all);
    SameTests(req, Joined(p, "OR", q), Some(Or(l, r)), all);
    SameTests(req, Joined(p, "AND", q), Some(And(l, r)), all);
  }

  lemma SameTests(req: Request, query: string, ast: Option<Node>, all: set<Entry>)
    ensures Matching(req.(query := query), ast, all) == Matching(req, ast, all)
  {
  }

  /** The local executor, on a disk that the index describes, with filters off: the answer to two queries joined by OR has
      exactly the entries that either one gets, and joined by AND those that both get. */
  method AskJoined(idx: Index, disk: Contents, req: Request, p: string, q: string)
    returns (a: Outcome<QueryResult>, b: Outcome<QueryResult>, either: Outcome<QueryResult>, both: Outcome<QueryResult>)
    requires idx.Agrees(disk) && IdsIdentify(EntriesOf(disk)) && Unpaged(req, EntriesOf(disk))
    requires Parsed(p).Ok? && Parsed(p).value.Some? && Parsed(q).Ok? && Parsed(q).value.Some?
    ensures a.Success? && b.Success? && either.Success? && both.Success?
    ensures ToSet(either.value.entries) == ToSet(a.value.entries) + ToSet(b.value.entries)
    ensures ToSet(both.value.entries) == ToSet(a.value.entries) * ToSet(b.value.entries)
    ensures a == FullScan(req.(query := p), EntriesOf(disk)) && b == FullScan(req.(query := q), EntriesOf(disk))
  {
    a := Ask(idx, disk, req.(query := p));
    b := Ask(idx, disk, req.(query := q));
    either := Ask(idx, disk, req.(query := Joined(p, "OR", q)));
    both := Ask(idx, disk, req.(query := Joined(p, "AND", q)));
    JoinedAnswers(req, p, q, EntriesOf(disk));
  }

  method Ask(idx: Index, disk: Contents, req: Request) returns (r: Outcome<QueryResult>)
    requires idx.Agrees(disk) && IdsIdentify(EntriesOf(disk))
    ensures r == FullScan(req, EntriesOf(disk))
  {
    var kept;
    r, kept := Execute(req, idx, disk, disk, map[], NO_FAULTS);
    ExecuteIsFullScan(req, disk, disk, map[], kept, r);
  }
}
