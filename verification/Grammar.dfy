/** The documented query grammar as derivation trees, and the parser's agreement with it.

    or_expr  = and_expr ( "OR" and_expr )*
    and_expr = atom ( "AND" atom )*
    atom     = "(" or_expr ")" | field_term | bare_term

The parser accepts exactly the token lists derivable from this grammar when any token other than
"(", "AND" and "OR" is admitted as a term, and builds the left-associated AST of the derivation.
*/
module Grammar {
  import opened Text
  import opened Parser

  datatype Atom = Paren(inner: OrExpr) | Word(text: string)
  datatype AndExpr = AndExpr(first: Atom, rest: AndMore)
  datatype AndMore = AndEnd | AndThen(atom: Atom, more: AndMore)
  datatype OrExpr = OrExpr(first: AndExpr, rest: OrMore)
  datatype OrMore = OrEnd | OrThen(conj: AndExpr, more: OrMore)

  predicate IsWord(t: string) {
    t != "" && t != "AND" && t != "OR" && t != "("
  }

  // ------------------------------------------------- well-formed derivations

  predicate AtomOk(a: Atom) {
    match a case Paren(o) => OrOk(o) case Word(t) => IsWord(t)
  }
  predicate AndOk(c: AndExpr) {
    AtomOk(c.first) && AndMoreOk(c.rest)
  }
  predicate AndMoreOk(m: AndMore) {
    match m case AndEnd => true case AndThen(a, n) => AtomOk(a) && AndMoreOk(n)
  }
  predicate OrOk(o: OrExpr) {
    AndOk(o.first) && OrMoreOk(o.rest)
  }
  predicate OrMoreOk(m: OrMore) {
    match m case OrEnd => true case OrThen(c, n) => AndOk(c) && OrMoreOk(n)
  }

  // -------------------------------------------------------- token yield

  function AtomYield(a: Atom): seq<string> {
    match a case Paren(o) => ["("] + OrYield(o) + [")"] case Word(t) => [t]
  }
  function AndYield(c: AndExpr): seq<string> {
    AtomYield(c.first) + AndMoreYield(c.rest)
  }
  function AndMoreYield(m: AndMore): seq<string> {
    match m case AndEnd => [] case AndThen(a, n) => ["AND"] + AtomYield(a) + AndMoreYield(n)
  }
  function OrYield(o: OrExpr): seq<string> {
    AndYield(o.first) + OrMoreYield(o.rest)
  }
  function OrMoreYield(m: OrMore): seq<string> {
    match m case OrEnd => [] case OrThen(c, n) => ["OR"] + AndYield(c) + OrMoreYield(n)
  }

  // ------------------------------------- meaning: left-associated operators

  function AtomAst(a: Atom): Node {
    match a case Paren(o) => OrAst(o) case Word(t) => Leaf(t)
  }
  function AndAst(c: AndExpr): Node {
    AndFold(AtomAst(c.first), c.rest)
  }
  function AndFold(left: Node, m: AndMore): Node
    decreases m
  {
    match m case AndEnd => left case AndThen(a, n) => AndFold(And(left, AtomAst(a)), n)
  }
  function OrAst(o: OrExpr): Node {
    OrFold(AndAst(o.first), o.rest)
  }
  function OrFold(left: Node, m: OrMore): Node
    decreases m
  {
    match m case OrEnd => left case OrThen(c, n) => OrFold(Or(left, AndAst(c)), n)
  }

  /** `y` stands at position `p` of `ts`. */
  ghost predicate At(ts: seq<string>, p: nat, y: seq<string>) {
    p + |y| <= |ts| && ts[p..p + |y|] == y
  }

  lemma AtSplit(ts: seq<string>, p: nat, a: seq<string>, b: seq<string>)
    requires At(ts, p, a + b)
    ensures At(ts, p, a) && At(ts, p + |a|, b)
  {
    assert ts[p..p + |a|] == (a + b)[..|a|];
    assert ts[p + |a|..p + |a| + |b|] == (a + b)[|a|..];
  }

  lemma AtOne(ts: seq<string>, p: nat, t: string)
    requires At(ts, p, [t])
    ensures p < |ts| && ts[p] == t
  {
    assert ts[p..p + 1][0] == ts[p];
  }

  lemma AtBrackets(ts: seq<string>, p: nat, y: seq<string>)
    requires At(ts, p, ["("] + y + [")"])
    ensures Peek(ts, p) == "(" && At(ts, p + 1, y) && Peek(ts, p + 1 + |y|) == ")"
  {
    AtOperator(ts, p, "(", y, [")"]);
    AtOne(ts, p + 1 + |y|, ")");
  }

  lemma AtOperator(ts: seq<string>, p: nat, op: string, y: seq<string>, z: seq<string>)
    requires At(ts, p, [op] + y + z)
    ensures Peek(ts, p) == op && At(ts, p + 1, y) && At(ts, p + 1 + |y|, z)
    ensures |[op] + y + z| == 1 + |y| + |z|
  {
    assert [op] + y + z == [op] + (y + z);
    AtSplit(ts, p, [op], y + z);
    AtOne(ts, p, op);
    AtSplit(ts, p + 1, y, z);
  }

  // ------------------------------------------------ derivations in place

  function AtomLen(a: Atom): nat {
    match a case Paren(o) => OrLen(o) + 2 case Word(_) => 1
  }
  function AndLen(c: AndExpr): nat {
    AtomLen(c.first) + AndMoreLen(c.rest)
  }
  function AndMoreLen(m: AndMore): nat {
    match m case AndEnd => 0 case AndThen(a, n) => 1 + AtomLen(a) + AndMoreLen(n)
  }
  function OrLen(o: OrExpr): nat {
    AndLen(o.first) + OrMoreLen(o.rest)
  }
  function OrMoreLen(m: OrMore): nat {
    match m case OrEnd => 0 case OrThen(c, n) => 1 + AndLen(c) + OrMoreLen(n)
  }

  /** The derivation's tokens stand in `ts` from place `p` on, stated place by place. */
  ghost predicate AtomFrom(a: Atom, ts: seq<string>, p: nat) {
    match a
    case Paren(o) => Peek(ts, p) == "(" && OrFrom(o, ts, p + 1) && Peek(ts, p + 1 + OrLen(o)) == ")"
    case Word(t) => p < |ts| && ts[p] == t
  }
  ghost predicate AndFrom(c: AndExpr, ts: seq<string>, p: nat) {
    AtomFrom(c.first, ts, p) && AndMoreFrom(c.rest, ts, p + AtomLen(c.first))
  }
  ghost predicate AndMoreFrom(m: AndMore, ts: seq<string>, p: nat) {
    match m
    case AndEnd => p <= |ts|
    case AndThen(a, n) => Peek(ts, p) == "AND" && AtomFrom(a, ts, p + 1) && AndMoreFrom(n, ts, p + 1 + AtomLen(a))
  }
  ghost predicate OrFrom(o: OrExpr, ts: seq<string>, p: nat) {
    AndFrom(o.first, ts, p) && OrMoreFrom(o.rest, ts, p + AndLen(o.first))
  }
  ghost predicate OrMoreFrom(m: OrMore, ts: seq<string>, p: nat) {
    match m
    case OrEnd => p <= |ts|
    case OrThen(c, n) => Peek(ts, p) == "OR" && AndFrom(c, ts, p + 1) && OrMoreFrom(n, ts, p + 1 + AndLen(c))
  }

  lemma {:induction false} AtomPlaced(a: Atom, ts: seq<string>, p: nat)
    requires At(ts, p, AtomYield(a))
    ensures AtomFrom(a, ts, p) && AtomLen(a) == |AtomYield(a)|
    decreases a
  {
    match a
    case Word(t) => AtOne(ts, p, t);
    case Paren(o) =>
      AtBrackets(ts, p, OrYield(o));
      OrPlaced(o, ts, p + 1);
  }

  lemma {:induction false} AndPlaced(c: AndExpr, ts: seq<string>, p: nat)
    requires At(ts, p, AndYield(c))
    ensures AndFrom(c, ts, p) && AndLen(c) == |AndYield(c)|
    decreases c
  {
    AtSplit(ts, p, AtomYield(c.first), AndMoreYield(c.rest));
    AtomPlaced(c.first, ts, p);
    AndMorePlaced(c.rest, ts, p + AtomLen(c.first));
  }

  lemma {:induction false} AndMorePlaced(m: AndMore, ts: seq<string>, p: nat)
    requires At(ts, p, AndMoreYield(m))
    ensures AndMoreFrom(m, ts, p) && AndMoreLen(m) == |AndMoreYield(m)|
    decreases m
  {
    match m
    case AndEnd =>
    case AndThen(a, n) =>
      assert AndMoreYield(m) == ["AND"] + AtomYield(a) + AndMoreYield(n);
      AtOperator(ts, p, "AND", AtomYield(a), AndMoreYield(n));
      AtomPlaced(a, ts, p + 1);
      AndMorePlaced(n, ts, p + 1 + AtomLen(a));
  }

  lemma {:induction false} OrPlaced(o: OrExpr, ts: seq<string>, p: nat)
    requires At(ts, p, OrYield(o))
    ensures OrFrom(o, ts, p) && OrLen(o) == |OrYield(o)|
    decreases o
  {
    AtSplit(ts, p, AndYield(o.first), OrMoreYield(o.rest));
    AndPlaced(o.first, ts, p);
    OrMorePlaced(o.rest, ts, p + AndLen(o.first));
  }

  lemma {:induction false} OrMorePlaced(m: OrMore, ts: seq<string>, p: nat)
    requires At(ts, p, OrMoreYield(m))
    ensures OrMoreFrom(m, ts, p) && OrMoreLen(m) == |OrMoreYield(m)|
    decreases m
  {
    match m
    case OrEnd =>
    case OrThen(c, n) =>
      assert OrMoreYield(m) == ["OR"] + AndYield(c) + OrMoreYield(n);
      AtOperator(ts, p, "OR", AndYield(c), OrMoreYield(n));
      AndPlaced(c, ts, p + 1);
      OrMorePlaced(n, ts, p + 1 + AndLen(c));
  }

  // ------------------------------------------------------------ completeness

  lemma {:induction false} AtomComplete(a: Atom, ts: seq<string>, p: nat)
    requires AtomOk(a) && AtomFrom(a, ts, p)
    ensures AtomAt(ts, p) == Ok((AtomAst(a), p + AtomLen(a)))
    decreases a
  {
    match a
    case Word(t) =>
    case Paren(o) => OrComplete(o, ts, p + 1);
  }

  lemma {:induction false} AndComplete(c: AndExpr, ts: seq<string>, p: nat)
    requires AndOk(c) && AndFrom(c, ts, p) && Peek(ts, p + AndLen(c)) != "AND"
    ensures AndAt(ts, p) == Ok((AndAst(c), p + AndLen(c)))
    decreases c
  {
    var left, q := AtomAst(c.first), p + AtomLen(c.first);
    AtomComplete(c.first, ts, p);
    AndMoreComplete(c.rest, left, ts, q);
  }

  lemma {:induction false} AndMoreComplete(m: AndMore, left: Node, ts: seq<string>, p: nat)
    requires AndMoreOk(m) && AndMoreFrom(m, ts, p) && Peek(ts, p + AndMoreLen(m)) != "AND"
    ensures p <= |ts| && AndRest(ts, left, p) == Ok((AndFold(left, m), p + AndMoreLen(m)))
    decreases m
  {
    match m
    case AndEnd =>
    case AndThen(a, n) =>
      AtomComplete(a, ts, p + 1);
      AndMoreComplete(n, And(left, AtomAst(a)), ts, p + 1 + AtomLen(a));
  }

  lemma {:induction false} OrComplete(o: OrExpr, ts: seq<string>, p: nat)
    requires OrOk(o) && OrFrom(o, ts, p)
    requires Peek(ts, p + OrLen(o)) != "AND" && Peek(ts, p + OrLen(o)) != "OR"
    ensures OrAt(ts, p) == Ok((OrAst(o), p + OrLen(o)))
    decreases o
  {
    var left, q := AndAst(o.first), p + AndLen(o.first);
    OrMoreStart(o.rest, ts, q);
    AndComplete(o.first, ts, p);
    OrMoreComplete(o.rest, left, ts, q);
  }

  lemma OrMoreStart(m: OrMore, ts: seq<string>, p: nat)
    requires OrMoreFrom(m, ts, p) && Peek(ts, p + OrMoreLen(m)) != "AND"
    ensures Peek(ts, p) != "AND"
  {
  }

  lemma {:induction false} OrMoreComplete(m: OrMore, left: Node, ts: seq<string>, p: nat)
    requires OrMoreOk(m) && OrMoreFrom(m, ts, p)
    requires Peek(ts, p + OrMoreLen(m)) != "AND" && Peek(ts, p + OrMoreLen(m)) != "OR"
    ensures p <= |ts| && OrRest(ts, left, p) == Ok((OrFold(left, m), p + OrMoreLen(m)))
    decreases m
  {
    match m
    case OrEnd =>
    case OrThen(c, n) =>
      OrMoreStart(n, ts, p + 1 + AndLen(c));
      AndComplete(c, ts, p + 1);
      OrMoreComplete(n, Or(left, AndAst(c)), ts, p + 1 + AndLen(c));
  }

  // --------------------------------------------------------------- soundness

  lemma Join(ts: seq<string>, p: nat, q: nat, r: nat, op: string)
    requires p < q <= r <= |ts| && ts[p] == op
    ensures [op] + ts[p + 1..q] + ts[q..r] == ts[p..r]
  {
  }

  lemma Adjacent(ts: seq<string>, p: nat, q: nat, r: nat)
    requires p <= q <= r <= |ts|
    ensures ts[p..q] + ts[q..r] == ts[p..r]
  {
  }

  lemma {:induction false} AtomSound(ts: seq<string>, p: nat) returns (a: Atom)
    requires AtomAt(ts, p).Ok?
    ensures AtomOk(a) && AtomAst(a) == AtomAt(ts, p).value.0 && AtomYield(a) == ts[p..AtomAt(ts, p).value.1]
    decreases |ts| - p, 2
  {
    if ts[p] == "(" {
      var o := OrSound(ts, p + 1);
      a := Paren(o);
    } else {
      a := Word(ts[p]);
    }
  }

  lemma {:induction false} AndSound(ts: seq<string>, p: nat) returns (c: AndExpr)
    requires AndAt(ts, p).Ok?
    ensures AndOk(c) && AndAst(c) == AndAt(ts, p).value.0 && AndYield(c) == ts[p..AndAt(ts, p).value.1]
    decreases |ts| - p, 3
  {
    var a := AtomSound(ts, p);
    var (left, q) := AtomAt(ts, p).value;
    var m := AndMoreSound(ts, left, q);
    c := AndExpr(a, m);
    Adjacent(ts, p, q, AndAt(ts, p).value.1);
  }

  lemma {:induction false} AndMoreSound(ts: seq<string>, left: Node, p: nat) returns (m: AndMore)
    requires p <= |ts| && AndRest(ts, left, p).Ok?
    ensures AndMoreOk(m) && AndFold(left, m) == AndRest(ts, left, p).value.0
    ensures AndMoreYield(m) == ts[p..AndRest(ts, left, p).value.1]
    decreases |ts| - p, 0
  {
    if Peek(ts, p) == "AND" {
      var a := AtomSound(ts, p + 1);
      var (right, q) := AtomAt(ts, p + 1).value;
      var n := AndMoreSound(ts, And(left, right), q);
      m := AndThen(a, n);
      Join(ts, p, q, AndRest(ts, left, p).value.1, "AND");
    } else {
      m := AndEnd;
    }
  }

  lemma {:induction false} OrSound(ts: seq<string>, p: nat) returns (o: OrExpr)
    requires OrAt(ts, p).Ok?
    ensures OrOk(o) && OrAst(o) == OrAt(ts, p).value.0 && OrYield(o) == ts[p..OrAt(ts, p).value.1]
    decreases |ts| - p, 4
  {
    var c := AndSound(ts, p);
    var (left, q) := AndAt(ts, p).value;
    var m := OrMoreSound(ts, left, q);
    o := OrExpr(c, m);
    Adjacent(ts, p, q, OrAt(ts, p).value.1);
  }

  lemma {:induction false} OrMoreSound(ts: seq<string>, left: Node, p: nat) returns (m: OrMore)
    requires p <= |ts| && OrRest(ts, left, p).Ok?
    ensures OrMoreOk(m) && OrFold(left, m) == OrRest(ts, left, p).value.0
    ensures OrMoreYield(m) == ts[p..OrRest(ts, left, p).value.1]
    decreases |ts| - p, 0
  {
    if Peek(ts, p) == "OR" {
      var c := AndSound(ts, p + 1);
      var (right, q) := AndAt(ts, p + 1).value;
      var n := OrMoreSound(ts, Or(left, right), q);
      m := OrThen(c, n);
      Join(ts, p, q, OrRest(ts, left, p).value.1, "OR");
    } else {
      m := OrEnd;
    }
  }

  // ------------------------------------------------------------ the theorems

  ghost predicate Derives(o: OrExpr, ts: seq<string>, node: Node) {
    OrOk(o) && OrYield(o) == ts && OrAst(o) == node
  }

  /** Acceptance is derivability, and the AST is the derivation's left-associated meaning. */
  lemma ParsesIffDerivable(ts: seq<string>, node: Node)
    ensures ParsedTokens(ts) == Ok(node) <==> exists o :: Derives(o, ts, node)
  {
    if ParsedTokens(ts) == Ok(node) {
      var o := OrSound(ts, 0);
      assert OrYield(o) == ts;
      assert Derives(o, ts, node);
    }
    if o :| Derives(o, ts, node) {
      assert ts[0..|ts|] == ts;
      OrPlaced(o, ts, 0);
      OrComplete(o, ts, 0);
    }
  }

  lemma QueryAt(a: seq<string>, ts: seq<string>, p: nat)
    requires ParsedTokens(a).Ok? && At(ts, p, a) && Peek(ts, p + |a|) !in {"AND", "OR"}
    ensures OrAt(ts, p) == Ok((ParsedTokens(a).value, p + |a|))
  {
    var node := ParsedTokens(a).value;
    ParsesIffDerivable(a, node);
    var o :| Derives(o, a, node);
    OrPlaced(o, ts, p);
    OrComplete(o, ts, p);
  }

  /** The errors: a token after a complete query that is not an operator, a parenthesis that is not closed after one,
      nothing, and an operator at the start. */
  lemma MistakesTold(a: seq<string>, t: string, rest: seq<string>)
    requires ParsedTokens(a).Ok?
    ensures t !in {"AND", "OR"} ==> ParsedTokens(a + [t] + rest) == Err(UnexpectedToken(t, |a|))
    ensures ParsedTokens(["("] + a) == Err(ExpectedClose)
    ensures ParsedTokens([]) == Err(UnexpectedEnd)
    ensures t in {"AND", "OR"} ==> ParsedTokens([t] + rest) == Err(UnexpectedOperator(t))
  {
    if t !in {"AND", "OR"} {
      var ts := a + [t] + rest;
      assert ts[0..|a|] == a && ts[|a|] == t;
      QueryAt(a, ts, 0);
    }
    var ts := ["("] + a;
    assert ts[1..1 + |a|] == a && ts[0] == "(";
    QueryAt(a, ts, 1);
    assert AtomAt(ts, 0) == Err(ExpectedClose) && AndAt(ts, 0) == Err(ExpectedClose);
    assert AtomAt([], 0) == Err(UnexpectedEnd) && AndAt([], 0) == Err(UnexpectedEnd);
    if t in {"AND", "OR"} {
      var us := [t] + rest;
      assert us[0] == t;
      assert AtomAt(us, 0) == Err(UnexpectedOperator(t)) && AndAt(us, 0) == Err(UnexpectedOperator(t));
    }
  }

  // ------------------------------------------------------- documented terms

  /** IDENT: text without a colon. */
  predicate IsIdent(t: string) {
    t != "" && ':' !in t
  }

  /** bare_term = IDENT; keywords and brackets stand for themselves. */
  predicate IsBareTerm(t: string) {
    IsWord(t) && t != ")" && IsIdent(t)
  }

  /** field_term = IDENT ":" IDENT */
  ghost predicate IsFieldTerm(t: string) {
    exists key, value :: IsIdent(key) && IsIdent(value) && t == key + ":" + value
  }

  /** If the token has a colon, it has one, with text before and after it. */
  predicate ColonInside(t: string) {
    ':' in t ==> multiset(t)[':'] == 1 && t[0] != ':' && t[|t| - 1] != ':'
  }

  predicate ColonsInside(ts: seq<string>) {
    forall t :: t in ts ==> ColonInside(t)
  }

  lemma NoColon(t: string)
    ensures multiset(t)[':'] == 0 <==> ':' !in t
  {
  }

  lemma ColonBetween(key: string, value: string)
    ensures var t := key + ":" + value; ':' in t && multiset(t)[':'] == multiset(key)[':'] + 1 + multiset(value)[':']
  {
    assert (key + ":" + value)[|key|] == ':';
  }

  lemma FieldTermInside(key: string, value: string)
    requires IsIdent(key) && IsIdent(value)
    ensures var t := key + ":" + value; ':' in t && ColonInside(t)
  {
    var t := key + ":" + value;
    ColonBetween(key, value);
    NoColon(key);
    NoColon(value);
    assert t[0] == key[0] && key[0] in key && t[|t| - 1] == value[|value| - 1] && value[|value| - 1] in value;
  }

  lemma FieldTermIff(t: string)
    ensures IsFieldTerm(t) <==> ':' in t && ColonInside(t)
  {
    if IsFieldTerm(t) {
      var key, value :| IsIdent(key) && IsIdent(value) && t == key + ":" + value;
      FieldTermInside(key, value);
    }
    if ':' in t && ColonInside(t) {
      var k :| 0 <= k < |t| && t[k] == ':';
      var key, value := t[..k], t[k + 1..];
      assert t == key + ":" + value;
      ColonBetween(key, value);
      NoColon(key);
      NoColon(value);
      assert k > 0 && k + 1 < |t|;
      assert IsIdent(key) && IsIdent(value);
    }
  }

  /** The documented derivations: every word is a bare_term or a field_term. */
  ghost predicate AtomClean(a: Atom) {
    match a case Paren(o) => OrClean(o) case Word(t) => IsBareTerm(t) || IsFieldTerm(t)
  }
  ghost predicate AndClean(c: AndExpr) {
    AtomClean(c.first) && AndMoreClean(c.rest)
  }
  ghost predicate AndMoreClean(m: AndMore) {
    match m case AndEnd => true case AndThen(a, n) => AtomClean(a) && AndMoreClean(n)
  }
  ghost predicate OrClean(o: OrExpr) {
    AndClean(o.first) && OrMoreClean(o.rest)
  }
  ghost predicate OrMoreClean(m: OrMore) {
    match m case OrEnd => true case OrThen(c, n) => AndClean(c) && OrMoreClean(n)
  }

  /** Closing minus opening brackets. */
  function Excess(ts: seq<string>): int {
    multiset(ts)[")"] as int - multiset(ts)["("] as int
  }

  lemma Joined(a: seq<string>, b: seq<string>)
    ensures Excess(a + b) == Excess(a) + Excess(b)
    ensures ColonsInside(a + b) <==> ColonsInside(a) && ColonsInside(b)
  {
    assert forall t :: t in a + b <==> t in a || t in b;
  }

  lemma Single(t: string)
    ensures ColonsInside([t]) <==> ColonInside(t)
    ensures Excess([t]) == if t == ")" then 1 else if t == "(" then -1 else 0
  {
    assert t in [t];
  }

  lemma Keyword(k: string)
    requires k == "AND" || k == "OR" || k == "("
    ensures ColonsInside([k]) && Excess([k]) == if k == "(" then -1 else 0
  {
    assert ':' !in "AND" && ':' !in "OR" && ':' !in "(";
    Single(k);
  }

  lemma JoinedAfter(k: string, a: seq<string>, b: seq<string>)
    requires ColonsInside([k])
    ensures Excess([k] + a + b) == Excess([k]) + Excess(a) + Excess(b)
    ensures ColonsInside([k] + a + b) <==> ColonsInside(a) && ColonsInside(b)
  {
    Joined([k], a);
    Joined([k] + a, b);
  }

  lemma {:induction false} AtomExcess(a: Atom)
    requires AtomOk(a)
    ensures Excess(AtomYield(a)) >= 0
    ensures Excess(AtomYield(a)) == 0 && ColonsInside(AtomYield(a)) <==> AtomClean(a)
    decreases a
  {
    match a
    case Word(t) =>
      FieldTermIff(t);
      Single(t);
    case Paren(o) =>
      OrExcess(o);
      Single(")");
      Keyword("(");
      JoinedAfter("(", OrYield(o), [")"]);
  }

  lemma {:induction false} AndExcess(c: AndExpr)
    requires AndOk(c)
    ensures Excess(AndYield(c)) >= 0
    ensures Excess(AndYield(c)) == 0 && ColonsInside(AndYield(c)) <==> AndClean(c)
    decreases c
  {
    AtomExcess(c.first);
    AndMoreExcess(c.rest);
    Joined(AtomYield(c.first), AndMoreYield(c.rest));
  }

  lemma {:induction false} AndMoreExcess(m: AndMore)
    requires AndMoreOk(m)
    ensures Excess(AndMoreYield(m)) >= 0
    ensures Excess(AndMoreYield(m)) == 0 && ColonsInside(AndMoreYield(m)) <==> AndMoreClean(m)
    decreases m
  {
    match m
    case AndEnd =>
    case AndThen(a, n) =>
      AtomExcess(a);
      AndMoreExcess(n);
      Keyword("AND");
      JoinedAfter("AND", AtomYield(a), AndMoreYield(n));
  }

  lemma {:induction false} OrExcess(o: OrExpr)
    requires OrOk(o)
    ensures Excess(OrYield(o)) >= 0
    ensures Excess(OrYield(o)) == 0 && ColonsInside(OrYield(o)) <==> OrClean(o)
    decreases o
  {
    AndExcess(o.first);
    OrMoreExcess(o.rest);
    Joined(AndYield(o.first), OrMoreYield(o.rest));
  }

  lemma {:induction false} OrMoreExcess(m: OrMore)
    requires OrMoreOk(m)
    ensures Excess(OrMoreYield(m)) >= 0
    ensures Excess(OrMoreYield(m)) == 0 && ColonsInside(OrMoreYield(m)) <==> OrMoreClean(m)
    decreases m
  {
    match m
    case OrEnd =>
    case OrThen(c, n) =>
      AndExcess(c);
      OrMoreExcess(n);
      Keyword("OR");
      JoinedAfter("OR", AndYield(c), OrMoreYield(n));
  }

  ghost predicate Documented(ts: seq<string>) {
    exists o :: OrOk(o) && OrClean(o) && OrYield(o) == ts
  }

  /** The documented language is exactly the accepted token lists with as many ")" as "(" whose colons stand
      alone inside their tokens. */
  lemma DocumentedIff(ts: seq<string>)
    ensures Documented(ts) <==> ParsedTokens(ts).Ok? && Excess(ts) == 0 && ColonsInside(ts)
  {
    if Documented(ts) {
      var o :| OrOk(o) && OrClean(o) && OrYield(o) == ts;
      assert Derives(o, ts, OrAst(o));
      ParsesIffDerivable(ts, OrAst(o));
      OrExcess(o);
    }
    if ParsedTokens(ts).Ok? && Excess(ts) == 0 && ColonsInside(ts) {
      ParsesIffDerivable(ts, ParsedTokens(ts).value);
      var o :| Derives(o, ts, ParsedTokens(ts).value);
      OrExcess(o);
    }
  }

  /** A stray ")" is accepted as a search term, which the documented grammar does not allow. */
  lemma StrayBracketAccepted()
    ensures ParsedTokens([")"]) == Ok(Term(")")) && !Documented([")"])
  {
    WordAccepted(")");
    assert Leaf(")") == Term(ToLower(")")) && ToLower(")") == ")";
    DocumentedIff([")"]);
    assert Excess([")"]) == 1;
  }

  /** So is a colon without text around it, as a field term. */
  lemma BareColonAccepted()
    ensures ParsedTokens([":"]) == Ok(Field("", "")) && !Documented([":"])
  {
    FieldLeaf("", "");
    assert "" + ":" + "" == ":";
    WordAccepted(":");
    DocumentedIff([":"]);
    Single(":");
  }

  lemma FieldLeaf(key: string, value: string)
    requires ':' !in key
    ensures var t := key + ":" + value; IsWord(t) && Leaf(t) == Field(key, value)
  {
    var t := key + ":" + value;
    var k := Colon(t);
    assert t[|key|] == ':';
    assert forall i :: 0 <= i < |key| ==> t[i] == key[i] && key[i] in key;
    assert k == |key|;
    assert t[..|key|] == key && t[|key| + 1..] == value;
    ColonBetween(key, value);
    assert ':' !in "AND" && ':' !in "OR" && ':' !in "(";
  }

  /** And so is every token with two colons. */
  lemma TwoColonsAccepted(key: string, a: string, b: string)
    requires ':' !in key
    ensures var t := key + ":" + (a + ":" + b); ParsedTokens([t]) == Ok(Field(key, a + ":" + b)) && !Documented([t])
  {
    var t := key + ":" + (a + ":" + b);
    FieldLeaf(key, a + ":" + b);
    WordAccepted(t);
    DocumentedIff([t]);
    Single(t);
    ColonBetween(key, a + ":" + b);
    ColonBetween(a, b);
  }

  lemma WordAccepted(t: string)
    requires IsWord(t)
    ensures ParsedTokens([t]) == Ok(Leaf(t))
  {
    var a := Word(t);
    var c := AndExpr(a, AndEnd);
    var o := OrExpr(c, OrEnd);
    assert AtomYield(a) == [t] && AndMoreYield(AndEnd) == [] && AndYield(c) == [t] && OrYield(o) == [t];
    assert AtomAst(a) == Leaf(t) && AndFold(Leaf(t), AndEnd) == Leaf(t) && AndAst(c) == Leaf(t);
    assert OrFold(Leaf(t), OrEnd) == Leaf(t) && OrAst(o) == Leaf(t);
    assert AtomOk(a) && AndMoreOk(AndEnd) && AndOk(c) && OrMoreOk(OrEnd);
    assert Derives(o, [t], Leaf(t));
    ParsesIffDerivable([t], Leaf(t));
  }
}
