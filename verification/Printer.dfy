/** Printing an AST as a query string, and the round trip through lexer and parser. */
module Printer {
  import opened Ordering
  import opened Text
  import opened Entries
  import opened Parser
  import opened Grammar

  predicate IsBracket(c: char) {
    c == '(' || c == ')'
  }

  /** What the lexer can produce as one token. */
  ghost predicate CleanToken(t: string) {
    t != "" && (t == "(" || t == ")" || forall c :: c in t ==> !IsBracket(c)) && forall c :: c in t ==> !IsSpace(c)
  }

  ghost predicate Plain(s: string) {
    forall c :: c in s ==> !IsBracket(c) && !IsSpace(c)
  }

  /** The ASTs whose leaves can be written as tokens. */
  ghost predicate Printable(node: Node) {
    match node
    case And(l, r) => Printable(l) && Printable(r)
    case Or(l, r) => Printable(l) && Printable(r)
    case Term(t) => t == ")" || (t != "" && t == ToLower(t) && Plain(t) && ':' !in t)
    case Field(f, v) => Plain(f) && ':' !in f && Plain(v)
  }

  function LeafText(node: Node): string
    requires node.Term? || node.Field?
  {
    match node case Term(t) => t case Field(f, v) => f + ":" + v
  }

  /** Every operator is printed with its own pair of brackets. */
  function Print(node: Node): string {
    match node
    case And(l, r) => "(" + Print(l) + " AND " + Print(r) + ")"
    case Or(l, r) => "(" + Print(l) + " OR " + Print(r) + ")"
    case Term(_) => LeafText(node)
    case Field(_, _) => LeafText(node)
  }

  /** What two operands joined by AND inside brackets are read as. */
  function Both(l: Atom, r: Atom): Atom {
    Paren(OrExpr(AndExpr(l, AndThen(r, AndEnd)), OrEnd))
  }

  /** What two operands joined by OR inside brackets are read as. */
  function Either(l: Atom, r: Atom): Atom {
    Paren(OrExpr(AndExpr(l, AndEnd), OrThen(AndExpr(r, AndEnd), OrEnd)))
  }

  /** The derivation that the printed form spells out. */
  function Tree(node: Node): Atom {
    match node
    case And(l, r) => Both(Tree(l), Tree(r))
    case Or(l, r) => Either(Tree(l), Tree(r))
    case Term(_) => Word(LeafText(node))
    case Field(_, _) => Word(LeafText(node))
  }

  // ------------------------------------------------------------ lexer lemmas

  lemma {:induction false} PaddedConcat(a: string, b: string, c: char)
    ensures Padded(a + b, c) == Padded(a, c) + Padded(b, c)
  {
    if a == [] {
      assert a + b == b;
    } else {
      assert (a + b)[1..] == a[1..] + b;
      PaddedConcat(a[1..], b, c);
    }
  }

  lemma {:induction false} PaddedAbsent(s: string, c: char)
    requires c !in s
    ensures Padded(s, c) == s
  {
    if s != [] {
      PaddedAbsent(s[1..], c);
    }
  }

  function Pad(s: string): string {
    Padded(Padded(s, '('), ')')
  }

  lemma PadConcat(a: string, b: string)
    ensures Pad(a + b) == Pad(a) + Pad(b)
  {
    PaddedConcat(a, b, '(');
    PaddedConcat(Padded(a, '('), Padded(b, '('), ')');
  }

  lemma PadPlain(s: string)
    requires forall c :: c in s ==> !IsBracket(c)
    ensures Pad(s) == s
  {
    PaddedAbsent(s, '(');
    PaddedAbsent(s, ')');
  }

  lemma PadBracket(c: char)
    requires IsBracket(c)
    ensures Pad([c]) == [' ', c, ' ']
  {
    if c == '(' {
      assert Padded([c], '(') == [' ', c, ' '];
      PaddedAbsent([' ', c, ' '], ')');
    } else {
      PaddedAbsent([c], '(');
      assert Padded([c], ')') == [' ', c, ' '];
    }
  }

  /** A bracket is a token of its own wherever it stands. */
  lemma LexBracket(a: string, c: char, b: string)
    requires IsBracket(c)
    ensures Lexed(a + [c] + b) == Lexed(a) + [[c]] + Lexed(b)
  {
    PadAround(a, c, b);
    WordsAround(Pad(a), c, Pad(b));
  }

  lemma PadAround(a: string, c: char, b: string)
    requires IsBracket(c)
    ensures Pad(a + [c] + b) == Pad(a) + [' '] + ([c] + [' '] + Pad(b))
  {
    PadConcat(a + [c], b);
    PadConcat(a, [c]);
    PadBracket(c);
  }

  lemma WordsAround(x: string, c: char, y: string)
    requires IsBracket(c)
    ensures Words(x + [' '] + ([c] + [' '] + y), IsSpace) == Words(x, IsSpace) + [[c]] + Words(y, IsSpace)
  {
    WordsSplit(x, ' ', [c] + [' '] + y, IsSpace);
    BracketFirst(c, y);
    Associate(Words(x, IsSpace), [[c]], Words(y, IsSpace));
  }

  lemma BracketFirst(c: char, y: string)
    requires IsBracket(c)
    ensures Words([c] + [' '] + y, IsSpace) == [[c]] + Words(y, IsSpace)
  {
    WordsSplit([c], ' ', y, IsSpace);
    WordsSingle([c], IsSpace);
  }

  lemma LexSpace(a: string, c: char, b: string)
    requires IsSpace(c)
    ensures Lexed(a + [c] + b) == Lexed(a) + Lexed(b)
  {
    PadConcat(a + [c], b);
    PadConcat(a, [c]);
    PadPlain([c]);
    WordsSplit(Pad(a), c, Pad(b), IsSpace);
  }

  lemma LexWord(t: string)
    requires t != "" && (Plain(t) || t == ")")
    ensures Lexed(t) == [t]
  {
    if t == ")" {
      LexBracket("", ')', "");
      assert "" + [')'] + "" == ")";
      PadPlain("");
    } else {
      PadPlain(t);
      WordsSingle(t, IsSpace);
    }
  }

  lemma {:induction false} LexClean(s: string)
    ensures forall t :: t in Lexed(s) ==> CleanToken(t)
    decreases |s|
  {
    if k :| 0 <= k < |s| && IsBracket(s[k]) {
      assert s == s[..k] + [s[k]] + s[k + 1..];
      LexBracket(s[..k], s[k], s[k + 1..]);
      LexClean(s[..k]);
      LexClean(s[k + 1..]);
    } else {
      PadPlain(s);
      WordsClean(s, IsSpace);
    }
  }

  // -------------------------------------------------------------- round trip

  lemma Reassociated(l: string, op: string, r: string)
    ensures "(" + l + (" " + op + " ") + r + ")" == "" + ['('] + (l + [' '] + (op + [' '] + r) + [')'] + "")
  {
  }

  lemma LexOperator(l: string, op: string, r: string)
    requires op != "" && Plain(op)
    ensures Lexed("(" + l + (" " + op + " ") + r + ")") == ["("] + Lexed(l) + [op] + Lexed(r) + [")"]
  {
    var inner := l + [' '] + (op + [' '] + r);
    Reassociated(l, op, r);
    LexBracket("", '(', inner + [')'] + "");
    LexBracket(inner, ')', "");
    LexSpace(l, ' ', op + [' '] + r);
    LexSpace(op, ' ', r);
    LexWord(op);
    LexNothing();
    Flattened(Lexed(l), op, Lexed(r));
  }

  lemma LexNothing()
    ensures Lexed("") == []
  {
    PadPlain("");
  }

  lemma Flattened(a: seq<string>, op: string, b: seq<string>)
    ensures [] + [['(']] + (a + ([op] + b) + [[')']] + []) == ["("] + a + [op] + b + [")"]
  {
  }

  lemma TermReads(node: Node)
    requires Printable(node) && node.Term?
    ensures IsWord(node.token) && Leaf(node.token) == node
  {
    var t := node.token;
    assert ToLower("AND")[0] == 'a' && ToLower("OR")[0] == 'o';
    assert t != "(" by { assert t == "(" ==> '(' in t; }
    assert ToLower(")") == ")";
  }

  lemma LeafReads(node: Node)
    requires Printable(node) && (node.Term? || node.Field?)
    ensures IsWord(LeafText(node)) && Leaf(LeafText(node)) == node
    ensures Lexed(LeafText(node)) == [LeafText(node)]
  {
    LexWord(LeafText(node));
    match node
    case Term(_) => TermReads(node);
    case Field(f, v) => FieldLeaf(f, v);
  }

  lemma OneAtom(a: Atom)
    ensures AndOk(AndExpr(a, AndEnd)) <==> AtomOk(a)
    ensures AndAst(AndExpr(a, AndEnd)) == AtomAst(a) && AndYield(AndExpr(a, AndEnd)) == AtomYield(a)
  {
  }

  lemma OneExpr(a: Atom)
    ensures var o := OrExpr(AndExpr(a, AndEnd), OrEnd);
      (OrOk(o) <==> AtomOk(a)) && OrAst(o) == AtomAst(a) && OrYield(o) == AtomYield(a)
  {
    OneAtom(a);
    var c := AndExpr(a, AndEnd);
    assert OrMoreOk(OrEnd) && OrMoreYield(OrEnd) == [] && OrFold(AndAst(c), OrEnd) == AndAst(c);
    AppendNone(AtomYield(a));
  }

  lemma BothMeans(l: Atom, r: Atom)
    ensures AtomOk(Both(l, r)) <==> AtomOk(l) && AtomOk(r)
    ensures AtomAst(Both(l, r)) == And(AtomAst(l), AtomAst(r))
  {
    var m := AndThen(r, AndEnd);
    assert AndMoreOk(m) <==> AtomOk(r);
    assert AndFold(AtomAst(l), m) == And(AtomAst(l), AtomAst(r)) by {
      assert AndFold(And(AtomAst(l), AtomAst(r)), AndEnd) == And(AtomAst(l), AtomAst(r));
    }
    var o := OrExpr(AndExpr(l, m), OrEnd);
    assert OrOk(o) <==> AndOk(o.first) by { assert OrMoreOk(OrEnd); }
    assert OrAst(o) == AndAst(o.first) by { assert OrFold(AndAst(o.first), OrEnd) == AndAst(o.first); }
  }

  lemma EitherMeans(l: Atom, r: Atom)
    ensures AtomOk(Either(l, r)) <==> AtomOk(l) && AtomOk(r)
    ensures AtomAst(Either(l, r)) == Or(AtomAst(l), AtomAst(r))
  {
    OneAtom(l);
    OneAtom(r);
    var m := OrThen(AndExpr(r, AndEnd), OrEnd);
    assert OrMoreOk(m) <==> AtomOk(r);
    assert OrFold(AtomAst(l), m) == Or(AtomAst(l), AtomAst(r)) by {
      assert OrFold(Or(AtomAst(l), AtomAst(r)), OrEnd) == Or(AtomAst(l), AtomAst(r));
    }
  }

  lemma BothSpells(l: Atom, r: Atom)
    ensures AtomYield(Both(l, r)) == ["("] + AtomYield(l) + ["AND"] + AtomYield(r) + [")"]
  {
    var m := AndThen(r, AndEnd);
    assert AndMoreYield(m) == ["AND"] + AtomYield(r) by { assert AndMoreYield(AndEnd) == []; }
    assert OrYield(OrExpr(AndExpr(l, m), OrEnd)) == AtomYield(l) + (["AND"] + AtomYield(r)) by {
      assert OrMoreYield(OrEnd) == [];
    }
  }

  lemma EitherSpells(l: Atom, r: Atom)
    ensures AtomYield(Either(l, r)) == ["("] + AtomYield(l) + ["OR"] + AtomYield(r) + [")"]
  {
    OneAtom(l);
    OneAtom(r);
    var m := OrThen(AndExpr(r, AndEnd), OrEnd);
    assert OrMoreYield(m) == ["OR"] + AtomYield(r) by { assert OrMoreYield(OrEnd) == []; }
    assert OrYield(OrExpr(AndExpr(l, AndEnd), m)) == AtomYield(l) + (["OR"] + AtomYield(r));
  }

  lemma {:induction false} TreeMeans(node: Node)
    requires Printable(node)
    ensures AtomOk(Tree(node)) && AtomAst(Tree(node)) == node
  {
    match node
    case And(l, r) =>
      TreeMeans(l);
      TreeMeans(r);
      BothMeans(Tree(l), Tree(r));
    case Or(l, r) =>
      TreeMeans(l);
      TreeMeans(r);
      EitherMeans(Tree(l), Tree(r));
    case Term(_) => LeafReads(node);
    case Field(_, _) => LeafReads(node);
  }

  lemma LexBoth(l: string, r: string, a: Atom, b: Atom)
    requires Lexed(l) == AtomYield(a) && Lexed(r) == AtomYield(b)
    ensures Lexed("(" + l + " AND " + r + ")") == AtomYield(Both(a, b))
  {
    LexOperator(l, "AND", r);
    assert " " + "AND" + " " == " AND ";
    BothSpells(a, b);
  }

  lemma LexEither(l: string, r: string, a: Atom, b: Atom)
    requires Lexed(l) == AtomYield(a) && Lexed(r) == AtomYield(b)
    ensures Lexed("(" + l + " OR " + r + ")") == AtomYield(Either(a, b))
  {
    LexOperator(l, "OR", r);
    assert " " + "OR" + " " == " OR ";
    EitherSpells(a, b);
  }

  lemma {:induction false} PrintSpells(node: Node)
    requires Printable(node)
    ensures Lexed(Print(node)) == AtomYield(Tree(node))
  {
    match node
    case And(l, r) =>
      PrintSpells(l);
      PrintSpells(r);
      LexBoth(Print(l), Print(r), Tree(l), Tree(r));
    case Or(l, r) =>
      PrintSpells(l);
      PrintSpells(r);
      LexEither(Print(l), Print(r), Tree(l), Tree(r));
    case Term(_) => LeafReads(node);
    case Field(_, _) => LeafReads(node);
  }

  lemma PrintTrimmed(node: Node)
    requires Printable(node)
    ensures Trim(Print(node)) == Print(node) != ""
  {
    var s := Print(node);
    match node
    case And(l, r) => assert s[0] == '(' && s[|s| - 1] == ')';
    case Or(l, r) => assert s[0] == '(' && s[|s| - 1] == ')';
    case Term(t) => assert s[0] in t && s[|s| - 1] in t;
    case Field(f, v) =>
      assert s[0] == ':' || s[0] in f;
      assert s[|s| - 1] == ':' || s[|s| - 1] in v;
  }

  /** Printing, lexing and parsing give the AST back. */
  lemma PrintParses(node: Node)
    requires Printable(node)
    ensures Parsed(Print(node)) == Ok(Some(node))
  {
    PrintTrimmed(node);
    TreeMeans(node);
    PrintSpells(node);
    var o := OrExpr(AndExpr(Tree(node), AndEnd), OrEnd);
    OneExpr(Tree(node));
    assert Derives(o, Lexed(Print(node)), node);
    ParsesIffDerivable(Lexed(Print(node)), node);
  }

  // ------------------------------------------------------ what Parse can return

  ghost predicate AllClean(ts: seq<string>) {
    forall t :: t in ts ==> CleanToken(t)
  }

  lemma CleanConcat(a: seq<string>, b: seq<string>)
    ensures AllClean(a + b) <==> AllClean(a) && AllClean(b)
  {
    assert forall t :: t in a + b <==> t in a || t in b;
  }

  lemma LeafPrintable(t: string)
    requires IsWord(t) && CleanToken(t)
    ensures Printable(Leaf(t))
  {
    var k := Colon(t);
    if k < |t| {
      assert forall c :: c in t[..k] ==> c in t;
      assert forall c :: c in t[k + 1..] ==> c in t;
      assert ':' in t && t != ")";
    } else {
      LowerIdempotent(t);
      forall i | 0 <= i < |t| ensures t[i] != ':' && !IsSpace(ToLower(t)[i]) && (t == ")" || !IsBracket(ToLower(t)[i])) {
        assert t[i] in t;
      }
      assert t == ")" ==> ToLower(t) == ")";
    }
  }

  lemma {:induction false} AtomPrintable(a: Atom)
    requires AtomOk(a) && AllClean(AtomYield(a))
    ensures Printable(AtomAst(a))
    decreases a
  {
    match a
    case Word(t) =>
      assert t in AtomYield(a);
      LeafPrintable(t);
    case Paren(o) =>
      CleanConcat(["("] + OrYield(o), [")"]);
      CleanConcat(["("], OrYield(o));
      OrPrintable(o);
  }

  lemma {:induction false} AndPrintable(c: AndExpr)
    requires AndOk(c) && AllClean(AndYield(c))
    ensures Printable(AndAst(c))
    decreases c
  {
    CleanConcat(AtomYield(c.first), AndMoreYield(c.rest));
    AtomPrintable(c.first);
    AndMorePrintable(AtomAst(c.first), c.rest);
  }

  lemma {:induction false} AndMorePrintable(left: Node, m: AndMore)
    requires Printable(left) && AndMoreOk(m) && AllClean(AndMoreYield(m))
    ensures Printable(AndFold(left, m))
    decreases m
  {
    match m
    case AndEnd =>
    case AndThen(a, n) =>
      CleanConcat(["AND"] + AtomYield(a), AndMoreYield(n));
      CleanConcat(["AND"], AtomYield(a));
      AtomPrintable(a);
      AndMorePrintable(And(left, AtomAst(a)), n);
  }

  lemma {:induction false} OrPrintable(o: OrExpr)
    requires OrOk(o) && AllClean(OrYield(o))
    ensures Printable(OrAst(o))
    decreases o
  {
    CleanConcat(AndYield(o.first), OrMoreYield(o.rest));
    AndPrintable(o.first);
    OrMorePrintable(AndAst(o.first), o.rest);
  }

  lemma {:induction false} OrMorePrintable(left: Node, m: OrMore)
    requires Printable(left) && OrMoreOk(m) && AllClean(OrMoreYield(m))
    ensures Printable(OrFold(left, m))
    decreases m
  {
    match m
    case OrEnd =>
    case OrThen(c, n) =>
      CleanConcat(["OR"] + AndYield(c), OrMoreYield(n));
      CleanConcat(["OR"], AndYield(c));
      AndPrintable(c);
      OrMorePrintable(Or(left, AndAst(c)), n);
  }

  /** Parse returns exactly the printable ASTs, so printing and parsing undo each other. */
  lemma ParseImage(node: Node)
    ensures Printable(node) <==> exists s :: Parsed(s) == Ok(Some(node))
    ensures Printable(node) <==> Parsed(Print(node)) == Ok(Some(node))
  {
    if Printable(node) {
      PrintParses(node);
    }
    if s :| Parsed(s) == Ok(Some(node)) {
      var ts := Lexed(Trim(s));
      ParsesIffDerivable(ts, node);
      var o :| Derives(o, ts, node);
      LexClean(Trim(s));
      OrPrintable(o);
    }
  }
}
