/** The boolean query language: lexer, recursive-descent parser and AST. */
module Parser {
  import opened Text
  import opened Entries

  datatype Node =
    | And(left: Node, right: Node)
    | Or(left: Node, right: Node)
    | Term(token: string)
    | Field(field: string, value: string)

  datatype ParseError =
    | UnexpectedEnd
    | UnexpectedOperator(tok: string)
    | ExpectedClose
    | UnexpectedToken(tok: string, at: nat)

  datatype Result<+T> = Ok(value: T) | Err(error: ParseError)

  // ------------------------------------------------------------------ lexer

  /** strings.ReplaceAll(s, c, " c ") */
  function Padded(s: string, c: char): string {
    if s == [] then []
    else (if s[0] == c then [' ', c, ' '] else [s[0]]) + Padded(s[1..], c)
  }

  /** strings.Fields: whitespace-separated words. */
  function Lexed(s: string): seq<string> {
    Words(Padded(Padded(s, '('), ')'), IsSpace)
  }

  method Lex(query: string) returns (tokens: seq<string>)
    ensures tokens == Lexed(query)
  {
    var fields := Words(Padded(Padded(query, '('), ')'), IsSpace);
    tokens := [];
    WordsClean(Padded(Padded(query, '('), ')'), IsSpace);
    for i := 0 to |fields|
      invariant tokens == fields[..i]
    {
      assert fields[i] in fields;
      if fields[i] != "" {
        tokens := tokens + [fields[i]];
      }
    }
  }

  /** strings.TrimSpace */
  function Trim(s: string): string
    decreases |s|
  {
    if s != [] && IsSpace(s[0]) then Trim(s[1..])
    else if s != [] && IsSpace(s[|s| - 1]) then Trim(s[..|s| - 1])
    else s
  }

  // ----------------------------------------------- the parser as a function

  function Peek(ts: seq<string>, p: nat): string {
    if p < |ts| then ts[p] else ""
  }

  /** Position of the first ':' or the length of the token. */
  function Colon(tok: string): (k: nat)
    ensures k <= |tok| && (k < |tok| ==> tok[k] == ':') && forall i :: 0 <= i < k ==> tok[i] != ':'
  {
    if tok == [] || tok[0] == ':' then 0 else 1 + Colon(tok[1..])
  }

  function Leaf(tok: string): Node {
    var k := Colon(tok);
    if k < |tok| then Field(tok[..k], tok[k + 1..]) else Term(ToLower(tok))
  }

  function OrAt(ts: seq<string>, p: nat): (r: Result<(Node, nat)>)
    ensures r.Ok? ==> p < r.value.1 <= |ts|
    decreases |ts| - p, 4
  {
    match AndAt(ts, p)
    case Err(e) => Err(e)
    case Ok((left, q)) => OrRest(ts, left, q)
  }

  function OrRest(ts: seq<string>, left: Node, p: nat): (r: Result<(Node, nat)>)
    requires p <= |ts|
    ensures r.Ok? ==> p <= r.value.1 <= |ts|
    decreases |ts| - p, 0
  {
    if Peek(ts, p) != "OR" then Ok((left, p))
    else
      match AndAt(ts, p + 1)
      case Err(e) => Err(e)
      case Ok((right, q)) => OrRest(ts, Or(left, right), q)
  }

  function AndAt(ts: seq<string>, p: nat): (r: Result<(Node, nat)>)
    ensures r.Ok? ==> p < r.value.1 <= |ts|
    decreases |ts| - p, 3
  {
    match AtomAt(ts, p)
    case Err(e) => Err(e)
    case Ok((left, q)) => AndRest(ts, left, q)
  }

  function AndRest(ts: seq<string>, left: Node, p: nat): (r: Result<(Node, nat)>)
    requires p <= |ts|
    ensures r.Ok? ==> p <= r.value.1 <= |ts|
    decreases |ts| - p, 0
  {
    if Peek(ts, p) != "AND" then Ok((left, p))
    else
      match AtomAt(ts, p + 1)
      case Err(e) => Err(e)
      case Ok((right, q)) => AndRest(ts, And(left, right), q)
  }

  function AtomAt(ts: seq<string>, p: nat): (r: Result<(Node, nat)>)
    ensures r.Ok? ==> p < r.value.1 <= |ts|
    decreases |ts| - p, 2
  {
    var tok := Peek(ts, p);
    if tok == "" then Err(UnexpectedEnd)
    else if tok == "AND" || tok == "OR" then Err(UnexpectedOperator(tok))
    else if tok == "(" then
      match OrAt(ts, p + 1)
      case Err(e) => Err(e)
      case Ok((node, q)) => if Peek(ts, q) != ")" then Err(ExpectedClose) else Ok((node, q + 1))
    else Ok((Leaf(tok), p + 1))
  }

  function ParsedTokens(ts: seq<string>): Result<Node> {
    match OrAt(ts, 0)
    case Err(e) => Err(e)
    case Ok((node, q)) => if q < |ts| then Err(UnexpectedToken(ts[q], q)) else Ok(node)
  }

  /** Parse as a function; None is the nil AST of an empty query. */
  function Parsed(query: string): Result<Option<Node>> {
    var q := Trim(query);
    if q == "" then Ok(None)
    else
      match ParsedTokens(Lexed(q))
      case Err(e) => Err(e)
      case Ok(node) => Ok(Some(node))
  }

  // --------------------------------------------------- the parser as it runs

  /** queryParser: a token list and a cursor that only moves forward. */
  class QueryParser {
    const tokens: seq<string>
    var pos: nat

    constructor (tokens: seq<string>)
      ensures this.tokens == tokens && pos == 0
    {
      this.tokens := tokens;
      pos := 0;
    }

    method ParseOr() returns (r: Result<Node>)
      requires pos <= |tokens|
      modifies this
      ensures old(pos) <= pos <= |tokens|
      ensures r.Ok? <==> OrAt(tokens, old(pos)).Ok?
      ensures r.Ok? ==> OrAt(tokens, old(pos)).value == (r.value, pos)
      ensures r.Err? ==> OrAt(tokens, old(pos)) == Err(r.error)
      decreases |tokens| - pos, 4
    {
      r := ParseAnd();
      while r.Ok? && Peek(tokens, pos) == "OR"
        invariant old(pos) <= pos <= |tokens|
        invariant r.Err? ==> OrAt(tokens, old(pos)) == Err(r.error)
        invariant r.Ok? ==> old(pos) < pos && OrAt(tokens, old(pos)) == OrRest(tokens, r.value, pos)
        decreases |tokens| - pos, r.Ok?
      {
        var left := r.value;
        pos := pos + 1;
        var right := ParseAnd();
        r := if right.Ok? then Ok(Or(left, right.value)) else right;
      }
    }

    method ParseAnd() returns (r: Result<Node>)
      requires pos <= |tokens|
      modifies this
      ensures old(pos) <= pos <= |tokens|
      ensures r.Ok? <==> AndAt(tokens, old(pos)).Ok?
      ensures r.Ok? ==> AndAt(tokens, old(pos)).value == (r.value, pos)
      ensures r.Err? ==> AndAt(tokens, old(pos)) == Err(r.error)
      decreases |tokens| - pos, 3
    {
      r := ParseAtom();
      while r.Ok? && Peek(tokens, pos) == "AND"
        invariant old(pos) <= pos <= |tokens|
        invariant r.Err? ==> AndAt(tokens, old(pos)) == Err(r.error)
        invariant r.Ok? ==> old(pos) < pos && AndAt(tokens, old(pos)) == AndRest(tokens, r.value, pos)
        decreases |tokens| - pos, r.Ok?
      {
        var left := r.value;
        pos := pos + 1;
        var right := ParseAtom();
        r := if right.Ok? then Ok(And(left, right.value)) else right;
      }
    }

    method ParseAtom() returns (r: Result<Node>)
      requires pos <= |tokens|
      modifies this
      ensures old(pos) <= pos <= |tokens|
      ensures r.Ok? <==> AtomAt(tokens, old(pos)).Ok?
      ensures r.Ok? ==> AtomAt(tokens, old(pos)).value == (r.value, pos)
      ensures r.Err? ==> AtomAt(tokens, old(pos)) == Err(r.error)
      decreases |tokens| - pos, 2
    {
      var tok := Peek(tokens, pos);
      if tok == "" {
        return Err(UnexpectedEnd);
      }
      if tok == "AND" || tok == "OR" {
        return Err(UnexpectedOperator(tok));
      }
      pos := pos + 1;
      if tok == "(" {
        r := ParseOr();
        if r.Err? {
          return;
        }
        if Peek(tokens, pos) != ")" {
          return Err(ExpectedClose);
        }
        pos := pos + 1;
        return;
      }
      r := Ok(Leaf(tok));
    }
  }

  method Parse(query: string) returns (r: Result<Option<Node>>)
    ensures r == Parsed(query)
  {
    var q := Trim(query);
    if q == "" {
      return Ok(None);
    }
    var tokens := Lex(q);
    var p := new QueryParser(tokens);
    var node := p.ParseOr();
    if node.Err? {
      return Err(node.error);
    }
    if p.pos < |p.tokens| {
      return Err(UnexpectedToken(p.tokens[p.pos], p.pos));
    }
    r := Ok(Some(node.value));
  }
}
