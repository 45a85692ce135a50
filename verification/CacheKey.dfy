/** The text that the cache key hashes: seven request fields joined with '|'.

SHA-256 is taken as injective, so two requests share a cache slot exactly when their
joined texts are equal.
*/
module CacheKeys {
  import opened Executor

  function Digit(d: nat): char
    requires d < 10
  {
    '0' + d as char
  }

  function Digits(n: nat): (s: string)
    ensures s != ""
  {
    if n < 10 then [Digit(n)] else Digits(n / 10) + [Digit(n % 10)]
  }

  /** fmt's %d */
  function Itoa(n: int): string {
    if n < 0 then "-" + Digits(-n) else Digits(n)
  }

  function Value(s: string): nat {
    if s == "" then 0
    else
      var c := s[|s| - 1];
      Value(s[..|s| - 1]) * 10 + if '0' <= c <= '9' then (c - '0') as nat else 0
  }

  lemma {:induction false} DigitsRead(n: nat)
    ensures Value(Digits(n)) == n
    ensures forall c :: c in Digits(n) ==> '0' <= c <= '9'
  {
    if n < 10 {
      assert Digits(n)[..0] == "";
    } else {
      DigitsRead(n / 10);
      assert Digits(n)[..|Digits(n)| - 1] == Digits(n / 10);
    }
  }

  lemma ItoaInjective(m: int, n: int)
    ensures '|' !in Itoa(m)
    ensures Itoa(m) == Itoa(n) ==> m == n
  {
    DigitsRead(if m < 0 then -m else m);
    DigitsRead(if n < 0 then -n else n);
    assert m >= 0 ==> Itoa(m)[0] in Digits(m);
    assert n >= 0 ==> Itoa(n)[0] in Digits(n);
    assert m < 0 ==> Itoa(m)[0] == '-' && Itoa(m)[1..] == Digits(-m);
    assert n < 0 ==> Itoa(n)[0] == '-' && Itoa(n)[1..] == Digits(-n);
  }

  function Join(a: string, b: string): string {
    a + "|" + b
  }

  /** The text written into the hash, field by field. */
  function Preimage(r: Request): string {
    Join(Join(Join(Join(Join(Join(r.query, r.namespace), r.service), Itoa(r.start)), Itoa(r.end)), Itoa(r.limit)), Itoa(r.offset))
  }

  function Bars(s: string): nat {
    multiset(s)['|']
  }

  /** When the last parts have no bar, a join determines both parts. */
  lemma JoinSplits(a: string, b: string, a': string, b': string)
    requires Join(a, b) == Join(a', b') && '|' !in b && '|' !in b'
    ensures a == a' && b == b'
  {
    LastBar(a, b);
    LastBar(a', b');
    JoinParts(a, b);
    JoinParts(a', b');
  }

  lemma LastBar(a: string, b: string)
    requires '|' !in b
    ensures |a| < |Join(a, b)| && Join(a, b)[|a|] == '|' && forall i :: |a| < i < |Join(a, b)| ==> Join(a, b)[i] != '|'
  {
    var s := Join(a, b);
    assert forall i :: |a| < i < |s| ==> s[i] == b[i - |a| - 1] && s[i] in b;
  }

  lemma JoinParts(a: string, b: string)
    ensures Join(a, b)[..|a|] == a && Join(a, b)[|a| + 1..] == b
  {
  }

  lemma NumbersSplit(r: Request, r': Request)
    requires Preimage(r) == Preimage(r')
    ensures r.start == r'.start && r.end == r'.end && r.limit == r'.limit && r.offset == r'.offset
    ensures Join(Join(r.query, r.namespace), r.service) == Join(Join(r'.query, r'.namespace), r'.service)
  {
    ItoaInjective(r.offset, r'.offset);
    ItoaInjective(r'.offset, r.offset);
    ItoaInjective(r.limit, r'.limit);
    ItoaInjective(r'.limit, r.limit);
    ItoaInjective(r.end, r'.end);
    ItoaInjective(r'.end, r.end);
    ItoaInjective(r.start, r'.start);
    ItoaInjective(r'.start, r.start);
    var p := Join(Join(r.query, r.namespace), r.service);
    var p' := Join(Join(r'.query, r'.namespace), r'.service);
    var q, q' := Join(p, Itoa(r.start)), Join(p', Itoa(r'.start));
    var s, s' := Join(q, Itoa(r.end)), Join(q', Itoa(r'.end));
    JoinSplits(Join(s, Itoa(r.limit)), Itoa(r.offset), Join(s', Itoa(r'.limit)), Itoa(r'.offset));
    JoinSplits(s, Itoa(r.limit), s', Itoa(r'.limit));
    JoinSplits(q, Itoa(r.end), q', Itoa(r'.end));
    JoinSplits(p, Itoa(r.start), p', Itoa(r'.start));
  }

  /** Without '|' in namespace and service, the key identifies the request; the query may contain '|'. */
  lemma KeyInjective(r: Request, r': Request)
    requires '|' !in r.namespace && '|' !in r.service && '|' !in r'.namespace && '|' !in r'.service
    requires Preimage(r) == Preimage(r')
    ensures r == r'
  {
    NumbersSplit(r, r');
    JoinSplits(Join(r.query, r.namespace), r.service, Join(r'.query, r'.namespace), r'.service);
    JoinSplits(r.query, r.namespace, r'.query, r'.namespace);
  }

  lemma BarsJoin(a: string, b: string)
    ensures Bars(Join(a, b)) == Bars(a) + Bars(b) + 1
  {
    assert multiset(a + "|" + b) == multiset(a) + multiset("|") + multiset(b);
  }

  lemma SplitAtBar(s: string) returns (a: string, b: string)
    requires '|' in s
    ensures s == Join(a, b)
  {
    var i :| 0 <= i < |s| && s[i] == '|';
    a, b := s[..i], s[i + 1..];
  }

  /** A request with a '|' in one of its text fields and another one with the same key. */
  lemma Collides(r: Request) returns (r': Request)
    requires '|' in r.query || '|' in r.namespace || '|' in r.service
    ensures r' != r && Preimage(r') == Preimage(r)
  {
    if '|' in r.query {
      var x, y := SplitAtBar(r.query);
      r' := r.(query := x, namespace := Join(y, r.namespace));
      assert Join(x, Join(y, r.namespace)) == Join(r.query, r.namespace);
    } else if '|' in r.namespace {
      var x, y := SplitAtBar(r.namespace);
      r' := r.(query := Join(r.query, x), namespace := y);
      assert Join(Join(r.query, x), y) == Join(r.query, r.namespace);
      assert |r'.query| > |r.query|;
    } else {
      var x, y := SplitAtBar(r.service);
      r' := r.(namespace := Join(r.namespace, x), service := y);
      assert Join(Join(r.query, Join(r.namespace, x)), y) == Join(Join(r.query, r.namespace), r.service);
      assert |r'.namespace| > |r.namespace|;
    }
  }

  lemma NoBarsNoOther(r: Request, r': Request)
    requires '|' !in r.query && '|' !in r.namespace && '|' !in r.service
    requires Preimage(r') == Preimage(r)
    ensures r' == r
  {
    NumbersSplit(r', r);
    BarsJoin(r.query, r.namespace);
    BarsJoin(Join(r.query, r.namespace), r.service);
    BarsJoin(r'.query, r'.namespace);
    BarsJoin(Join(r'.query, r'.namespace), r'.service);
    assert Bars(r'.namespace) == 0 && Bars(r'.service) == 0;
    assert '|' !in multiset(r'.namespace) && '|' !in multiset(r'.service);
    KeyInjective(r', r);
  }

  /** No other request at all shares the key of `r` exactly when none of its text fields contains '|'. */
  lemma KeyUniqueIff(r: Request)
    ensures (forall r' :: Preimage(r') == Preimage(r) ==> r' == r) <==>
            '|' !in r.query && '|' !in r.namespace && '|' !in r.service
  {
    if '|' in r.query || '|' in r.namespace || '|' in r.service {
      var r' := Collides(r);
    } else {
      forall r' | Preimage(r') == Preimage(r) ensures r' == r {
        NoBarsNoOther(r, r');
      }
    }
  }
}
