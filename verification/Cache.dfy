/** The coordinator's query cache: a doubly linked recency list with sentinels plus a key map.

`Slots` is the abstract cache: a list of slots, most recently used first. The heap structure
refines it operation by operation; what holds over whole runs is proved about the list.
*/
module CacheModel {
  import opened Ordering
  import opened Entries

  datatype Slot<V> = Slot(key: string, value: V, at: int)
  type Slots<V> = seq<Slot<V>>

  ghost predicate DistinctKeys<V>(s: Slots<V>) {
    forall i, j :: 0 <= i < j < |s| ==> s[i].key != s[j].key
  }

  /** The place of `key`, or the length of the list. */
  function Find<V>(s: Slots<V>, key: string): (i: nat)
    ensures i <= |s| && (i < |s| ==> s[i].key == key) && (forall j :: 0 <= j < i ==> s[j].key != key)
  {
    if s == [] || s[0].key == key then 0 else 1 + Find(s[1..], key)
  }

  function RemoveAt<T>(s: seq<T>, i: nat): seq<T>
    requires i < |s|
  {
    s[..i] + s[i + 1..]
  }

  /** Get at time `now`: an expired slot is dropped, a live one moves to the front. */
  function Got<V>(s: Slots<V>, key: string, now: int, ttl: int): (Slots<V>, Option<V>) {
    var i := Find(s, key);
    if i == |s| then (s, None)
    else if now - s[i].at > ttl then (RemoveAt(s, i), None)
    else ([s[i]] + RemoveAt(s, i), Some(s[i].value))
  }

  /** Put at time `now`: replace, or insert after evicting the last slot of a full list. */
  function Put<V>(s: Slots<V>, key: string, value: V, now: int, maxSize: int): Slots<V> {
    var i := Find(s, key);
    if i < |s| then [Slot(key, value, now)] + RemoveAt(s, i)
    else if |s| >= maxSize && s != [] then [Slot(key, value, now)] + s[..|s| - 1]
    else [Slot(key, value, now)] + s
  }

  // -------------------------------------------------------------- whole runs

  datatype Op<V> = GetOp(key: string, now: int) | PutOp(key: string, value: V, now: int)

  function Step<V>(s: Slots<V>, op: Op<V>, ttl: int, maxSize: int): Slots<V> {
    match op
    case GetOp(k, now) => Got(s, k, now, ttl).0
    case PutOp(k, v, now) => Put(s, k, v, now, maxSize)
  }

  function Run<V>(ops: seq<Op<V>>, ttl: int, maxSize: int): Slots<V> {
    if ops == [] then []
    else Step(Run(ops[..|ops| - 1], ttl, maxSize), ops[|ops| - 1], ttl, maxSize)
  }

  lemma RemoveKeeps<V>(s: Slots<V>, i: nat)
    requires DistinctKeys(s) && i < |s|
    ensures var r := RemoveAt(s, i);
      && DistinctKeys(r) && |r| == |s| - 1
      && forall j :: 0 <= j < |r| ==> r[j] == s[if j < i then j else j + 1] && r[j].key != s[i].key
  {
  }

  lemma FrontKeeps<V>(x: Slot<V>, r: Slots<V>)
    requires DistinctKeys(r) && forall j :: 0 <= j < |r| ==> r[j].key != x.key
    ensures DistinctKeys([x] + r)
  {
  }

  lemma GotKeeps<V>(s: Slots<V>, key: string, now: int, ttl: int)
    requires DistinctKeys(s)
    ensures DistinctKeys(Got(s, key, now, ttl).0) && |Got(s, key, now, ttl).0| <= |s|
  {
    var i := Find(s, key);
    if i < |s| {
      RemoveKeeps(s, i);
      FrontKeeps(s[i], RemoveAt(s, i));
    }
  }

  function AtLeastOne(n: int): nat {
    if n < 1 then 1 else n
  }

  lemma PutKeeps<V>(s: Slots<V>, key: string, value: V, now: int, maxSize: int)
    requires DistinctKeys(s) && |s| <= AtLeastOne(maxSize)
    ensures DistinctKeys(Put(s, key, value, now, maxSize))
    ensures |Put(s, key, value, now, maxSize)| <= AtLeastOne(maxSize)
  {
    var i := Find(s, key);
    if i < |s| {
      RemoveKeeps(s, i);
      FrontKeeps(Slot(key, value, now), RemoveAt(s, i));
    } else if |s| >= maxSize && s != [] {
      FrontKeeps(Slot(key, value, now), s[..|s| - 1]);
    } else {
      FrontKeeps(Slot(key, value, now), s);
    }
  }

  lemma StepKeeps<V>(s: Slots<V>, op: Op<V>, ttl: int, maxSize: int)
    requires DistinctKeys(s) && |s| <= AtLeastOne(maxSize)
    ensures DistinctKeys(Step(s, op, ttl, maxSize))
    ensures |Step(s, op, ttl, maxSize)| <= AtLeastOne(maxSize)
  {
    match op
    case GetOp(k, now) => GotKeeps(s, k, now, ttl);
    case PutOp(k, v, now) => PutKeeps(s, k, v, now, maxSize);
  }

  lemma {:induction false} RunKeeps<V>(ops: seq<Op<V>>, ttl: int, maxSize: int)
    ensures DistinctKeys(Run(ops, ttl, maxSize))
    ensures |Run(ops, ttl, maxSize)| <= AtLeastOne(maxSize)
  {
    if ops != [] {
      var n := |ops| - 1;
      RunKeeps(ops[..n], ttl, maxSize);
      StepKeeps(Run(ops[..n], ttl, maxSize), ops[n], ttl, maxSize);
    }
  }

  /** The size bound holds over all runs exactly for a positive maxSize: a cache of size 0 keeps one slot. */
  lemma SizeBoundIff<V>(v: V, ttl: int, maxSize: int)
    ensures (forall ops: seq<Op<V>> :: |Run(ops, ttl, maxSize)| <= maxSize) <==> maxSize >= 1
  {
    if maxSize >= 1 {
      forall ops: seq<Op<V>> ensures |Run(ops, ttl, maxSize)| <= maxSize {
        RunKeeps(ops, ttl, maxSize);
      }
    } else {
      var ops := [PutOp("k", v, 0)];
      assert ops[..0] == [] && Run<V>([], ttl, maxSize) == [];
      assert |Run(ops, ttl, maxSize)| == 1;
    }
  }

  /** The value and time of the last Put of `key`. */
  function LatestPut<V>(ops: seq<Op<V>>, key: string): Option<(V, int)> {
    if ops == [] then None
    else
      var op := ops[|ops| - 1];
      if op.PutOp? && op.key == key then Some((op.value, op.now)) else LatestPut(ops[..|ops| - 1], key)
  }

  /** A slot was there before, or it is the one just put; a Put leaves no older slot of its key. */
  lemma StepOrigins<V>(s: Slots<V>, op: Op<V>, ttl: int, maxSize: int)
    requires DistinctKeys(s)
    ensures forall x :: x in Step(s, op, ttl, maxSize) ==>
      if op.PutOp? && x.key == op.key then x == Slot(op.key, op.value, op.now) else x in s
  {
    var i := Find(s, op.key);
    if i < |s| {
      RemoveKeeps(s, i);
      forall x | x in RemoveAt(s, i) ensures x in s && x.key != op.key {
        var j :| 0 <= j < |RemoveAt(s, i)| && RemoveAt(s, i)[j] == x;
      }
    }
  }

  /** Every slot holds the latest Put of its key. */
  lemma {:induction false} SlotsAreLatest<V>(ops: seq<Op<V>>, ttl: int, maxSize: int)
    ensures forall x :: x in Run(ops, ttl, maxSize) ==> LatestPut(ops, x.key) == Some((x.value, x.at))
  {
    if ops != [] {
      var n := |ops| - 1;
      SlotsAreLatest(ops[..n], ttl, maxSize);
      RunKeeps(ops[..n], ttl, maxSize);
      var s, op := Run(ops[..n], ttl, maxSize), ops[n];
      StepOrigins(s, op, ttl, maxSize);
      forall x | x in Step(s, op, ttl, maxSize) ensures LatestPut(ops, x.key) == Some((x.value, x.at)) {
        if op.PutOp? && x.key == op.key {
          assert x == Slot(op.key, op.value, op.now);
        } else {
          assert x in s;
        }
      }
    }
  }

  /** A hit returns the latest Put of the key, no older than the TTL. */
  lemma HitIsLatestPut<V>(ops: seq<Op<V>>, ttl: int, maxSize: int, key: string, now: int)
    requires Got(Run(ops, ttl, maxSize), key, now, ttl).1.Some?
    ensures LatestPut(ops, key).Some?
    ensures Got(Run(ops, ttl, maxSize), key, now, ttl).1 == Some(LatestPut(ops, key).value.0)
    ensures now - LatestPut(ops, key).value.1 <= ttl
  {
    SlotsAreLatest(ops, ttl, maxSize);
    var s := Run(ops, ttl, maxSize);
    assert s[Find(s, key)] in s;
  }

  // ---------------------------------------------------------------- survival

  /** Keys other than `key` that the operations touch. */
  ghost function Touched<V>(ops: seq<Op<V>>, key: string): set<string> {
    set op | op in ops && op.key != key :: op.key
  }

  /** No Get of `key` in `ops` comes after its TTL ran out. */
  ghost predicate Unexpired<V>(ops: seq<Op<V>>, key: string, at: int, ttl: int) {
    forall op :: op in ops && op.GetOp? && op.key == key ==> op.now - at <= ttl
  }

  /** `key`, put at time `at`, stands at place `p` and everything in front of it is in `ahead`. */
  ghost predicate Stands<V>(s: Slots<V>, key: string, at: int, p: nat, ahead: set<string>) {
    p < |s| && s[p].key == key && s[p].at == at && forall j :: 0 <= j < p ==> s[j].key in ahead
  }

  lemma FindUnique<V>(s: Slots<V>, key: string, i: nat)
    requires DistinctKeys(s) && i < |s| && s[i].key == key
    ensures Find(s, key) == i
  {
  }

  lemma {:induction false} PrefixCount<V>(s: Slots<V>, i: nat, ahead: set<string>)
    requires DistinctKeys(s) && i <= |s| && forall j :: 0 <= j < i ==> s[j].key in ahead
    ensures i <= |ahead|
  {
    if i > 0 {
      PrefixCount(s, i - 1, ahead - {s[i - 1].key});
    }
  }

  lemma StandsRemove<V>(s: Slots<V>, key: string, at: int, p: nat, ahead: set<string>, i: nat) returns (q: nat)
    requires DistinctKeys(s) && Stands(s, key, at, p, ahead) && i < |s| && i != p
    ensures Stands(RemoveAt(s, i), key, at, q, ahead)
  {
    RemoveKeeps(s, i);
    q := if i < p then p - 1 else p;
  }

  lemma StandsFront<V>(x: Slot<V>, s: Slots<V>, key: string, at: int, p: nat, ahead: set<string>)
    requires Stands(s, key, at, p, ahead) && x.key in ahead
    ensures Stands([x] + s, key, at, p + 1, ahead)
  {
  }

  /** A Put of another key moves only that key in front, and evicts `key` only from a list that
      holds maxSize other keys. */
  lemma OtherPut<V>(s: Slots<V>, key: string, at: int, p: nat, ahead: set<string>, x: Slot<V>, maxSize: int) returns (q: nat)
    requires DistinctKeys(s) && |s| <= maxSize && Stands(s, key, at, p, ahead)
    requires x.key != key && x.key in ahead && |ahead| < maxSize
    ensures Stands(Put(s, x.key, x.value, x.at, maxSize), key, at, q, ahead)
  {
    var i := Find(s, x.key);
    if i < |s| {
      var r := StandsRemove(s, key, at, p, ahead, i);
      StandsFront(x, RemoveAt(s, i), key, at, r, ahead);
      q := r + 1;
    } else {
      PrefixCount(s, p, ahead - {x.key});
      assert |ahead - {x.key}| == |ahead| - 1;
      var rest := if |s| >= maxSize then s[..|s| - 1] else s;
      StandsFront(x, rest, key, at, p, ahead);
      q := p + 1;
    }
  }

  lemma OneStep<V>(s: Slots<V>, op: Op<V>, key: string, at: int, p: nat, ahead: set<string>, ttl: int, maxSize: int) returns (q: nat)
    requires DistinctKeys(s) && |s| <= maxSize && Stands(s, key, at, p, ahead)
    requires op.key != key ==> op.key in ahead && |ahead| < maxSize
    requires op.key == key ==> op.GetOp? && op.now - at <= ttl
    ensures Stands(Step(s, op, ttl, maxSize), key, at, q, ahead)
  {
    q := p;
    match op
    case GetOp(k, now) =>
      var i := Find(s, k);
      if k == key {
        FindUnique(s, key, p);
        q := 0;
      } else if i < |s| {
        q := StandsRemove(s, key, at, p, ahead, i);
        if now - s[i].at <= ttl {
          StandsFront(s[i], RemoveAt(s, i), key, at, q, ahead);
          q := q + 1;
        }
      }
    case PutOp(k, v, now) => q := OtherPut(s, key, at, p, ahead, Slot(k, v, now), maxSize);
  }

  /** Running `ops` from state `s`. */
  function RunFrom<V>(s: Slots<V>, ops: seq<Op<V>>, ttl: int, maxSize: int): Slots<V> {
    if ops == [] then s
    else Step(RunFrom(s, ops[..|ops| - 1], ttl, maxSize), ops[|ops| - 1], ttl, maxSize)
  }

  /** A key that was just used stays while fewer than maxSize other keys are touched and no Get
      finds it expired. */
  lemma {:induction false} Survives<V>(s: Slots<V>, ops: seq<Op<V>>, key: string, at: int, ttl: int, maxSize: int) returns (p: nat)
    requires DistinctKeys(s) && |s| <= maxSize && Stands(s, key, at, 0, {})
    requires |Touched(ops, key)| < maxSize && Unexpired(ops, key, at, ttl)
    requires forall op :: op in ops && op.PutOp? ==> op.key != key
    ensures var t := RunFrom(s, ops, ttl, maxSize);
      DistinctKeys(t) && |t| <= maxSize && Stands(t, key, at, p, Touched(ops, key))
  {
    p := 0;
    if ops != [] {
      var n := |ops| - 1;
      var before, ahead := Touched(ops[..n], key), Touched(ops, key);
      assert forall op :: op in ops[..n] ==> op in ops;
      assert before <= ahead;
      CountWithin(before, ahead);
      p := Survives(s, ops[..n], key, at, ttl, maxSize);
      var t := RunFrom(s, ops[..n], ttl, maxSize);
      assert ops[n] in ops && Stands(t, key, at, p, ahead);
      StepKeeps(t, ops[n], ttl, maxSize);
      p := OneStep(t, ops[n], key, at, p, ahead, ttl, maxSize);
    }
  }

  lemma RunFromStep<V>(s: Slots<V>, ops: seq<Op<V>>, op: Op<V>, ttl: int, maxSize: int)
    ensures RunFrom(s, ops + [op], ttl, maxSize) == Step(RunFrom(s, ops, ttl, maxSize), op, ttl, maxSize)
    ensures Run(ops + [op], ttl, maxSize) == Step(Run(ops, ttl, maxSize), op, ttl, maxSize)
  {
    assert (ops + [op])[..|ops|] == ops;
  }

  lemma {:induction false} RunSplits<V>(a: seq<Op<V>>, b: seq<Op<V>>, ttl: int, maxSize: int)
    ensures Run(a + b, ttl, maxSize) == RunFrom(Run(a, ttl, maxSize), b, ttl, maxSize)
  {
    if b == [] {
      AppendNone(a);
    } else {
      var n := |b| - 1;
      RunSplits(a, b[..n], ttl, maxSize);
      AppendLast(a, b);
      SplitLast(b);
      RunFromStep(Run(a, ttl, maxSize), b[..n], b[n], ttl, maxSize);
      RunFromStep([], a + b[..n], b[n], ttl, maxSize);
    }
  }

  /** In any run: after a Put of `key`, fewer than maxSize other keys and no new Put of it, a Get
      within the TTL hits and returns that Put's value. */
  lemma PutSurvives<V>(a: seq<Op<V>>, key: string, value: V, at: int, b: seq<Op<V>>, now: int, ttl: int, maxSize: int)
    requires maxSize >= 1 && |Touched(b, key)| < maxSize
    requires forall op :: op in b && op.PutOp? ==> op.key != key
    requires Unexpired(b, key, at, ttl) && now - at <= ttl
    ensures Got(Run(a + [PutOp(key, value, at)] + b, ttl, maxSize), key, now, ttl).1 == Some(value)
  {
    var put := a + [PutOp(key, value, at)];
    assert put[..|a|] == a;
    RunKeeps(a, ttl, maxSize);
    RunKeeps(put, ttl, maxSize);
    RunSplits(put, b, ttl, maxSize);
    var p := Survives(Run(put, ttl, maxSize), b, key, at, ttl, maxSize);
    FindUnique(Run(put + b, ttl, maxSize), key, p);
    HitIsLatestPut(put + b, ttl, maxSize, key, now);
    LatestPutSkips(put, b, key);
  }

  /** The same counted from a hit: a used key stays while fewer than maxSize other keys are used after it. */
  lemma HitSurvives<V>(a: seq<Op<V>>, key: string, used: int, b: seq<Op<V>>, now: int, ttl: int, maxSize: int)
    requires maxSize >= 1 && |Touched(b, key)| < maxSize && LatestPut(a, key).Some?
    requires Got(Run(a, ttl, maxSize), key, used, ttl).1.Some?
    requires forall op :: op in b && op.PutOp? ==> op.key != key
    requires Unexpired(b, key, LatestPut(a, key).value.1, ttl) && now - LatestPut(a, key).value.1 <= ttl
    ensures Got(Run(a + [GetOp(key, used)] + b, ttl, maxSize), key, now, ttl).1 == Some(LatestPut(a, key).value.0)
  {
    var get, at := a + [GetOp(key, used)], LatestPut(a, key).value.1;
    assert get[..|a|] == a;
    SlotsAreLatest(a, ttl, maxSize);
    RunKeeps(a, ttl, maxSize);
    RunKeeps(get, ttl, maxSize);
    RunSplits(get, b, ttl, maxSize);
    var s := Run(a, ttl, maxSize);
    assert s[Find(s, key)] in s;
    assert Stands(Run(get, ttl, maxSize), key, at, 0, {});
    var p := Survives(Run(get, ttl, maxSize), b, key, at, ttl, maxSize);
    FindUnique(Run(get + b, ttl, maxSize), key, p);
    HitIsLatestPut(get + b, ttl, maxSize, key, now);
    LatestPutSkips(get, b, key);
  }

  lemma {:induction false} LatestPutSkips<V>(a: seq<Op<V>>, b: seq<Op<V>>, key: string)
    requires forall op :: op in b && op.PutOp? ==> op.key != key
    ensures LatestPut(a + b, key) == LatestPut(a, key)
  {
    if b == [] {
      assert a + b == a;
    } else {
      var n := |b| - 1;
      assert (a + b)[..|a| + n] == a + b[..n] && b[n] in b;
      LatestPutSkips(a, b[..n], key);
    }
  }
}
