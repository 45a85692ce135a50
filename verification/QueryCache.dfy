/** The cache as it is built: nodes linked both ways between two sentinels, and a map of keys. */
module QueryCaches {
  import opened Ordering
  import opened Entries
  import opened CacheModel

  class CacheEntry<V> {
    var key: string
    var result: Option<V>
    var insertedAt: int
    var prev: CacheEntry?<V>
    var next: CacheEntry?<V>

    constructor (key: string, result: Option<V>, insertedAt: int)
      ensures this.key == key && this.result == result && this.insertedAt == insertedAt
    {
      this.key, this.result, this.insertedAt := key, result, insertedAt;
      prev, next := null, null;
    }

    ghost predicate Holds(x: Slot<V>)
      reads this`key, this`result, this`insertedAt
    {
      key == x.key && result == Some(x.value) && insertedAt == x.at
    }
  }

  /** The map sends the key at each place to the node at that place, and has no other keys. */
  ghost predicate Bijective<V>(items: map<string, CacheEntry<V>>, nodes: seq<CacheEntry<V>>, model: Slots<V>) {
    && |model| == |nodes| == |items| && DistinctKeys(model)
    && forall i :: 0 <= i < |model| ==> model[i].key in items && items[model[i].key] == nodes[i]
  }

  lemma BijectiveOnto<V>(items: map<string, CacheEntry<V>>, nodes: seq<CacheEntry<V>>, model: Slots<V>, k: string)
    requires Bijective(items, nodes, model) && k in items
    ensures Find(model, k) < |model|
  {
    var keys := seq(|model|, i requires 0 <= i < |model| => model[i].key);
    DistinctCount(keys);
    assert ToSet(keys) <= items.Keys;
    if Find(model, k) == |model| {
      assert k !in ToSet(keys);
      CountWithin(ToSet(keys) + {k}, items.Keys);
      assert false;
    }
  }

  lemma RemovedAt<T>(s: seq<T>, i: nat)
    requires i < |s|
    ensures |RemoveAt(s, i)| == |s| - 1
    ensures forall j :: 0 <= j < |s| - 1 ==> RemoveAt(s, i)[j] == s[if j < i then j else j + 1]
  {
  }

  lemma BijectiveRemove<V>(items: map<string, CacheEntry<V>>, nodes: seq<CacheEntry<V>>, model: Slots<V>, i: nat)
    requires Bijective(items, nodes, model) && i < |model|
    ensures Bijective(items - {model[i].key}, RemoveAt(nodes, i), RemoveAt(model, i))
  {
    RemoveKeeps(model, i);
    RemovedAt(nodes, i);
    assert (items - {model[i].key}).Keys == items.Keys - {model[i].key};
  }

  lemma BijectiveFront<V>(items: map<string, CacheEntry<V>>, nodes: seq<CacheEntry<V>>, model: Slots<V>, e: CacheEntry<V>, x: Slot<V>)
    requires Bijective(items, nodes, model) && x.key !in items
    ensures Bijective(items[x.key := e], [e] + nodes, [x] + model)
  {
    FrontKeeps(x, model);
    assert items[x.key := e].Keys == items.Keys + {x.key};
  }

  /** Moving a node to the front, with a new slot of the same key, needs no change of the map. */
  lemma BijectiveMove<V>(items: map<string, CacheEntry<V>>, nodes: seq<CacheEntry<V>>, model: Slots<V>, i: nat, x: Slot<V>)
    requires Bijective(items, nodes, model) && i < |model| && x.key == model[i].key
    ensures Bijective(items, [nodes[i]] + RemoveAt(nodes, i), [x] + RemoveAt(model, i))
  {
    BijectiveRemove(items, nodes, model, i);
    BijectiveFront(items - {x.key}, RemoveAt(nodes, i), RemoveAt(model, i), nodes[i], x);
    assert (items - {x.key})[x.key := nodes[i]] == items;
  }

  lemma BijectiveUpdate<V>(items: map<string, CacheEntry<V>>, nodes: seq<CacheEntry<V>>, model: Slots<V>, i: nat, x: Slot<V>)
    requires Bijective(items, nodes, model) && i < |model| && x.key == model[i].key
    ensures Bijective(items, nodes, model[i := x])
  {
    assert forall j :: 0 <= j < |model| ==> model[i := x][j].key == model[j].key;
  }

  // ------------------------------------------------------------- linked nodes

  /** Following `next` and following `prev` walk the same nodes in opposite directions. */
  ghost predicate Linked<V>(chain: seq<CacheEntry<V>>)
    reads chain`prev, chain`next
  {
    && Distinct(chain)
    && (forall i {:trigger chain[i].next} :: 0 <= i < |chain| - 1 ==> chain[i].next == chain[i + 1])
    && (forall i {:trigger chain[i].prev} :: 0 < i < |chain| ==> chain[i].prev == chain[i - 1])
  }

  /** The nodes hold the slots, place by place. */
  ghost predicate Holding<V>(nodes: seq<CacheEntry<V>>, model: Slots<V>)
    reads nodes`key, nodes`result, nodes`insertedAt
  {
    |nodes| == |model| && forall i :: 0 <= i < |nodes| ==> nodes[i].Holds(model[i])
  }

  lemma HoldingRemove<V>(nodes: seq<CacheEntry<V>>, model: Slots<V>, i: nat)
    requires Holding(nodes, model) && i < |nodes|
    ensures Holding(RemoveAt(nodes, i), RemoveAt(model, i))
    ensures ToSet(RemoveAt(nodes, i)) <= ToSet(nodes)
  {
    RemovedAt(nodes, i);
    RemovedAt(model, i);
  }

  lemma HoldingMove<V>(nodes: seq<CacheEntry<V>>, model: Slots<V>, i: nat)
    requires Holding(nodes, model) && i < |nodes|
    ensures Holding([nodes[i]] + RemoveAt(nodes, i), [model[i]] + RemoveAt(model, i))
    ensures ToSet([nodes[i]] + RemoveAt(nodes, i)) <= ToSet(nodes)
  {
    HoldingRemove(nodes, model, i);
    assert nodes[i].Holds(model[i]);
  }

  ghost function Chain<V>(head: CacheEntry<V>, nodes: seq<CacheEntry<V>>, tail: CacheEntry<V>): (c: seq<CacheEntry<V>>)
    ensures |c| == |nodes| + 2 && c[0] == head && c[|c| - 1] == tail
    ensures forall i :: 0 <= i < |nodes| ==> c[i + 1] == nodes[i]
    ensures forall n :: n in nodes ==> n in c
  {
    [head] + nodes + [tail]
  }

  lemma InnerDistinct<V>(head: CacheEntry<V>, nodes: seq<CacheEntry<V>>, tail: CacheEntry<V>)
    requires Linked(Chain(head, nodes, tail))
    ensures Distinct(nodes)
  {
    var chain := Chain(head, nodes, tail);
    assert forall j :: 0 <= j < |nodes| ==> nodes[j] == chain[j + 1];
  }

  lemma ChainRemove<V>(head: CacheEntry<V>, nodes: seq<CacheEntry<V>>, tail: CacheEntry<V>, i: nat)
    requires i < |nodes|
    ensures RemoveAt(Chain(head, nodes, tail), i + 1) == Chain(head, RemoveAt(nodes, i), tail)
  {
  }

  lemma ChainFront<V>(head: CacheEntry<V>, nodes: seq<CacheEntry<V>>, tail: CacheEntry<V>, e: CacheEntry<V>)
    ensures [head, e] + Chain(head, nodes, tail)[1..] == Chain(head, [e] + nodes, tail)
  {
  }

  /** Take node `e` out of the chain; its own links are left dangling. */
  method Unlink<V>(e: CacheEntry<V>, ghost chain: seq<CacheEntry<V>>, ghost i: nat)
    requires Linked(chain) && 0 < i < |chain| - 1 && chain[i] == e
    modifies chain`prev, chain`next
    ensures Linked(RemoveAt(chain, i))
  {
    assert chain[i].prev == chain[i - 1] && chain[i].next == chain[i + 1];
    e.prev.next := e.next;
    e.next.prev := e.prev;
    RemovedAt(chain, i);
  }

  /** Insert node `e` between the first two nodes of the chain. */
  method Link<V>(first: CacheEntry<V>, e: CacheEntry<V>, ghost chain: seq<CacheEntry<V>>)
    requires Linked(chain) && |chain| >= 2 && chain[0] == first && e !in chain
    modifies chain`prev, chain`next, e`prev, e`next
    ensures Linked([first, e] + chain[1..])
  {
    assert chain[0].next == chain[1];
    e.next := first.next;
    e.prev := first;
    first.next.prev := e;
    first.next := e;
    ghost var c := [first, e] + chain[1..];
    assert forall j :: 2 <= j < |c| ==> c[j] == chain[j - 1];
  }

  /** Overwrite the result and time of a node in place. */
  method Store<V>(e: CacheEntry<V>, result: V, now: int, ghost nodes: seq<CacheEntry<V>>, ghost model: Slots<V>, ghost i: nat)
    requires Holding(nodes, model) && Distinct(nodes) && i < |nodes| && nodes[i] == e
    modifies e`result, e`insertedAt
    ensures Holding(nodes, model[i := Slot(model[i].key, result, now)])
  {
    assert e.Holds(model[i]);
    e.result := Some(result);
    e.insertedAt := now;
  }

  class QueryCache<V> {
    const ttl: int
    const maxSize: int
    var items: map<string, CacheEntry<V>>
    const head: CacheEntry<V>
    const tail: CacheEntry<V>

    /** The nodes between the sentinels, most recently used first. */
    ghost var nodes: seq<CacheEntry<V>>

    /** The abstract cache: what these nodes hold. */
    ghost var model: Slots<V>

    /** Everything the cache may write to. */
    ghost function Repr(): set<object>
      reads this
    {
      {this, head, tail} + ToSet(nodes)
    }

    ghost predicate Valid()
      reads this, Repr()
    {
      && Linked(Chain(head, nodes, tail))
      && Holding(nodes, model)
      && Bijective(items, nodes, model)
    }

    /** A mapped key stands in the list where Find looks for it. */
    lemma Located(key: string) returns (i: nat)
      requires Valid()
      ensures i == Find(model, key)
      ensures key in items <==> i < |model|
      ensures i < |model| ==> nodes[i] == items[key] && nodes[i].Holds(model[i])
    {
      i := Find(model, key);
      if key in items {
        BijectiveOnto(items, nodes, model, key);
      }
    }

    constructor (ttl: int, maxSize: int)
      ensures Valid() && fresh(Repr()) && model == []
      ensures this.ttl == ttl && this.maxSize == maxSize
    {
      var h := new CacheEntry<V>("", None, 0);
      var t := new CacheEntry<V>("", None, 0);
      h.next := t;
      t.prev := h;
      this.ttl, this.maxSize := ttl, maxSize;
      items := map[];
      head, tail := h, t;
      nodes, model := [], [];
    }

    method InsertFront(e: CacheEntry<V>)
      requires Linked(Chain(head, nodes, tail)) && e !in Chain(head, nodes, tail)
      modifies Chain(head, nodes, tail)`prev, Chain(head, nodes, tail)`next, e`prev, e`next
      ensures Linked(Chain(head, [e] + nodes, tail))
    {
      ChainFront(head, nodes, tail, e);
      Link(head, e, Chain(head, nodes, tail));
    }

    method MoveToFront(e: CacheEntry<V>, ghost i: nat)
      requires Linked(Chain(head, nodes, tail)) && i < |nodes| && nodes[i] == e
      modifies this`nodes, Chain(head, nodes, tail)`prev, Chain(head, nodes, tail)`next
      ensures Linked(Chain(head, nodes, tail)) && nodes == [e] + RemoveAt(old(nodes), i)
    {
      ChainRemove(head, nodes, tail, i);
      Unlink(e, Chain(head, nodes, tail), i + 1);
      RemovedAt(Chain(head, nodes, tail), i + 1);
      nodes := RemoveAt(nodes, i);
      InsertFront(e);
      nodes := [e] + nodes;
    }

    /** Take a node out of the chain, and its slot with it. */
    method Detach(e: CacheEntry<V>, ghost i: nat)
      requires Linked(Chain(head, nodes, tail)) && Holding(nodes, model) && i < |nodes| && nodes[i] == e
      modifies this`nodes, this`model, Chain(head, nodes, tail)`prev, Chain(head, nodes, tail)`next
      ensures Linked(Chain(head, nodes, tail)) && Holding(nodes, model)
      ensures nodes == RemoveAt(old(nodes), i) && model == RemoveAt(old(model), i)
    {
      ChainRemove(head, nodes, tail, i);
      HoldingRemove(nodes, model, i);
      Unlink(e, Chain(head, nodes, tail), i + 1);
      assert Holding(RemoveAt(nodes, i), RemoveAt(model, i));
      nodes, model := RemoveAt(nodes, i), RemoveAt(model, i);
    }

    method Remove(e: CacheEntry<V>, ghost i: nat)
      requires Valid() && i < |model| && nodes[i] == e
      modifies this`nodes, this`items, this`model, Chain(head, nodes, tail)`prev, Chain(head, nodes, tail)`next
      ensures Valid() && ToSet(nodes) <= ToSet(old(nodes))
      ensures model == RemoveAt(old(model), i) && items == old(items) - {old(model)[i].key}
    {
      BijectiveRemove(items, nodes, model, i);
      HoldingRemove(nodes, model, i);
      assert e.Holds(model[i]);
      Detach(e, i);
      items := items - {e.key};
    }

    /** Move a node to the front, and its slot with it. */
    method Promote(e: CacheEntry<V>, ghost i: nat)
      requires Valid() && i < |model| && nodes[i] == e
      modifies this`nodes, this`model, Chain(head, nodes, tail)`prev, Chain(head, nodes, tail)`next
      ensures Valid() && ToSet(nodes) <= ToSet(old(nodes))
      ensures model == [old(model)[i]] + RemoveAt(old(model), i)
    {
      BijectiveMove(items, nodes, model, i, model[i]);
      HoldingMove(nodes, model, i);
      MoveToFront(e, i);
      model := [model[i]] + RemoveAt(model, i);
    }

    /** Put a node in front, and its slot with it. */
    method Attach(e: CacheEntry<V>, ghost x: Slot<V>)
      requires Linked(Chain(head, nodes, tail)) && Holding(nodes, model) && e !in Chain(head, nodes, tail) && e.Holds(x)
      modifies this`nodes, this`model, Chain(head, nodes, tail)`prev, Chain(head, nodes, tail)`next, e`prev, e`next
      ensures Linked(Chain(head, nodes, tail)) && Holding(nodes, model)
      ensures nodes == [e] + old(nodes) && model == [x] + old(model)
    {
      assert Holding([e] + nodes, [x] + model);
      InsertFront(e);
      assert Holding([e] + nodes, [x] + model);
      nodes, model := [e] + nodes, [x] + model;
    }

    method Insert(key: string, result: V, now: int)
      requires Valid() && key !in items
      modifies this`nodes, this`items, this`model, Chain(head, nodes, tail)
      ensures Valid() && fresh(Repr() - old(Repr()))
      ensures model == [Slot(key, result, now)] + old(model)
    {
      ghost var x := Slot(key, result, now);
      var e := new CacheEntry<V>(key, Some(result), now);
      BijectiveFront(items, nodes, model, e, x);
      items := items[key := e];
      Attach(e, x);
    }

    method EvictLRU()
      requires Valid()
      modifies this`nodes, this`items, this`model, Chain(head, nodes, tail)
      ensures Valid() && items.Keys <= old(items.Keys) && Repr() <= old(Repr())
      ensures model == if old(model) == [] then [] else old(model)[..|old(model)| - 1]
    {
      ghost var chain := Chain(head, nodes, tail);
      var lru := tail.prev;
      assert chain[|nodes| + 1].prev == chain[|nodes|];
      if lru == head {
        assert |nodes| == 0;
        return;
      }
      assert lru == nodes[|nodes| - 1];
      Remove(lru, |model| - 1);
    }

    method Get(key: string, now: int) returns (r: Option<V>)
      requires Valid()
      modifies Repr()
      ensures Valid() && Repr() <= old(Repr())
      ensures (model, r) == Got(old(model), key, now, ttl)
    {
      ghost var i := Located(key);
      if key !in items {
        return None;
      }
      var e := items[key];
      if now - e.insertedAt > ttl {
        Remove(e, i);
        return None;
      }
      r := e.result;
      Promote(e, i);
    }

    /** Give a node a new result and time. */
    method Rewrite(e: CacheEntry<V>, result: V, now: int, ghost i: nat)
      requires Valid() && i < |model| && nodes[i] == e
      modifies this`model, e`result, e`insertedAt
      ensures Valid() && model == old(model)[i := Slot(old(model)[i].key, result, now)]
    {
      ghost var x := Slot(model[i].key, result, now);
      InnerDistinct(head, nodes, tail);
      BijectiveUpdate(items, nodes, model, i, x);
      Replace(e, result, now, i);
    }

    /** Change the node and its slot; the links stay as they are. */
    method Replace(e: CacheEntry<V>, result: V, now: int, ghost i: nat)
      requires Holding(nodes, model) && Distinct(nodes) && i < |nodes| && nodes[i] == e
      modifies this`model, e`result, e`insertedAt
      ensures Holding(nodes, model)
      ensures model == old(model)[i := Slot(old(model)[i].key, result, now)]
    {
      Store(e, result, now, nodes, model, i);
      model := model[i := Slot(model[i].key, result, now)];
    }

    /** Give a node a new result and time, and move it to the front. */
    method Overwrite(e: CacheEntry<V>, result: V, now: int, ghost i: nat)
      requires Valid() && i < |model| && nodes[i] == e
      modifies this`nodes, this`model, Chain(head, nodes, tail)
      ensures Valid() && ToSet(nodes) <= ToSet(old(nodes))
      ensures model == [Slot(old(model)[i].key, result, now)] + RemoveAt(old(model), i)
    {
      Rewrite(e, result, now, i);
      Promote(e, i);
      assert RemoveAt(old(model)[i := Slot(old(model)[i].key, result, now)], i) == RemoveAt(old(model), i);
    }

    method Put(key: string, result: V, now: int)
      requires Valid()
      modifies Repr()
      ensures Valid() && fresh(Repr() - old(Repr()))
      ensures model == CacheModel.Put(old(model), key, result, now, maxSize)
    {
      ghost var i := Located(key);
      if key in items {
        Overwrite(items[key], result, now, i);
        return;
      }
      if |items| >= maxSize {
        EvictLRU();
      }
      Insert(key, result, now);
    }
  }
}
