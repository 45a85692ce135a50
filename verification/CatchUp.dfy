/** Entry-level catch-up of a replica from its primary, by a `ReceivedAt` watermark.

The replica asks for everything at or above its own largest `ReceivedAt` in the shard and
skips the IDs it already has there. `inShard` stands for the shard hash; with no shards
configured it holds of every entry.
*/
module CatchUp {
  import opened Ordering
  import opened Entries
  import opened Executor
  import opened Store
  import opened Merging
  import opened Filters
  import opened Compaction
  import opened Nodes

  // ----------------------------------------------------------- specification

  /** LatestReceivedAtForShard: the running maximum from 0. */
  function Watermark(log: seq<Entry>, inShard: Entry -> bool): (w: int)
    ensures w >= 0 && forall e :: e in log && inShard(e) ==> e.receivedAt <= w
  {
    if log == [] then 0
    else
      var n := |log| - 1;
      var w := Watermark(log[..n], inShard);
      SplitLast(log);
      if inShard(log[n]) && log[n].receivedAt > w then log[n].receivedAt else w
  }

  lemma {:induction false} WatermarkReached(log: seq<Entry>, inShard: Entry -> bool)
    ensures Watermark(log, inShard) == 0 || exists e :: e in log && inShard(e) && e.receivedAt == Watermark(log, inShard)
  {
    if log != [] {
      var n := |log| - 1;
      WatermarkReached(log[..n], inShard);
      SplitLast(log);
      assert log[n] in log;
      if e :| e in log[..n] && inShard(e) && e.receivedAt == Watermark(log[..n], inShard) {
        assert e in log;
      }
    }
  }

  /** No entry of the shard lies above `w`: then the watermark does not. */
  lemma WatermarkBelow(log: seq<Entry>, inShard: Entry -> bool, w: int)
    requires w >= 0 && forall e :: e in log && inShard(e) ==> e.receivedAt <= w
    ensures Watermark(log, inShard) <= w
  {
    WatermarkReached(log, inShard);
  }

  predicate Wanted(e: Entry, inShard: Entry -> bool, since: int) {
    inShard(e) && e.receivedAt >= since
  }

  /** The entries of the shard received at or after `since`, in log order. */
  function Selected(log: seq<Entry>, inShard: Entry -> bool, since: int): seq<Entry> {
    Keep(log, e => Wanted(e, inShard, since))
  }

  lemma SelectedExactly(log: seq<Entry>, inShard: Entry -> bool, since: int)
    ensures forall e :: e in Selected(log, inShard, since) <==> e in log && Wanted(e, inShard, since)
    ensures DistinctIds(log) ==> DistinctIds(Selected(log, inShard, since))
  {
    KeepMembers(log, e => Wanted(e, inShard, since));
    if DistinctIds(log) {
      KeepDistinctIds(log, e => Wanted(e, inShard, since));
    }
  }

  /** A reply to FetchShardEntries: the selected entries by ReceivedAt, ties in any order. */
  ghost predicate IsReply(reply: seq<Entry>, log: seq<Entry>, inShard: Entry -> bool, since: int) {
    && multiset(reply) == multiset(Selected(log, inShard, since))
    && forall i, j :: 0 <= i < j < |reply| ==> reply[i].receivedAt <= reply[j].receivedAt
  }

  /** localIDsAtOrAfterNs. */
  function KnownIds(log: seq<Entry>, inShard: Entry -> bool, since: int): set<string> {
    set e | e in log && Wanted(e, inShard, since) :: e.id
  }

  predicate IsNew(e: Entry, known: set<string>) {
    e.id !in known
  }

  /** The entry at place `i` of the reply gets appended: its ID is not known and its append does not fail. */
  predicate Taken(reply: seq<Entry>, known: set<string>, ok: nat -> bool, i: nat)
    requires i < |reply|
  {
    reply[i].id !in known && ok(i)
  }

  /** The entries of the reply that get appended; a failed append is skipped and the loop goes on. */
  function Accepted(reply: seq<Entry>, known: set<string>, ok: nat -> bool): seq<Entry> {
    if reply == [] then []
    else
      var n := |reply| - 1;
      Accepted(reply[..n], known, ok) + if Taken(reply, known, ok, n) then [reply[n]] else []
  }

  lemma AcceptedNext(reply: seq<Entry>, i: nat, known: set<string>, ok: nat -> bool)
    requires i < |reply|
    ensures Accepted(reply[..i + 1], known, ok) ==
      if Taken(reply, known, ok, i) then Accepted(reply[..i], known, ok) + [reply[i]] else Accepted(reply[..i], known, ok)
  {
    assert reply[..i + 1][..i] == reply[..i];
    AppendNone(Accepted(reply[..i], known, ok));
  }

  lemma {:induction false} AcceptedExactly(reply: seq<Entry>, known: set<string>, ok: nat -> bool)
    ensures forall e :: e in Accepted(reply, known, ok) <==> exists i :: 0 <= i < |reply| && reply[i] == e && Taken(reply, known, ok, i)
    ensures DistinctIds(reply) ==> DistinctIds(Accepted(reply, known, ok))
  {
    if reply != [] {
      var n := |reply| - 1;
      var front, u := reply[..n], Accepted(reply[..n], known, ok);
      AcceptedExactly(front, known, ok);
      AcceptedNext(reply, n, known, ok);
      assert reply[..n + 1] == reply;
      forall e ensures e in Accepted(reply, known, ok) <==> exists i :: 0 <= i < |reply| && reply[i] == e && Taken(reply, known, ok, i) {
        assert forall i: nat :: i < n ==> front[i] == reply[i] && Taken(front, known, ok, i) == Taken(reply, known, ok, i);
        if e in u {
          var i :| 0 <= i < n && front[i] == e && Taken(front, known, ok, i);
          assert Taken(reply, known, ok, i);
        }
      }
      if DistinctIds(reply) && Taken(reply, known, ok, n) {
        forall i | 0 <= i < |u| ensures u[i].id != reply[n].id {
          assert u[i] in u;
        }
      }
    }
  }

  // -------------------------------------------------------------- as it runs

  method LatestReceivedAtForShard(log: seq<Entry>, inShard: Entry -> bool) returns (latest: int)
    ensures latest == Watermark(log, inShard)
  {
    latest := 0;
    for i := 0 to |log|
      invariant latest == Watermark(log[..i], inShard)
    {
      assert log[..i + 1][..i] == log[..i];
      if !inShard(log[i]) {
        continue;
      }
      if log[i].receivedAt > latest {
        latest := log[i].receivedAt;
      }
    }
    assert log[..|log|] == log;
  }

  method LocalIdsAtOrAfter(log: seq<Entry>, inShard: Entry -> bool, since: int) returns (ids: set<string>)
    ensures ids == KnownIds(log, inShard, since)
  {
    ids := {};
    for i := 0 to |log|
      invariant ids == KnownIds(log[..i], inShard, since)
    {
      TakeNext(log, i);
      if !inShard(log[i]) {
        continue;
      }
      if log[i].receivedAt >= since {
        ids := ids + {log[i].id};
      }
    }
    assert log[..|log|] == log;
  }

  method FetchShardEntries(log: seq<Entry>, inShard: Entry -> bool, since: int) returns (reply: seq<Entry>)
    ensures IsReply(reply, log, inShard, since)
  {
    var result: seq<Entry> := [];
    for i := 0 to |log|
      invariant result == Selected(log[..i], inShard, since)
    {
      KeepNext(log, i, e => Wanted(e, inShard, since));
      if !inShard(log[i]) {
        continue;
      }
      if log[i].receivedAt < since {
        continue;
      }
      result := result + [log[i]];
    }
    assert log[..|log|] == log;
    reply := Sort(result, ReceivedEarlier);
  }

  /** Append and index the unknown entries of the reply, skipping those whose append fails. */
  method AppendUnknown(node: StorageNode, reply: seq<Entry>, known: set<string>, ok: nat -> bool, ghost horizon: Option<int>)
    returns (appended: nat)
    requires node.Serving(horizon)
    modifies node.manager, node.idx
    ensures node.Serving(horizon) && appended == |Accepted(reply, known, ok)|
    ensures StoreLog(node.manager.State()) == StoreLog(old(node.manager.State())) + Accepted(reply, known, ok)
  {
    appended := 0;
    ghost var log := StoreLog(node.manager.State());
    for i := 0 to |reply|
      invariant node.Serving(horizon) && appended == |Accepted(reply[..i], known, ok)|
      invariant StoreLog(node.manager.State()) == log + Accepted(reply[..i], known, ok)
    {
      var took := Consider(node, reply, i, known, ok, log, horizon);
      appended := if took then appended + 1 else appended;
    }
    assert reply[..|reply|] == reply;
  }

  /** One entry of the reply: known ones and failing ones are skipped. */
  method Consider(node: StorageNode, reply: seq<Entry>, i: nat, known: set<string>, ok: nat -> bool, ghost log: seq<Entry>, ghost horizon: Option<int>)
    returns (took: bool)
    requires node.Serving(horizon) && i < |reply| && StoreLog(node.manager.State()) == log + Accepted(reply[..i], known, ok)
    modifies node.manager, node.idx
    ensures node.Serving(horizon) && StoreLog(node.manager.State()) == log + Accepted(reply[..i + 1], known, ok)
    ensures |Accepted(reply[..i + 1], known, ok)| == |Accepted(reply[..i], known, ok)| + if took then 1 else 0
  {
    AcceptedNext(reply, i, known, ok);
    took := reply[i].id !in known && ok(i);
    if took {
      Accept(node, reply[i], log, Accepted(reply[..i], known, ok), Accepted(reply[..i + 1], known, ok), horizon);
    }
  }

  method Accept(node: StorageNode, e: Entry, ghost log: seq<Entry>, ghost before: seq<Entry>, ghost after: seq<Entry>, ghost horizon: Option<int>)
    requires node.Serving(horizon) && StoreLog(node.manager.State()) == log + before && after == before + [e]
    modifies node.manager, node.idx
    ensures node.Serving(horizon) && StoreLog(node.manager.State()) == log + after
  {
    Associate(log, before, [e]);
    node.Ingest(e, horizon);
  }

  /** The entry-level phase of CatchUp for one shard; `ok` says which appends succeed. */
  method CatchUpShard(node: StorageNode, primary: seq<Entry>, inShard: Entry -> bool, ok: nat -> bool, ghost horizon: Option<int>)
    returns (appended: nat, ghost reply: seq<Entry>)
    requires node.Serving(horizon)
    modifies node.manager, node.idx
    ensures node.Serving(horizon)
    ensures CaughtUp(StoreLog(old(node.manager.State())), StoreLog(node.manager.State()), primary, inShard, reply, ok)
    ensures |StoreLog(node.manager.State())| == |StoreLog(old(node.manager.State()))| + appended
  {
    var log := ReadSegments(node.manager.paths, node.manager.dir.files);
    var since := LatestReceivedAtForShard(log, inShard);
    var known := LocalIdsAtOrAfter(log, inShard, since);
    var fetched := FetchShardEntries(primary, inShard, since);
    appended := AppendUnknown(node, fetched, known, ok, horizon);
    reply := fetched;
  }

  // ------------------------------------------------------------ one catch-up

  /** A catch-up turns the replica's log `r` into `r'`, `ok` saying which appends succeed. */
  ghost predicate CaughtUp(r: seq<Entry>, r': seq<Entry>, p: seq<Entry>, inShard: Entry -> bool, reply: seq<Entry>, ok: nat -> bool) {
    var w := Watermark(r, inShard);
    IsReply(reply, p, inShard, w) && r' == r + Accepted(reply, KnownIds(r, inShard, w), ok)
  }

  /** No append fails. */
  ghost predicate NoFailure(reply: seq<Entry>, ok: nat -> bool) {
    forall i :: 0 <= i < |reply| ==> ok(i)
  }

  /** The shard entry is on the primary and not on the replica. */
  ghost predicate Missing(e: Entry, p: seq<Entry>, r: seq<Entry>, inShard: Entry -> bool) {
    e in p && inShard(e) && e !in r
  }

  /** No missing entry lies below the replica's watermark. */
  ghost predicate NoGap(p: seq<Entry>, r: seq<Entry>, inShard: Entry -> bool) {
    forall e :: Missing(e, p, r, inShard) ==> e.receivedAt >= Watermark(r, inShard)
  }

  lemma ReplyHas(reply: seq<Entry>, log: seq<Entry>, inShard: Entry -> bool, since: int)
    requires IsReply(reply, log, inShard, since)
    ensures forall e :: e in reply <==> e in log && Wanted(e, inShard, since)
    ensures DistinctIds(log) ==> DistinctIds(reply)
  {
    SelectedExactly(log, inShard, since);
    var s := Selected(log, inShard, since);
    forall e ensures e in reply <==> e in s {
      assert e in multiset(reply) <==> e in multiset(s);
    }
    if DistinctIds(log) {
      DistinctShuffle(s, reply);
    }
  }

  lemma DistinctShuffle(s: seq<Entry>, t: seq<Entry>)
    requires DistinctIds(s) && multiset(s) == multiset(t)
    ensures DistinctIds(t)
  {
    DistinctIdsIdentify(s);
    ShuffledDistinct(s, t);
    forall i, j | 0 <= i < j < |t| ensures t[i].id != t[j].id {
      assert t[i] in ToSet(t) && t[j] in ToSet(t);
    }
  }

  /** What is known at the watermark is exactly what the replica holds there. */
  lemma KnownIsHeld(p: seq<Entry>, r: seq<Entry>, inShard: Entry -> bool, w: int, e: Entry)
    requires IdsIdentify(ToSet(p) + ToSet(r)) && e in p && Wanted(e, inShard, w)
    ensures e.id in KnownIds(r, inShard, w) <==> e in r
  {
    if e.id in KnownIds(r, inShard, w) {
      var x :| x in r && Wanted(x, inShard, w) && x.id == e.id;
      assert e in ToSet(p) + ToSet(r) && x in ToSet(p) + ToSet(r);
    }
  }

  /** A full catch-up appends exactly the missing entries at or above the watermark. */
  lemma AppendsExactly(r: seq<Entry>, r': seq<Entry>, p: seq<Entry>, inShard: Entry -> bool, reply: seq<Entry>, ok: nat -> bool)
    requires CaughtUp(r, r', p, inShard, reply, ok) && NoFailure(reply, ok) && IdsIdentify(ToSet(p) + ToSet(r))
    ensures forall e :: e in r'[|r|..] <==> Missing(e, p, r, inShard) && e.receivedAt >= Watermark(r, inShard)
  {
    var w := Watermark(r, inShard);
    var known := KnownIds(r, inShard, w);
    assert r'[|r|..] == Accepted(reply, known, ok);
    AcceptedExactly(reply, known, ok);
    ReplyHas(reply, p, inShard, w);
    forall e ensures e in Accepted(reply, known, ok) <==> e in reply && e !in r {
      if e in reply {
        KnownIsHeld(p, r, inShard, w, e);
        var i :| 0 <= i < |reply| && reply[i] == e;
        assert Taken(reply, known, ok, i) <==> e !in r;
      }
    }
  }

  /** The entry at place `i` of the primary's log is appended by a full catch-up. */
  ghost predicate ToAppend(p: seq<Entry>, r: seq<Entry>, inShard: Entry -> bool, i: nat)
    requires i < |p|
  {
    Missing(p[i], p, r, inShard) && p[i].receivedAt >= Watermark(r, inShard)
  }

  ghost predicate StandsTwice(p: seq<Entry>, r: seq<Entry>, inShard: Entry -> bool) {
    exists i, j :: 0 <= i < j < |p| && p[i].id == p[j].id && ToAppend(p, r, inShard, i) && ToAppend(p, r, inShard, j)
  }

  /** Each is appended once if and only if none of them stands twice in the primary's log: the IDs appended in the loop
      are not added to the known ones. */
  lemma AppendsOnceIff(r: seq<Entry>, r': seq<Entry>, p: seq<Entry>, inShard: Entry -> bool, reply: seq<Entry>, ok: nat -> bool)
    requires CaughtUp(r, r', p, inShard, reply, ok) && NoFailure(reply, ok) && IdsIdentify(ToSet(p) + ToSet(r))
    ensures DistinctIds(r'[|r|..]) <==> !StandsTwice(p, r, inShard)
  {
    var w := Watermark(r, inShard);
    var known := KnownIds(r, inShard, w);
    AllAccepted(reply, known, ok);
    assert r'[|r|..] == Keep(reply, e => IsNew(e, known));
    PickedApart(p, reply, inShard, w, known);
    forall i | 0 <= i < |p| ensures Picked(p[i], inShard, w, known) <==> ToAppend(p, r, inShard, i) {
      assert p[i] in p;
      if Wanted(p[i], inShard, w) {
        KnownIsHeld(p, r, inShard, w, p[i]);
      }
    }
  }

  predicate Picked(e: Entry, inShard: Entry -> bool, w: int, known: set<string>) {
    Wanted(e, inShard, w) && IsNew(e, known)
  }

  /** The unknown entries of a reply repeat no ID if and only if those of the log do not. */
  lemma PickedApart(p: seq<Entry>, reply: seq<Entry>, inShard: Entry -> bool, w: int, known: set<string>)
    requires IsReply(reply, p, inShard, w)
    ensures DistinctIds(Keep(reply, e => IsNew(e, known))) <==> KeptApart(p, e => Picked(e, inShard, w, known))
  {
    KeepShuffled(reply, Selected(p, inShard, w), e => IsNew(e, known));
    KeepTwice(p, e => Wanted(e, inShard, w), e => IsNew(e, known), e => Picked(e, inShard, w, known));
    SameDistinctIds(Keep(reply, e => IsNew(e, known)), Keep(p, e => Picked(e, inShard, w, known)));
    KeepDistinctIff(p, e => Picked(e, inShard, w, known));
  }

  lemma SameDistinctIds(a: seq<Entry>, b: seq<Entry>)
    requires multiset(a) == multiset(b)
    ensures DistinctIds(a) <==> DistinctIds(b)
  {
    if DistinctIds(a) {
      DistinctShuffle(a, b);
    }
    if DistinctIds(b) {
      DistinctShuffle(b, a);
    }
  }

  /** Without failures, exactly the unknown entries are accepted. */
  lemma {:induction false} AllAccepted(reply: seq<Entry>, known: set<string>, ok: nat -> bool)
    requires NoFailure(reply, ok)
    ensures Accepted(reply, known, ok) == Keep(reply, e => IsNew(e, known))
  {
    if reply != [] {
      AllAccepted(reply[..|reply| - 1], known, ok);
    }
  }

  /** An empty replica takes a sorted shard log over as it is, repeated entries included. */
  lemma TakesAll(p: seq<Entry>, inShard: Entry -> bool, ok: nat -> bool)
    requires (forall e :: e in p ==> inShard(e) && e.receivedAt >= 0) 
      && (forall i, j :: 0 <= i < j < |p| ==> p[i].receivedAt <= p[j].receivedAt) && NoFailure(p, ok)
    ensures CaughtUp([], p, p, inShard, p, ok)
  {
    var w := Watermark([], inShard);
    var none := KnownIds([], inShard, w);
    KeepEverything(p, e => Wanted(e, inShard, w));
    AllAccepted(p, none, ok);
    KeepEverything(p, e => IsNew(e, none));
    assert [] + p == p;
  }

  /** A primary whose log repeats an entry, as a crash in a merge can leave it, gives it to the replica twice. */
  lemma RepeatedEntryAppendedTwice(e: Entry, inShard: Entry -> bool, ok: nat -> bool)
    requires inShard(e) && e.receivedAt >= 0 && ok(0) && ok(1)
    ensures CaughtUp([], [e, e], [e, e], inShard, [e, e], ok)
  {
    TakesAll([e, e], inShard, ok);
  }

  /** The replica then holds the whole shard if and only if there was no gap. */
  lemma CompleteIffNoGap(r: seq<Entry>, r': seq<Entry>, p: seq<Entry>, inShard: Entry -> bool, reply: seq<Entry>, ok: nat -> bool)
    requires CaughtUp(r, r', p, inShard, reply, ok) && NoFailure(reply, ok) && IdsIdentify(ToSet(p) + ToSet(r))
    ensures (forall e :: !Missing(e, p, r', inShard)) <==> NoGap(p, r, inShard)
  {
    AppendsExactly(r, r', p, inShard, reply, ok);
    assert r' == r + r'[|r|..];
    forall e ensures Missing(e, p, r', inShard) <==> Missing(e, p, r, inShard) && e.receivedAt < Watermark(r, inShard) {
      assert e in r' <==> e in r || e in r'[|r|..];
    }
  }

  lemma WatermarkGrows(r: seq<Entry>, a: seq<Entry>, inShard: Entry -> bool)
    ensures Watermark(r, inShard) <= Watermark(r + a, inShard)
  {
    WatermarkReached(r, inShard);
    if e :| e in r && inShard(e) && e.receivedAt == Watermark(r, inShard) {
      assert e in r + a;
    }
  }

  /** An immediate repeat appends nothing, gap or no gap. */
  lemma RepeatAppendsNothing(r: seq<Entry>, r': seq<Entry>, r'': seq<Entry>, p: seq<Entry>, inShard: Entry -> bool,
      reply: seq<Entry>, reply': seq<Entry>, ok: nat -> bool, ok': nat -> bool)
    requires CaughtUp(r, r', p, inShard, reply, ok) && NoFailure(reply, ok) && CaughtUp(r', r'', p, inShard, reply', ok')
    requires IdsIdentify(ToSet(p) + ToSet(r))
    ensures r'' == r'
  {
    AppendsExactly(r, r', p, inShard, reply, ok);
    assert r' == r + r'[|r|..];
    WatermarkGrows(r, r'[|r|..], inShard);
    var w := Watermark(r', inShard);
    var known := KnownIds(r', inShard, w);
    ReplyHas(reply', p, inShard, w);
    AcceptedExactly(reply', known, ok');
    forall i | 0 <= i < |reply'| ensures reply'[i].id in known {
      assert reply'[i] in reply';
      assert reply'[i] in r' && Wanted(reply'[i], inShard, w);
    }
    EmptySet(Accepted(reply', known, ok'));
  }

  // -------------------------------------------------------------- whole runs

  /** The two logs, and the largest retention cutoff on either side so far. */
  datatype Pair = Pair(primary: seq<Entry>, replica: seq<Entry>, since: Option<int>)

  /** Primary writes, live replication of one entry, replica entries of other shards, catch-ups some of whose
      appends may fail, restarts after which the logs hold the same entries but may repeat and order them anew, and
      retention on either side. */
  datatype Event =
    | Write(e: Entry)
    | Deliver(e: Entry)
    | Other(e: Entry)
    | Fetch(reply: seq<Entry>, ok: nat -> bool)
    | Restart(primary: seq<Entry>, replica: seq<Entry>)
    | Expire(cutoff: int, primary: seq<Entry>, replica: seq<Entry>)

  /** The IDs the replica knows when it catches up. */
  function Held(st: Pair, inShard: Entry -> bool): set<string> {
    KnownIds(st.replica, inShard, Watermark(st.replica, inShard))
  }

  function Step(st: Pair, ev: Event, inShard: Entry -> bool): Pair {
    match ev
    case Write(e) => st.(primary := st.primary + [e])
    case Deliver(e) => st.(replica := st.replica + [e])
    case Other(e) => st.(replica := st.replica + [e])
    case Fetch(reply, ok) => st.(replica := st.replica + Accepted(reply, Held(st, inShard), ok))
    case Restart(primary, replica) => Pair(primary, replica, st.since)
    case Expire(cutoff, primary, replica) => Pair(primary, replica, Later(st.since, cutoff))
  }

  /** New IDs, a primary clock that never goes back, and replies the primary can give. */
  ghost predicate Allowed(st: Pair, ev: Event, inShard: Entry -> bool) {
    match ev
    case Write(e) =>
      && e.id !in Ids(st.primary) + Ids(st.replica) && e.receivedAt >= 0
      && forall x :: x in st.primary + st.replica && inShard(x) ==> x.receivedAt <= e.receivedAt
    case Deliver(e) => Missing(e, st.primary, st.replica, inShard)
    case Other(e) => !inShard(e) && e.id !in Ids(st.primary) + Ids(st.replica)
    case Fetch(reply, _) => IsReply(reply, st.primary, inShard, Watermark(st.replica, inShard))
    case Restart(primary, replica) => ToSet(primary) == ToSet(st.primary) && ToSet(replica) == ToSet(st.replica)
    case Expire(cutoff, primary, replica) => Outlives(primary, st.primary, cutoff) && Outlives(replica, st.replica, cutoff)
  }

  /** What a retention pass may leave of a log: a subsequence without some entries older than the cutoff. */
  ghost predicate Outlives(after: seq<Entry>, before: seq<Entry>, cutoff: int) {
    Subsequence(after, before) && forall e :: e in before && e !in after ==> e.timestamp < cutoff
  }

  /** Every append of the entry at place `i`, which may stand in the reply more than once, fails. */
  ghost predicate Skipped(reply: seq<Entry>, ok: nat -> bool, i: nat)
    requires i < |reply|
  {
    forall k :: 0 <= k < |reply| && reply[k] == reply[i] ==> !ok(k)
  }

  /** In a catch-up, an entry is appended though an earlier received one, not older than a cutoff, was skipped. */
  ghost predicate Overtakes(reply: seq<Entry>, known: set<string>, ok: nat -> bool, since: Option<int>, i: nat, j: nat) {
    && i < |reply| && j < |reply| && Recent(reply[i], since) && reply[i].receivedAt < reply[j].receivedAt
    && reply[i].id !in known && Skipped(reply, ok, i) && Taken(reply, known, ok, j)
  }

  /** The replica misses a shard entry that is not older than a cutoff. */
  ghost predicate Lacks(st: Pair, e: Entry, inShard: Entry -> bool) {
    Missing(e, st.primary, st.replica, inShard) && Recent(e, st.since)
  }

  /** No such entry lies below the replica's watermark. */
  ghost predicate Gapless(st: Pair, inShard: Entry -> bool) {
    forall e :: Lacks(st, e, inShard) ==> e.receivedAt >= Watermark(st.replica, inShard)
  }

  /** Neither live replication nor a catch-up overtakes an entry that the replica lacks. */
  ghost predicate InOrder(st: Pair, ev: Event, inShard: Entry -> bool) {
    && (ev.Deliver? ==> forall x :: Lacks(st, x, inShard) ==> x.receivedAt >= ev.e.receivedAt)
    && (ev.Fetch? ==> forall i: nat, j: nat :: !Overtakes(ev.reply, Held(st, inShard), ev.ok, st.since, i, j))
  }

  function Run(st: Pair, evs: seq<Event>, inShard: Entry -> bool): Pair {
    if evs == [] then st else Step(Run(st, evs[..|evs| - 1], inShard), evs[|evs| - 1], inShard)
  }

  ghost predicate AllowedRun(st: Pair, evs: seq<Event>, inShard: Entry -> bool) {
    forall k :: 0 <= k < |evs| ==> Allowed(Run(st, evs[..k], inShard), evs[k], inShard)
  }

  ghost predicate InOrderRun(st: Pair, evs: seq<Event>, inShard: Entry -> bool) {
    forall k :: 0 <= k < |evs| ==> InOrder(Run(st, evs[..k], inShard), evs[k], inShard)
  }

  /** An ID is one record on both, and the replica's shard entries are the primary's unless older than a cutoff. */
  ghost predicate Consistent(st: Pair, inShard: Entry -> bool) {
    && IdsIdentify(ToSet(st.primary) + ToSet(st.replica))
    && forall e :: e in st.replica && inShard(e) && Recent(e, st.since) ==> e in st.primary
  }

  /** A fresh ID keeps IDs identifying. */
  lemma FreshIdentifies(st: Pair, e: Entry)
    requires IdsIdentify(ToSet(st.primary) + ToSet(st.replica)) && e.id !in Ids(st.primary) + Ids(st.replica)
    ensures IdsIdentify(ToSet(st.primary) + ToSet(st.replica) + {e})
    ensures e !in st.primary && e !in st.replica
  {
    forall x | x in ToSet(st.primary) + ToSet(st.replica) ensures x.id != e.id {
      assert x.id in Ids(st.primary) + Ids(st.replica);
    }
  }

  lemma WriteConsistent(st: Pair, ev: Event, inShard: Entry -> bool)
    requires Consistent(st, inShard) && Allowed(st, ev, inShard) && (ev.Write? || ev.Other?)
    ensures Consistent(Step(st, ev, inShard), inShard)
  {
    FreshIdentifies(st, ev.e);
    ToSetConcat(st.primary, [ev.e]);
    ToSetConcat(st.replica, [ev.e]);
    assert ToSet([ev.e]) == {ev.e};
    var t := Step(st, ev, inShard);
    assert ToSet(t.primary) + ToSet(t.replica) == ToSet(st.primary) + ToSet(st.replica) + {ev.e};
  }

  /** Appending missing entries of the primary keeps the pair consistent. */
  lemma GrowConsistent(st: Pair, a: seq<Entry>, inShard: Entry -> bool)
    requires Consistent(st, inShard)
    requires forall e :: e in a ==> Missing(e, st.primary, st.replica, inShard)
    ensures Consistent(st.(replica := st.replica + a), inShard)
  {
    ToSetConcat(st.replica, a);
    assert ToSet(st.primary) + ToSet(st.replica + a) == ToSet(st.primary) + ToSet(st.replica);
  }

  /** A catch-up, with failures or not, appends missing entries at or above the watermark. */
  lemma FetchGrows(st: Pair, ev: Event, inShard: Entry -> bool)
    requires Consistent(st, inShard) && ev.Fetch? && Allowed(st, ev, inShard)
    ensures var a := Accepted(ev.reply, Held(st, inShard), ev.ok);
      && Step(st, ev, inShard) == st.(replica := st.replica + a) && (DistinctIds(st.primary) ==> DistinctIds(a))
      && forall e :: e in a ==> e in ev.reply && Missing(e, st.primary, st.replica, inShard)
    ensures forall i :: 0 <= i < |ev.reply| ==>
      (ev.reply[i].id !in Held(st, inShard) <==> Missing(ev.reply[i], st.primary, st.replica, inShard))
  {
    var w, known := Watermark(st.replica, inShard), Held(st, inShard);
    ReplyHas(ev.reply, st.primary, inShard, w);
    AcceptedExactly(ev.reply, known, ev.ok);
    forall i | 0 <= i < |ev.reply| ensures ev.reply[i].id in known <==> ev.reply[i] in st.replica {
      assert ev.reply[i] in ev.reply;
      KnownIsHeld(st.primary, st.replica, inShard, w, ev.reply[i]);
    }
  }

  lemma StepConsistent(st: Pair, ev: Event, inShard: Entry -> bool)
    requires Consistent(st, inShard) && Allowed(st, ev, inShard)
    ensures Consistent(Step(st, ev, inShard), inShard)
  {
    match ev
    case Write(_) => WriteConsistent(st, ev, inShard);
    case Other(_) => WriteConsistent(st, ev, inShard);
    case Deliver(e) => GrowConsistent(st, [e], inShard);
    case Fetch(reply, ok) =>
      FetchGrows(st, ev, inShard);
      GrowConsistent(st, Accepted(reply, Held(st, inShard), ok), inShard);
    case Restart(primary, replica) =>
      SameMembers(replica, st.replica);
      SameMembers(primary, st.primary);
    case Expire(_, primary, replica) =>
      SubsequenceMembers(replica, st.replica);
      SubsequenceMembers(primary, st.primary);
  }

  /** Neither log repeats an ID. */
  ghost predicate Clean(st: Pair) {
    DistinctIds(st.primary) && DistinctIds(st.replica)
  }

  lemma GrowClean(st: Pair, a: seq<Entry>, inShard: Entry -> bool)
    requires Consistent(st, inShard) && DistinctIds(st.replica) && DistinctIds(a)
    requires forall e :: e in a ==> Missing(e, st.primary, st.replica, inShard)
    ensures DistinctIds(st.replica + a)
  {
    var r := st.replica;
    forall i, j | 0 <= i < |r| && 0 <= j < |a| ensures r[i].id != a[j].id {
      assert r[i] in ToSet(st.primary) + ToSet(r) && a[j] in a;
    }
  }

  lemma StepClean(st: Pair, ev: Event, inShard: Entry -> bool)
    requires Consistent(st, inShard) && Clean(st) && Allowed(st, ev, inShard) && !ev.Restart?
    ensures Clean(Step(st, ev, inShard))
  {
    match ev
    case Write(e) => ExtendDistinct(st.primary, e);
    case Other(e) => ExtendDistinct(st.replica, e);
    case Deliver(e) => GrowClean(st, [e], inShard);
    case Fetch(reply, ok) =>
      FetchGrows(st, ev, inShard);
      GrowClean(st, Accepted(reply, Held(st, inShard), ok), inShard);
    case Expire(_, primary, replica) =>
      SubsequenceDistinct(primary, st.primary);
      SubsequenceDistinct(replica, st.replica);
  }

  /** As long as no restart finds a repeated entry, no log ever holds an entry twice. */
  lemma {:induction false} RunClean(st: Pair, evs: seq<Event>, inShard: Entry -> bool)
    requires Consistent(st, inShard) && Clean(st) && AllowedRun(st, evs, inShard)
    requires forall k :: 0 <= k < |evs| && evs[k].Restart? ==> DistinctIds(evs[k].primary) && DistinctIds(evs[k].replica)
    ensures Clean(Run(st, evs, inShard))
  {
    if evs != [] {
      var n := |evs| - 1;
      AllowedPrefix(st, evs, inShard);
      RunClean(st, evs[..n], inShard);
      RunConsistent(st, evs[..n], inShard);
      if !evs[n].Restart? {
        StepClean(Run(st, evs[..n], inShard), evs[n], inShard);
      }
    }
  }

  /** Whatever happens, the replica holds no shard entry the primary lacks, unless it is older than a retention cutoff. */
  lemma {:induction false} RunConsistent(st: Pair, evs: seq<Event>, inShard: Entry -> bool)
    requires Consistent(st, inShard) && AllowedRun(st, evs, inShard)
    ensures Consistent(Run(st, evs, inShard), inShard)
  {
    if evs != [] {
      var n := |evs| - 1;
      AllowedPrefix(st, evs, inShard);
      RunConsistent(st, evs[..n], inShard);
      StepConsistent(Run(st, evs[..n], inShard), evs[n], inShard);
    }
  }

  lemma AllowedPrefix(st: Pair, evs: seq<Event>, inShard: Entry -> bool)
    requires evs != []
    ensures AllowedRun(st, evs, inShard) ==> AllowedRun(st, evs[..|evs| - 1], inShard)
    ensures InOrderRun(st, evs, inShard) ==> InOrderRun(st, evs[..|evs| - 1], inShard)
  {
    var front := evs[..|evs| - 1];
    forall k | 0 <= k < |front| ensures evs[..k] == front[..k] && evs[k] == front[k] {
    }
  }

  /** The watermark after appending `a`: below `w`, if `a`'s shard entries are. */
  lemma WatermarkExtends(r: seq<Entry>, a: seq<Entry>, inShard: Entry -> bool, w: int)
    requires Watermark(r, inShard) <= w && forall e :: e in a && inShard(e) ==> e.receivedAt <= w
    ensures Watermark(r + a, inShard) <= w
  {
    WatermarkBelow(r + a, inShard, w);
  }

  lemma WriteNoGap(st: Pair, ev: Event, inShard: Entry -> bool)
    requires Allowed(st, ev, inShard) && Gapless(st, inShard) && ev.Write?
    ensures Gapless(Step(st, ev, inShard), inShard)
  {
    WatermarkBelow(st.replica, inShard, ev.e.receivedAt);
    forall x | Lacks(Step(st, ev, inShard), x, inShard) ensures x == ev.e || Lacks(st, x, inShard) {
    }
  }

  /** Appending missing entries no later than any still missing one leaves no gap. */
  lemma GrowNoGap(st: Pair, a: seq<Entry>, inShard: Entry -> bool)
    requires Gapless(st, inShard)
    requires forall e, x :: e in a && inShard(e) && Lacks(st.(replica := st.replica + a), x, inShard) ==> e.receivedAt <= x.receivedAt
    ensures Gapless(st.(replica := st.replica + a), inShard)
  {
    forall x | Lacks(st.(replica := st.replica + a), x, inShard) ensures x.receivedAt >= Watermark(st.replica + a, inShard) {
      assert Lacks(st, x, inShard);
      WatermarkExtends(st.replica, a, inShard, x.receivedAt);
    }
  }

  /** Whatever is still missing after a catch-up is an entry whose append failed, if there was no gap. */
  lemma StillMissing(st: Pair, ev: Event, inShard: Entry -> bool, x: Entry) returns (i: nat)
    requires Consistent(st, inShard) && Allowed(st, ev, inShard) && Gapless(st, inShard) && ev.Fetch?
    requires Lacks(st.(replica := st.replica + Accepted(ev.reply, Held(st, inShard), ev.ok)), x, inShard)
    ensures i < |ev.reply| && ev.reply[i] == x && x.id !in Held(st, inShard) && Skipped(ev.reply, ev.ok, i)
  {
    FetchGrows(st, ev, inShard);
    ReplyHas(ev.reply, st.primary, inShard, Watermark(st.replica, inShard));
    AcceptedExactly(ev.reply, Held(st, inShard), ev.ok);
    assert Lacks(st, x, inShard);
    i :| 0 <= i < |ev.reply| && ev.reply[i] == x;
    forall k | 0 <= k < |ev.reply| && ev.reply[k] == x ensures !ev.ok(k) {
      assert !Taken(ev.reply, Held(st, inShard), ev.ok, k);
    }
  }

  /** From a gap-free pair, a catch-up that overtakes no failed append leaves no gap. */
  lemma FetchNoGap(st: Pair, ev: Event, inShard: Entry -> bool)
    requires Consistent(st, inShard) && Allowed(st, ev, inShard) && Gapless(st, inShard) && ev.Fetch?
    requires InOrder(st, ev, inShard)
    ensures Gapless(Step(st, ev, inShard), inShard)
  {
    var known := Held(st, inShard);
    var a := Accepted(ev.reply, known, ev.ok);
    FetchGrows(st, ev, inShard);
    AcceptedExactly(ev.reply, known, ev.ok);
    forall e, x | e in a && inShard(e) && Lacks(st.(replica := st.replica + a), x, inShard) ensures e.receivedAt <= x.receivedAt {
      var i := StillMissing(st, ev, inShard, x);
      var j: nat :| j < |ev.reply| && ev.reply[j] == e && Taken(ev.reply, known, ev.ok, j);
      assert !Overtakes(ev.reply, known, ev.ok, st.since, i, j);
    }
    GrowNoGap(st, a, inShard);
  }

  /** An entry whose append failed while a later one was appended is passed over: no later catch-up asks for it. */
  lemma SkippedIsPassedOver(st: Pair, ev: Event, inShard: Entry -> bool, i: nat, j: nat)
    requires Consistent(st, inShard) && Allowed(st, ev, inShard) && ev.Fetch?
    requires Overtakes(ev.reply, Held(st, inShard), ev.ok, st.since, i, j)
    ensures PassedOver(Step(st, ev, inShard), ev.reply[i], inShard)
  {
    var known := Held(st, inShard);
    var a, x, e := Accepted(ev.reply, known, ev.ok), ev.reply[i], ev.reply[j];
    FetchGrows(st, ev, inShard);
    AcceptedExactly(ev.reply, known, ev.ok);
    assert Missing(x, st.primary, st.replica, inShard) && Missing(e, st.primary, st.replica, inShard);
    assert forall k :: 0 <= k < |ev.reply| && ev.reply[k] == x ==> !Taken(ev.reply, known, ev.ok, k);
    assert x !in a && e in st.replica + a;
  }

  /** From a gap-free pair, a catch-up leaves no gap if and only if it overtakes no failed append. */
  lemma FetchNoGapIff(st: Pair, ev: Event, inShard: Entry -> bool)
    requires Consistent(st, inShard) && Allowed(st, ev, inShard) && Gapless(st, inShard) && ev.Fetch?
    ensures Gapless(Step(st, ev, inShard), inShard) <==> InOrder(st, ev, inShard)
  {
    if InOrder(st, ev, inShard) {
      FetchNoGap(st, ev, inShard);
    } else {
      var i: nat, j: nat :| Overtakes(ev.reply, Held(st, inShard), ev.ok, st.since, i, j);
      SkippedIsPassedOver(st, ev, inShard, i, j);
      assert Lacks(Step(st, ev, inShard), ev.reply[i], inShard);
    }
  }

  lemma StepNoGap(st: Pair, ev: Event, inShard: Entry -> bool)
    requires Consistent(st, inShard) && Allowed(st, ev, inShard) && InOrder(st, ev, inShard) && Gapless(st, inShard)
    ensures Gapless(Step(st, ev, inShard), inShard)
  {
    match ev
    case Write(_) => WriteNoGap(st, ev, inShard);
    case Fetch(_, _) => FetchNoGap(st, ev, inShard);
    case Deliver(e) =>
      forall x | Lacks(st.(replica := st.replica + [e]), x, inShard) ensures e.receivedAt <= x.receivedAt {
        assert Lacks(st, x, inShard);
      }
      GrowNoGap(st, [e], inShard);
    case Other(e) => GrowNoGap(st, [e], inShard);
    case Restart(primary, replica) => SameGaps(st, primary, replica, inShard);
    case Expire(_, _, _) => ExpireNoGap(st, ev, inShard);
  }

  /** Retention makes no gap: what it makes the replica lack is old, and the watermark does not rise. */
  lemma ExpireNoGap(st: Pair, ev: Event, inShard: Entry -> bool)
    requires Allowed(st, ev, inShard) && Gapless(st, inShard) && ev.Expire?
    ensures Gapless(Step(st, ev, inShard), inShard)
  {
    var t := Step(st, ev, inShard);
    SubsequenceMembers(ev.replica, st.replica);
    SubsequenceMembers(ev.primary, st.primary);
    WatermarkBelow(ev.replica, inShard, Watermark(st.replica, inShard));
    forall e | Lacks(t, e, inShard) ensures e.receivedAt >= Watermark(t.replica, inShard) {
      assert Lacks(st, e, inShard);
    }
  }

  /** Gaps depend on which entries the logs hold, not on order or repeats. */
  lemma SameGaps(st: Pair, primary: seq<Entry>, replica: seq<Entry>, inShard: Entry -> bool)
    requires ToSet(primary) == ToSet(st.primary) && ToSet(replica) == ToSet(st.replica)
    ensures Watermark(replica, inShard) == Watermark(st.replica, inShard)
    ensures forall e :: Missing(e, primary, replica, inShard) <==> Missing(e, st.primary, st.replica, inShard)
  {
    SameMembers(primary, st.primary);
    SameMembers(replica, st.replica);
    WatermarkBelow(replica, inShard, Watermark(st.replica, inShard));
    WatermarkBelow(st.replica, inShard, Watermark(replica, inShard));
  }

  lemma {:induction false} RunNoGap(st: Pair, evs: seq<Event>, inShard: Entry -> bool)
    requires Consistent(st, inShard) && Gapless(st, inShard)
    requires AllowedRun(st, evs, inShard) && InOrderRun(st, evs, inShard)
    ensures Gapless(Run(st, evs, inShard), inShard)
  {
    if evs != [] {
      var n := |evs| - 1;
      AllowedPrefix(st, evs, inShard);
      RunNoGap(st, evs[..n], inShard);
      RunConsistent(st, evs[..n], inShard);
      StepNoGap(Run(st, evs[..n], inShard), evs[n], inShard);
    }
  }

  /** A catch-up without failures from a gap-free pair appends everything that the replica lacks. */
  lemma FetchCompletes(st: Pair, ev: Event, inShard: Entry -> bool, e: Entry)
    requires Consistent(st, inShard) && Allowed(st, ev, inShard) && Gapless(st, inShard) && ev.Fetch? && NoFailure(ev.reply, ev.ok)
    requires inShard(e) && Recent(e, st.since)
    ensures var t := Step(st, ev, inShard); e in t.replica <==> e in t.primary
  {
    var t := Step(st, ev, inShard);
    StepConsistent(st, ev, inShard);
    AppendsExactly(st.replica, t.replica, st.primary, inShard, ev.reply, ev.ok);
    assert t.replica == st.replica + t.replica[|st.replica|..];
    if e in st.primary && e !in st.replica {
      assert Lacks(st, e, inShard);
      assert e in t.replica[|st.replica|..];
    }
  }

  /** Catch-up converges: after any in-order run from a gap-free pair that ends in a full catch-up, the replica's
      shard entries that are not older than a retention cutoff are exactly the primary's, each held once if the logs
      never repeat an entry. */
  lemma Converges(st: Pair, evs: seq<Event>, inShard: Entry -> bool, reply: seq<Entry>, ok: nat -> bool)
    requires Consistent(st, inShard) && Gapless(st, inShard)
    requires AllowedRun(st, evs, inShard) && InOrderRun(st, evs, inShard)
    requires Allowed(Run(st, evs, inShard), Fetch(reply, ok), inShard) && NoFailure(reply, ok)
    ensures var t := Step(Run(st, evs, inShard), Fetch(reply, ok), inShard);
      && (Clean(Run(st, evs, inShard)) ==> DistinctIds(t.replica))
      && forall e :: inShard(e) && Recent(e, t.since) ==> (e in t.replica <==> e in t.primary)
  {
    var m := Run(st, evs, inShard);
    var t := Step(m, Fetch(reply, ok), inShard);
    RunConsistent(st, evs, inShard);
    RunNoGap(st, evs, inShard);
    if Clean(m) {
      StepClean(m, Fetch(reply, ok), inShard);
    }
    forall e | inShard(e) && Recent(e, t.since) ensures e in t.replica <==> e in t.primary {
      FetchCompletes(m, Fetch(reply, ok), inShard, e);
    }
  }

  /** The cutoff of a run is the largest of its retention passes; without one, every entry counts. */
  lemma {:induction false} SinceCutoffs(st: Pair, evs: seq<Event>, inShard: Entry -> bool, e: Entry)
    ensures Recent(e, Run(st, evs, inShard).since) <==>
      Recent(e, st.since) && forall k :: 0 <= k < |evs| && evs[k].Expire? ==> e.timestamp >= evs[k].cutoff
  {
    if evs != [] {
      var n := |evs| - 1;
      SinceCutoffs(st, evs[..n], inShard, e);
      assert forall k :: 0 <= k < n ==> evs[..n][k] == evs[k];
    }
  }

  /** A replica that holds the shard entries of a prefix of the primary's log has no gap, if the primary's
      clock never went back. */
  lemma PrefixHasNoGap(p: seq<Entry>, r: seq<Entry>, inShard: Entry -> bool, k: nat)
    requires k <= |p| && forall e :: inShard(e) ==> (e in r <==> e in p[..k])
    requires forall i, j :: 0 <= i < j < |p| && inShard(p[i]) && inShard(p[j]) ==> p[i].receivedAt <= p[j].receivedAt
    requires forall e :: e in p && inShard(e) ==> e.receivedAt >= 0
    ensures NoGap(p, r, inShard)
  {
    forall x | Missing(x, p, r, inShard) ensures x.receivedAt >= Watermark(r, inShard) {
      var j :| 0 <= j < |p| && p[j] == x;
      assert forall m :: 0 <= m < k ==> p[m] in p[..k];
      forall e | e in r && inShard(e) ensures e.receivedAt <= x.receivedAt {
        assert e in p[..k];
        var i :| 0 <= i < k && p[i] == e;
      }
      WatermarkBelow(r, inShard, x.receivedAt);
    }
  }

  /** A missing entry strictly below the watermark. */
  ghost predicate PassedOver(st: Pair, e: Entry, inShard: Entry -> bool) {
    Missing(e, st.primary, st.replica, inShard) && e.receivedAt < Watermark(st.replica, inShard)
  }

  /** The event does not deliver the entry, drop it from the primary, or drop everything received after it. */
  ghost predicate Spares(ev: Event, e: Entry, inShard: Entry -> bool) {
    ev != Deliver(e) && (ev.Expire? ==> e in ev.primary && e.receivedAt < Watermark(ev.replica, inShard))
  }

  ghost predicate AllSpare(evs: seq<Event>, e: Entry, inShard: Entry -> bool) {
    forall k :: 0 <= k < |evs| ==> Spares(evs[k], e, inShard)
  }

  lemma StepPassesOver(st: Pair, ev: Event, e: Entry, inShard: Entry -> bool)
    requires Consistent(st, inShard) && Allowed(st, ev, inShard) && PassedOver(st, e, inShard) && Spares(ev, e, inShard)
    ensures PassedOver(Step(st, ev, inShard), e, inShard)
  {
    match ev
    case Write(_) =>
    case Deliver(x) => WatermarkGrows(st.replica, [x], inShard);
    case Other(x) => WatermarkGrows(st.replica, [x], inShard);
    case Fetch(reply, ok) =>
      FetchGrows(st, ev, inShard);
      ReplyHas(reply, st.primary, inShard, Watermark(st.replica, inShard));
      assert e !in reply;
      WatermarkGrows(st.replica, Accepted(reply, Held(st, inShard), ok), inShard);
    case Restart(primary, replica) => SameGaps(st, primary, replica, inShard);
    case Expire(_, _, replica) => SubsequenceMembers(replica, st.replica);
  }

  /** An entry passed over stays missing through every run, however many catch-ups it has, unless live
      replication itself delivers it, or retention drops it or everything received after it. */
  lemma {:induction false} GapStays(st: Pair, evs: seq<Event>, e: Entry, inShard: Entry -> bool)
    requires Consistent(st, inShard) && AllowedRun(st, evs, inShard) && PassedOver(st, e, inShard) && AllSpare(evs, e, inShard)
    ensures PassedOver(Run(st, evs, inShard), e, inShard)
  {
    if evs != [] {
      var n := |evs| - 1;
      AllowedPrefix(st, evs, inShard);
      assert Spares(evs[n], e, inShard) && forall k :: 0 <= k < n ==> evs[..n][k] == evs[k];
      GapStays(st, evs[..n], e, inShard);
      RunConsistent(st, evs[..n], inShard);
      StepPassesOver(Run(st, evs[..n], inShard), evs[n], e, inShard);
    }
  }

  /** Such an entry arises when live replication drops an entry and delivers a later one. */
  lemma LossyReplicationPassesOver(inShard: Entry -> bool, a: Entry, b: Entry)
    requires inShard(a) && inShard(b) && a.id != b.id && 0 <= a.receivedAt < b.receivedAt
    ensures var evs := [Write(a), Write(b), Deliver(b)];
      && AllowedRun(Pair([], [], None), evs, inShard)
      && PassedOver(Run(Pair([], [], None), evs, inShard), a, inShard)
  {
    var st, evs := Pair([], [], None), [Write(a), Write(b), Deliver(b)];
    LossyStates(inShard, a, b);
    LossyAllowed(inShard, a, b);
    LossyGap(inShard, a, b);
    assert evs[..3] == evs;
    forall k | 0 <= k < 3 ensures Allowed(Run(st, evs[..k], inShard), evs[k], inShard) {
    }
  }

  lemma LossyGap(inShard: Entry -> bool, a: Entry, b: Entry)
    requires inShard(a) && inShard(b) && a.id != b.id && 0 <= a.receivedAt < b.receivedAt
    ensures PassedOver(Pair([a, b], [b], None), a, inShard)
  {
    assert Watermark([b], inShard) >= b.receivedAt by {
      assert b in [b];
    }
  }

  lemma LossyStates(inShard: Entry -> bool, a: Entry, b: Entry)
    ensures var st, evs := Pair([], [], None), [Write(a), Write(b), Deliver(b)];
      && Run(st, evs[..0], inShard) == st && Run(st, evs[..1], inShard) == Pair([a], [], None)
      && Run(st, evs[..2], inShard) == Pair([a, b], [], None) && Run(st, evs[..3], inShard) == Pair([a, b], [b], None)
  {
    var evs := [Write(a), Write(b), Deliver(b)];
    assert evs[..0] == [] && evs[..1][..0] == evs[..0] && evs[..2][..1] == evs[..1] && evs[..3][..2] == evs[..2];
  }

  lemma LossyAllowed(inShard: Entry -> bool, a: Entry, b: Entry)
    requires inShard(a) && inShard(b) && a.id != b.id && 0 <= a.receivedAt < b.receivedAt
    ensures Allowed(Pair([], [], None), Write(a), inShard) && Allowed(Pair([a], [], None), Write(b), inShard)
    ensures Allowed(Pair([a, b], [], None), Deliver(b), inShard)
  {
    assert Ids([a]) == {a.id};
  }

  lemma FetchIs(st: Pair, reply: seq<Entry>, ok: nat -> bool, r': seq<Entry>, inShard: Entry -> bool)
    requires CaughtUp(st.replica, r', st.primary, inShard, reply, ok)
    ensures Allowed(st, Fetch(reply, ok), inShard) && Step(st, Fetch(reply, ok), inShard) == st.(replica := r')
  {
  }

  lemma BothHold(inShard: Entry -> bool, a: Entry, cutoff: int)
    requires a.timestamp < cutoff
    ensures var st := Pair([a], [a], None);
      && Consistent(st, inShard) && Gapless(st, inShard)
      && Allowed(st, Expire(cutoff, [], [a]), inShard) && Allowed(st, Expire(cutoff, [a], []), inShard)
  {
    SubsequenceSelf([a]);
    assert Subsequence([], [a][..0]);
  }

  /** Retention on the primary alone leaves a replica with an entry that the primary lacks, and no catch-up changes that. */
  lemma RetentionSetsApart(inShard: Entry -> bool, a: Entry, cutoff: int, reply: seq<Entry>, ok: nat -> bool)
    requires inShard(a) && a.timestamp < cutoff
    ensures var st, ev := Pair([a], [a], None), Expire(cutoff, [], [a]);
      && Consistent(st, inShard) && Gapless(st, inShard) && Allowed(st, ev, inShard)
      && var t := Step(Step(st, ev, inShard), Fetch(reply, ok), inShard); a in t.replica && a !in t.primary
  {
    BothHold(inShard, a, cutoff);
  }

  /** Retention on the replica alone can be undone by the next catch-up, which asks from the lower watermark on. */
  lemma ExpiredComesBack(inShard: Entry -> bool, a: Entry, cutoff: int, ok: nat -> bool)
    requires inShard(a) && a.receivedAt >= 0 && a.timestamp < cutoff && ok(0)
    ensures var st, ev := Pair([a], [a], None), Expire(cutoff, [a], []);
      && Consistent(st, inShard) && Gapless(st, inShard) && Allowed(st, ev, inShard)
      && var t := Step(st, ev, inShard); Allowed(t, Fetch([a], ok), inShard) && Step(t, Fetch([a], ok), inShard).replica == [a]
  {
    BothHold(inShard, a, cutoff);
    TakesAll([a], inShard, ok);
    FetchIs(Pair([a], [], Some(cutoff)), [a], ok, [a], inShard);
  }
}
