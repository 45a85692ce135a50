/** Length-prefixed records: a 4-byte big-endian length, then that many bytes.

Writing allows any length below 2^32; reading refuses more than 64 MiB. Segment files and
segment transfers are sequences of such records.
*/
module Records {
  import opened Ordering
  import opened Entries

  type byte = x: int | 0 <= x < 256
  type Bytes = seq<byte>

  const MAX_UINT32: nat := 0xffff_ffff
  const MAX_RECORD: nat := 64 * 1024 * 1024

  function BigEndian(n: nat): (b: Bytes)
    requires n <= MAX_UINT32
    ensures |b| == 4
  {
    [n / 256 / 256 / 256, n / 256 / 256 % 256, n / 256 % 256, n % 256]
  }

  function FromBigEndian(b: Bytes): nat
    requires |b| == 4
  {
    ((b[0] as int * 256 + b[1]) * 256 + b[2]) * 256 + b[3]
  }

  lemma BigEndianReads(n: nat)
    requires n <= MAX_UINT32
    ensures FromBigEndian(BigEndian(n)) == n
    ensures var b := BigEndian(n); n == b[0] as int * 16_777_216 + b[1] as int * 65_536 + b[2] as int * 256 + b[3]
  {
    var m := n / 256;
    var k := m / 256;
    assert n == m * 256 + n % 256 && m == k * 256 + m % 256 && k == k / 256 * 256 + k % 256;
  }

  lemma BigEndianWrites(b: Bytes)
    requires |b| == 4
    ensures FromBigEndian(b) <= MAX_UINT32 && BigEndian(FromBigEndian(b)) == b
  {
    var n := FromBigEndian(b);
    var high := b[0] as int * 256 + b[1];
    assert n == (high * 256 + b[2]) * 256 + b[3];
    assert n / 256 == high * 256 + b[2] && n % 256 == b[3];
    assert n / 256 / 256 == high && n / 256 % 256 == b[2];
    assert high / 256 == b[0] && high % 256 == b[1];
  }

  function Frame(p: Bytes): Bytes
    requires |p| <= MAX_UINT32
  {
    BigEndian(|p|) + p
  }

  ghost predicate Writable(ps: seq<Bytes>) {
    forall i :: 0 <= i < |ps| ==> |ps[i]| <= MAX_UINT32
  }

  ghost predicate Readable(ps: seq<Bytes>) {
    forall i :: 0 <= i < |ps| ==> |ps[i]| <= MAX_RECORD
  }

  function Encoded(ps: seq<Bytes>): Bytes
    requires Writable(ps)
  {
    if ps == [] then [] else Frame(ps[0]) + Encoded(ps[1..])
  }

  datatype ReadResult =
    | Record(payload: Bytes, size: nat)
    | EndOfFile
    | TruncatedLength
    | TooLong(length: nat)
    | TruncatedData(length: nat)

  /** ReadRecord on the rest of a stream: a clean end only where no byte is left. */
  function FirstRecord(s: Bytes): (r: ReadResult)
    ensures r.Record? ==> 4 <= r.size <= |s|
  {
    if |s| == 0 then EndOfFile
    else if |s| < 4 then TruncatedLength
    else
      var n := FromBigEndian(s[..4]);
      if n > MAX_RECORD then TooLong(n)
      else if |s| < 4 + n then TruncatedData(n)
      else Record(s[4..4 + n], 4 + n)
  }

  /** ReadSegment: every record up to a clean end of file, or nothing. */
  function Decoded(s: Bytes): Option<seq<Bytes>>
    decreases |s|
  {
    match FirstRecord(s)
    case EndOfFile => Some([])
    case Record(p, size) =>
      (match Decoded(s[size..])
       case Some(ps) => Some([p] + ps)
       case None => None)
    case _ => None
  }

  // ------------------------------------------------------------- round trips

  lemma FrameReads(p: Bytes, rest: Bytes)
    requires |p| <= MAX_UINT32
    ensures |p| <= 67_108_864 ==> FirstRecord(Frame(p) + rest) == Record(p, |Frame(p)|)
    ensures |p| > 67_108_864 ==> FirstRecord(Frame(p) + rest) == TooLong(|p|)
    ensures (Frame(p) + rest)[|Frame(p)|..] == rest
  {
    var s := Frame(p) + rest;
    assert s[..4] == BigEndian(|p|);
    BigEndianReads(|p|);
    assert s[4..4 + |p|] == p;
  }

  /** Decoding gives the payloads back exactly when none of them exceeds 64 MiB. */
  lemma {:induction false} DecodesIff(ps: seq<Bytes>)
    requires Writable(ps)
    ensures Decoded(Encoded(ps)) == Some(ps) <==> Readable(ps)
    ensures Decoded(Encoded(ps)).Some? <==> Readable(ps)
  {
    if ps != [] {
      var p, rest := ps[0], ps[1..];
      FrameReads(p, Encoded(rest));
      DecodesIff(rest);
      assert ps == [p] + rest;
      assert Readable(ps) <==> |p| <= MAX_RECORD && Readable(rest) by {
        assert forall i :: 0 <= i < |rest| ==> rest[i] == ps[i + 1];
        assert forall i :: 1 <= i < |ps| ==> ps[i] == rest[i - 1];
      }
    }
  }

  /** Whatever decodes is the encoding of what it decodes to: no two files read the same. */
  lemma {:induction false} AcceptedReencodes(s: Bytes)
    requires Decoded(s).Some?
    ensures Readable(Decoded(s).value) && Writable(Decoded(s).value) && Encoded(Decoded(s).value) == s
    decreases |s|
  {
    if s != [] {
      var r := FirstRecord(s);
      AcceptedReencodes(s[r.size..]);
      FirstIsFrame(s);
      EncodedCons(r.payload, Decoded(s[r.size..]).value);
    }
  }

  lemma FirstIsFrame(s: Bytes)
    requires FirstRecord(s).Record?
    ensures var r := FirstRecord(s); |r.payload| <= MAX_RECORD && Frame(r.payload) + s[r.size..] == s
  {
    BigEndianWrites(s[..4]);
  }

  lemma EncodedCons(p: Bytes, ps: seq<Bytes>)
    requires |p| <= MAX_RECORD && Readable(ps) && Writable(ps)
    ensures Readable([p] + ps) && Writable([p] + ps) && Encoded([p] + ps) == Frame(p) + Encoded(ps)
  {
    assert ([p] + ps)[1..] == ps;
  }

  // -------------------------------------------------------------- truncation

  ghost predicate Boundary(ps: seq<Bytes>, k: nat)
    requires Writable(ps)
  {
    exists j :: 0 <= j <= |ps| && k == |Encoded(ps[..j])|
  }

  lemma TornFrame(p: Bytes, rest: Bytes, k: nat)
    requires |p| <= MAX_RECORD && 0 < k < |Frame(p)|
    ensures FirstRecord((Frame(p) + rest)[..k]) != EndOfFile && !FirstRecord((Frame(p) + rest)[..k]).Record?
  {
    var s := (Frame(p) + rest)[..k];
    if k >= 4 {
      assert s[..4] == BigEndian(|p|);
      BigEndianReads(|p|);
    }
  }

  lemma EncodedTake(ps: seq<Bytes>, j: nat)
    requires Writable(ps) && 0 < j <= |ps|
    ensures |Encoded(ps[..j])| == |Frame(ps[0])| + |Encoded(ps[1..][..j - 1])|
  {
    assert ps[..j][0] == ps[0] && ps[..j][1..] == ps[1..][..j - 1];
  }

  lemma BoundaryStep(ps: seq<Bytes>, k: nat)
    requires Writable(ps) && ps != []
    ensures Boundary(ps, k) <==> k == 0 || (k >= |Frame(ps[0])| && Boundary(ps[1..], k - |Frame(ps[0])|))
  {
    assert ps[..0] == [] && Encoded(ps[..0]) == [];
    if Boundary(ps, k) && k > 0 {
      var j :| 0 <= j <= |ps| && k == |Encoded(ps[..j])|;
      EncodedTake(ps, j);
    }
    if k >= |Frame(ps[0])| && Boundary(ps[1..], k - |Frame(ps[0])|) {
      var j :| 0 <= j <= |ps[1..]| && k - |Frame(ps[0])| == |Encoded(ps[1..][..j])|;
      EncodedTake(ps, j + 1);
    }
  }

  /** A cut file reads without error exactly when it was cut at a record boundary. */
  lemma {:induction false} TruncationDetected(ps: seq<Bytes>, k: nat)
    requires Writable(ps) && Readable(ps) && k <= |Encoded(ps)|
    ensures Decoded(Encoded(ps)[..k]).Some? <==> Boundary(ps, k)
  {
    var s := Encoded(ps)[..k];
    if ps == [] {
      assert ps[..0] == ps && Boundary(ps, 0);
    } else {
      var p, rest := ps[0], ps[1..];
      BoundaryStep(ps, k);
      if 0 < k < |Frame(p)| {
        TornFrame(p, Encoded(rest), k);
      } else if k > 0 {
        var cut := Encoded(rest)[..k - |Frame(p)|];
        assert s == Frame(p) + cut;
        FrameReads(p, cut);
        TruncationDetected(rest, k - |Frame(p)|);
      }
    }
  }

  lemma {:induction false} EncodedSplits(ps: seq<Bytes>, j: nat)
    requires Writable(ps) && j <= |ps|
    ensures Encoded(ps) == Encoded(ps[..j]) + Encoded(ps[j..])
  {
    if j == 0 {
      assert ps[..0] == [] && ps[0..] == ps;
    } else {
      var a, b := ps[1..][..j - 1], ps[j..];
      EncodedSplits(ps[1..], j - 1);
      assert ps[1..][j - 1..] == b;
      assert ps[..j][0] == ps[0] && ps[..j][1..] == a;
      assert Frame(ps[0]) + (Encoded(a) + Encoded(b)) == Frame(ps[0]) + Encoded(a) + Encoded(b);
    }
  }

  /** A file cut after record j yields the first j payloads. */
  lemma CutYieldsPrefix(ps: seq<Bytes>, j: nat)
    requires Writable(ps) && Readable(ps) && j <= |ps|
    ensures |Encoded(ps[..j])| <= |Encoded(ps)|
    ensures Decoded(Encoded(ps)[..|Encoded(ps[..j])|]) == Some(ps[..j])
  {
    EncodedSplits(ps, j);
    assert Encoded(ps)[..|Encoded(ps[..j])|] == Encoded(ps[..j]);
    DecodesIff(ps[..j]);
  }

  // -------------------------------------------------------------- as it runs

  class Buffer {
    var bytes: Bytes

    constructor ()
      ensures bytes == []
    {
      bytes := [];
    }

    /** WriteRecord: length first, then the data; a payload of 2^32 bytes or more is refused. */
    method WriteRecord(data: Bytes) returns (ok: bool)
      modifies this
      ensures ok <==> |data| <= MAX_UINT32
      ensures bytes == old(bytes) + if |data| <= MAX_UINT32 then Frame(data) else []
    {
      if |data| > MAX_UINT32 {
        return false;
      }
      bytes := bytes + BigEndian(|data|);
      bytes := bytes + data;
      ok := true;
    }
  }

  /** The entries of the records; one that does not unmarshal fails the whole. */
  function Unmarshaled(ps: seq<Bytes>, unmarshal: Bytes -> Option<Entry>): Option<seq<Entry>> {
    if ps == [] then Some([])
    else
      match unmarshal(ps[0])
      case None => None
      case Some(e) => Prepended([e], Unmarshaled(ps[1..], unmarshal))
  }

  /** The entries of a segment file. */
  function SegmentEntries(file: Bytes, unmarshal: Bytes -> Option<Entry>): Option<seq<Entry>> {
    match Decoded(file) case None => None case Some(ps) => Unmarshaled(ps, unmarshal)
  }

  function Prepended(es: seq<Entry>, r: Option<seq<Entry>>): Option<seq<Entry>> {
    if r.Some? then Some(es + r.value) else None
  }

  lemma PrependedNothing(r: Option<seq<Entry>>)
    ensures Prepended([], r) == r
  {
    if r.Some? {
      assert [] + r.value == r.value;
    }
  }

  lemma PrependedStep(es: seq<Entry>, e: Entry, r: Option<seq<Entry>>)
    ensures Prepended(es, Prepended([e], r)) == Prepended(es + [e], r)
  {
    if r.Some? {
      Associate(es, [e], r.value);
    }
  }

  /** ReadSegment: read and unmarshal records until the end of the file. */
  method ReadSegment(file: Bytes, unmarshal: Bytes -> Option<Entry>) returns (r: Option<seq<Entry>>)
    ensures r == SegmentEntries(file, unmarshal)
  {
    var rest, es: seq<Entry> := file, [];
    PrependedNothing(SegmentEntries(file, unmarshal));
    while true
      invariant SegmentEntries(file, unmarshal) == Prepended(es, SegmentEntries(rest, unmarshal))
      decreases |rest|
    {
      var next := FirstRecord(rest);
      ReadStep(es, rest, unmarshal);
      if next.EndOfFile? {
        return Some(es);
      }
      if !next.Record? {
        return None;
      }
      var e := unmarshal(next.payload);
      if e.None? {
        return None;
      }
      es := es + [e.value];
      rest := rest[next.size..];
    }
  }

  lemma FirstEntry(s: Bytes, unmarshal: Bytes -> Option<Entry>)
    requires FirstRecord(s).Record?
    ensures var next := FirstRecord(s); var e := unmarshal(next.payload);
      SegmentEntries(s, unmarshal) == if e.None? then None else Prepended([e.value], SegmentEntries(s[next.size..], unmarshal))
  {
    var next := FirstRecord(s);
    var rest := Decoded(s[next.size..]);
    if rest.Some? {
      var ps := [next.payload] + rest.value;
      assert Decoded(s) == Some(ps) && ps[1..] == rest.value;
    }
  }

  /** One round of the loop, with `es` read so far and `s` still to read. */
  lemma ReadStep(es: seq<Entry>, s: Bytes, unmarshal: Bytes -> Option<Entry>)
    ensures var next := FirstRecord(s);
      Prepended(es, SegmentEntries(s, unmarshal)) ==
        if next.EndOfFile? then Some(es)
        else if !next.Record? then None
        else
          var e := unmarshal(next.payload);
          if e.None? then None else Prepended(es + [e.value], SegmentEntries(s[next.size..], unmarshal))
  {
    var next := FirstRecord(s);
    if next.EndOfFile? {
      AppendNone(es);
    } else if next.Record? {
      FirstEntry(s, unmarshal);
      var e := unmarshal(next.payload);
      if e.Some? {
        PrependedStep(es, e.value, SegmentEntries(s[next.size..], unmarshal));
      }
    }
  }

  // --------------------------------------------------------- segment transfer

  const CHUNK_SIZE: nat := 64 * 1024

  function Joined(chunks: seq<Bytes>): Bytes {
    if chunks == [] then [] else Joined(chunks[..|chunks| - 1]) + chunks[|chunks| - 1]
  }

  /** The stream loop: cut the payload into chunks of 64 KiB, the last one maybe shorter. */
  method SendChunks(payload: Bytes) returns (chunks: seq<Bytes>)
    ensures Joined(chunks) == payload
    ensures forall i :: 0 <= i < |chunks| ==> 0 < |chunks[i]| <= 65_536 && (i + 1 < |chunks| ==> |chunks[i]| == 65_536)
  {
    chunks := [];
    var rest := payload;
    while |rest| > 0
      invariant Joined(chunks) + rest == payload
      invariant forall i :: 0 <= i < |chunks| ==>
        0 < |chunks[i]| <= CHUNK_SIZE && (i + 1 < |chunks| || rest != [] ==> |chunks[i]| == CHUNK_SIZE)
      decreases |rest|
    {
      var n := CHUNK_SIZE;
      if n > |rest| {
        n := |rest|;
      }
      ghost var sent := chunks;
      chunks := chunks + [rest[..n]];
      assert chunks[..|sent|] == sent;
      assert Joined(sent) + rest == Joined(sent) + rest[..n] + rest[n..];
      rest := rest[n..];
    }
  }

  function Marshaled(es: seq<Entry>, marshal: Entry -> Bytes): (ps: seq<Bytes>)
    ensures |ps| == |es| && forall i :: 0 <= i < |es| ==> ps[i] == marshal(es[i])
  {
    seq(|es|, i requires 0 <= i < |es| => marshal(es[i]))
  }

  lemma {:induction false} EncodedConcat(a: seq<Bytes>, b: seq<Bytes>)
    requires Writable(a + b)
    ensures Writable(a) && Writable(b) && Encoded(a + b) == Encoded(a) + Encoded(b)
  {
    assert forall i :: 0 <= i < |a| ==> (a + b)[i] == a[i];
    assert forall i :: 0 <= i < |b| ==> (a + b)[|a| + i] == b[i];
    EncodedSplits(a + b, |a|);
    assert (a + b)[..|a|] == a && (a + b)[|a|..] == b;
  }

  /** Entries written to a segment file are read back exactly when no record exceeds 64 MiB. */
  lemma EntriesReadIff(es: seq<Entry>, marshal: Entry -> Bytes, unmarshal: Bytes -> Option<Entry>)
    requires Writable(Marshaled(es, marshal)) && forall e :: e in es ==> unmarshal(marshal(e)) == Some(e)
    ensures SegmentEntries(Encoded(Marshaled(es, marshal)), unmarshal) == Some(es) <==> Readable(Marshaled(es, marshal))
    ensures SegmentEntries(Encoded(Marshaled(es, marshal)), unmarshal).Some? <==> Readable(Marshaled(es, marshal))
  {
    DecodesIff(Marshaled(es, marshal));
    UnmarshalsBack(es, marshal, unmarshal);
  }

  lemma {:induction false} UnmarshalsBack(es: seq<Entry>, marshal: Entry -> Bytes, unmarshal: Bytes -> Option<Entry>)
    requires forall e :: e in es ==> unmarshal(marshal(e)) == Some(e)
    ensures Unmarshaled(Marshaled(es, marshal), unmarshal) == Some(es)
  {
    if es != [] {
      assert forall e :: e in es[1..] ==> e in es;
      UnmarshalsBack(es[1..], marshal, unmarshal);
      assert Marshaled(es, marshal)[1..] == Marshaled(es[1..], marshal);
      assert es == [es[0]] + es[1..];
    }
  }

  datatype Transfer = Sent(chunks: seq<Bytes>) | NoEntries | WriteFailed

  /** The shard's entries in the segment, in order. */
  function OfShard(es: seq<Entry>, inShard: Entry -> bool): seq<Entry> {
    Keep(es, inShard)
  }

  /** TransferSegment: filter by shard, frame into a buffer, stream in chunks; a record of 4 GiB or more and an
      empty result are errors. */
  method TransferSegment(entries: seq<Entry>, inShard: Entry -> bool, marshal: Entry -> Bytes) returns (r: Transfer)
    ensures r.WriteFailed? <==> !Writable(Marshaled(OfShard(entries, inShard), marshal))
    ensures r.NoEntries? <==> OfShard(entries, inShard) == []
    ensures r.Sent? ==> Joined(r.chunks) == Encoded(Marshaled(OfShard(entries, inShard), marshal))
    ensures r.Sent? ==> forall i :: 0 <= i < |r.chunks| ==>
      0 < |r.chunks[i]| <= 65_536 && (i + 1 < |r.chunks| ==> |r.chunks[i]| == 65_536)
  {
    var buf := new Buffer();
    ghost var kept: seq<Entry> := [];
    for i := 0 to |entries|
      invariant kept == OfShard(entries[..i], inShard)
      invariant Writable(Marshaled(kept, marshal)) && buf.bytes == Encoded(Marshaled(kept, marshal))
    {
      KeepNext(entries, i, inShard);
      if !inShard(entries[i]) {
        continue;
      }
      var data := marshal(entries[i]);
      var ok := buf.WriteRecord(data);
      if !ok {
        TooLongToWrite(entries, i, inShard, marshal);
        return WriteFailed;
      }
      MarshaledNext(kept, entries[i], marshal);
      kept := kept + [entries[i]];
    }
    assert entries[..|entries|] == entries;
    EncodedNothing(Marshaled(kept, marshal));
    if |buf.bytes| == 0 {
      return NoEntries;
    }
    var sent := SendChunks(buf.bytes);
    r := Sent(sent);
  }

  lemma MarshaledNext(kept: seq<Entry>, e: Entry, marshal: Entry -> Bytes)
    requires Writable(Marshaled(kept, marshal)) && |marshal(e)| <= MAX_UINT32
    ensures Writable(Marshaled(kept + [e], marshal))
    ensures Encoded(Marshaled(kept + [e], marshal)) == Encoded(Marshaled(kept, marshal)) + Frame(marshal(e))
  {
    var a, b := Marshaled(kept, marshal), [marshal(e)];
    assert Marshaled(kept + [e], marshal) == a + b;
    EncodedConcat(a, b);
    assert b[1..] == [] && Encoded(b) == Frame(b[0]) + [];
  }

  lemma EncodedNothing(ps: seq<Bytes>)
    requires Writable(ps)
    ensures Encoded(ps) == [] <==> ps == []
  {
  }

  lemma TooLongToWrite(entries: seq<Entry>, i: nat, inShard: Entry -> bool, marshal: Entry -> Bytes)
    requires i < |entries| && inShard(entries[i]) && |marshal(entries[i])| > MAX_UINT32
    ensures !Writable(Marshaled(OfShard(entries, inShard), marshal)) && OfShard(entries, inShard) != []
  {
    var es := OfShard(entries, inShard);
    KeepMembers(entries, inShard);
    assert entries[i] in entries;
    var k :| 0 <= k < |es| && es[k] == entries[i];
    assert Marshaled(es, marshal)[k] == marshal(entries[i]);
  }

  /** The receiver reads exactly the shard's entries in order, if and only if none is over 64 MiB. */
  lemma TransferDelivers(entries: seq<Entry>, inShard: Entry -> bool, marshal: Entry -> Bytes, unmarshal: Bytes -> Option<Entry>,
      chunks: seq<Bytes>)
    requires Writable(Marshaled(OfShard(entries, inShard), marshal))
    requires Joined(chunks) == Encoded(Marshaled(OfShard(entries, inShard), marshal))
    requires forall e :: e in entries ==> unmarshal(marshal(e)) == Some(e)
    ensures SegmentEntries(Joined(chunks), unmarshal) == Some(OfShard(entries, inShard)) <==>
      forall e :: e in OfShard(entries, inShard) ==> |marshal(e)| <= MAX_RECORD
  {
    var es := OfShard(entries, inShard);
    KeepMembers(entries, inShard);
    EntriesReadIff(es, marshal, unmarshal);
    if Readable(Marshaled(es, marshal)) {
      forall e | e in es ensures |marshal(e)| <= MAX_RECORD {
        var i :| 0 <= i < |es| && es[i] == e;
        assert Marshaled(es, marshal)[i] == marshal(e);
      }
    }
  }
}
