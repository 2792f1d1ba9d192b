/**
 The block protocol over UDP: the kernel cuts a block into chunks of 1024 bytes, one
 datagram each; the server collects datagrams in any order and puts blocks together
 again. A channel may lose, repeat and reorder datagrams.
 */
module Udp {
  import opened Bytes

  const CHUNK_SIZE: nat := 1024
  const HEADER_SIZE: nat := 14
  const INT_MAX: nat := 0x7FFF_FFFF
  const NEWLINE: byte := 10

  datatype Chunk = Chunk(block: nat, count: nat, id: nat, data: seq<byte>)

  /** What the server knows of a block: its number of chunks and those that arrived. */
  datatype Entry = Entry(count: nat, chunks: map<nat, seq<byte>>)

  /** `Partial` is the exception for a block that is not there in full, `Failed` any other one. */
  datatype Outcome<T> = Ok(value: T) | Partial | Failed

  // ---------------------------------------------------------------- chunks and datagrams

  function Count(data: seq<byte>): nat {
    (|data| + CHUNK_SIZE - 1) / CHUNK_SIZE
  }

  function Until(data: seq<byte>, i: nat): (n: nat)
    ensures n <= |data|
  {
    if CHUNK_SIZE * i > |data| then |data| else CHUNK_SIZE * i
  }

  /** The bytes of chunk `i`. */
  function Slice(data: seq<byte>, i: nat): seq<byte> {
    data[Until(data, i)..Until(data, i + 1)]
  }

  function ChunkOf(block: nat, data: seq<byte>, i: nat): Chunk {
    Chunk(block, Count(data), i, Slice(data, i))
  }

  function Encode(c: Chunk): seq<byte> {
    Le32(c.block) + Le32(c.count) + Le32(c.id) + Le16(|c.data|) + c.data
  }

  predicate Sendable(data: seq<byte>) {
    |data| + CHUNK_SIZE - 1 <= INT_MAX
  }

  lemma Fields(c: Chunk)
    ensures var d := Encode(c); |d| == HEADER_SIZE + |c.data| && d[..4] == Le32(c.block) && d[4..8] == Le32(c.count) && d[8..12] == Le32(c.id) && d[12..14] == Le16(|c.data|) && d[14..] == c.data
  {
  }

  /** The header fields and the payload come out of a datagram as they went in. */
  lemma Decoded(c: Chunk)
    requires c.block < U32 && c.count < U32 && c.id < U32 && |c.data| < U16
    ensures var d := Encode(c); |d| == HEADER_SIZE + |c.data| && FromLe32(d[..4]) == c.block && FromLe32(d[4..8]) == c.count && FromLe32(d[8..12]) == c.id && FromLe16(d[12..14]) == |c.data| && d[14..14 + |c.data|] == c.data
  {
    Fields(c);
    Le32RoundTrip(c.block);
    Le32RoundTrip(c.count);
    Le32RoundTrip(c.id);
    Le16RoundTrip(|c.data|);
  }

  class Sender {
    var blockNumber: nat

    constructor ()
      ensures blockNumber == 0
    {
      blockNumber := 0;
    }

    /** The UDP branch of `itslwip_send`. */
    method Send(data: seq<byte>) returns (out: seq<seq<byte>>)
      requires blockNumber < U32 && Sendable(data)
      modifies this
      ensures blockNumber == (old(blockNumber) + 1) % U32
      ensures |out| == Count(data) && forall i :: 0 <= i < |out| ==> out[i] == Encode(ChunkOf(old(blockNumber), data, i))
    {
      var count := (|data| + CHUNK_SIZE - 1) / CHUNK_SIZE;
      var offset := 0;
      out := [];
      while |out| < count
        invariant |out| <= count && offset == Until(data, |out|) && blockNumber == old(blockNumber)
        invariant forall i :: 0 <= i < |out| ==> out[i] == Encode(ChunkOf(old(blockNumber), data, i))
      {
        var size := if |data| - offset > CHUNK_SIZE then CHUNK_SIZE else |data| - offset;
        var chunk := Chunk(blockNumber, count, |out|, data[offset..offset + size]);
        out := out + [Encode(chunk)];
        offset := offset + size;
      }
      blockNumber := (blockNumber + 1) % U32;
    }
  }

  // ---------------------------------------------------------------- what the server has collected

  datatype Accepted = Accepted(received: map<nat, Entry>, ok: bool)

  function Accept(received: map<nat, Entry>, d: seq<byte>): Accepted {
    if |d| < HEADER_SIZE then Accepted(received, false)
    else
      var block, count, id, length := FromLe32(d[..4]), FromLe32(d[4..8]), FromLe32(d[8..12]), FromLe16(d[12..14]);
      var known := if block in received then received else received[block := Entry(count, map[])];
      Store(known, block, count, id, length, d[14..])
  }

  function Store(known: map<nat, Entry>, block: nat, count: nat, id: nat, length: nat, rest: seq<byte>): Accepted
    requires block in known
  {
    var e := known[block];
    if e.count != count then Accepted(known, false)
    else if id in e.chunks then Accepted(known, true)
    else if |rest| < length then Accepted(known, false)
    else Accepted(known[block := e.(chunks := e.chunks[id := rest[..length]])], true)
  }

  /** One datagram after the other, up to one that is refused. */
  function Drain(received: map<nat, Entry>, ds: seq<seq<byte>>): Accepted
    decreases |ds|
  {
    if ds == [] then Accepted(received, true)
    else
      var a := Accept(received, ds[0]);
      if a.ok then Drain(a.received, ds[1..]) else a
  }

  /** `ids` names the datagrams of `ds`: the chunks of the blocks `sent`, in any order and number. */
  predicate Arrivals(ds: seq<seq<byte>>, ids: seq<(nat, nat)>, sent: seq<seq<byte>>) {
    |ds| == |ids| && forall j {:trigger Named(ds[j], ids[j], sent)} :: 0 <= j < |ds| ==> Named(ds[j], ids[j], sent)
  }

  predicate Named(d: seq<byte>, id: (nat, nat), sent: seq<seq<byte>>) {
    id.0 < |sent| && id.1 < Count(sent[id.0]) && d == Encode(ChunkOf(id.0, sent[id.0], id.1))
  }

  function Ids(ids: seq<(nat, nat)>): set<(nat, nat)> {
    set j | 0 <= j < |ids| :: ids[j]
  }

  predicate Connection(sent: seq<seq<byte>>) {
    |sent| <= U32 && forall k :: 0 <= k < |sent| ==> Sendable(sent[k])
  }

  ghost predicate EntryHolds(e: Entry, data: seq<byte>, k: nat, arrived: set<(nat, nat)>) {
    && e.count == Count(data)
    && (forall i :: i in e.chunks ==> (k, i) in arrived && i < Count(data) && e.chunks[i] == Slice(data, i))
    && (forall i :: (k, i) in arrived ==> i in e.chunks)
  }

  /** The collection is what arrived of the blocks sent; only block `but` may be known without a chunk. */
  ghost predicate HoldsBut(but: int, received: map<nat, Entry>, sent: seq<seq<byte>>, arrived: set<(nat, nat)>) {
    && (forall a :: a in arrived ==> a.0 in received)
    && (forall k :: k in received ==> k < |sent| && EntryHolds(received[k], sent[k], k, arrived) && (k != but ==> received[k].chunks != map[]))
  }

  ghost predicate Holds(received: map<nat, Entry>, sent: seq<seq<byte>>, arrived: set<(nat, nat)>) {
    HoldsBut(-1, received, sent, arrived)
  }

  lemma AcceptHolds(received: map<nat, Entry>, sent: seq<seq<byte>>, arrived: set<(nat, nat)>, d: seq<byte>, id: (nat, nat))
    requires Connection(sent) && Holds(received, sent, arrived) && Named(d, id, sent)
    ensures var a := Accept(received, d); a.ok && Holds(a.received, sent, arrived + {id})
  {
    var (k, i) := id;
    var data := sent[k];
    var c := ChunkOf(k, data, i);
    Decoded(c);
    assert |d[14..]| == |c.data| && d[14..][..|c.data|] == c.data;
    var known := if k in received then received else received[k := Entry(Count(data), map[])];
    assert Accept(received, d) == Store(known, k, Count(data), i, |c.data|, d[14..]);
    StoreHolds(known, sent, arrived, k, i, d[14..]);
  }

  lemma StoreHolds(known: map<nat, Entry>, sent: seq<seq<byte>>, arrived: set<(nat, nat)>, k: nat, i: nat, rest: seq<byte>)
    requires HoldsBut(k, known, sent, arrived) && k in known && i < Count(sent[k]) && rest == Slice(sent[k], i)
    ensures var a := Store(known, k, Count(sent[k]), i, |rest|, rest); a.ok && Holds(a.received, sent, arrived + {(k, i)})
  {
    var e := known[k];
    assert EntryHolds(e, sent[k], k, arrived);
    assert rest[..|rest|] == rest;
    if i in e.chunks {
      assert arrived + {(k, i)} == arrived;
    } else {
      StoreNew(known, sent, arrived, k, i, e.(chunks := e.chunks[i := rest]));
    }
  }

  lemma StoreNew(known: map<nat, Entry>, sent: seq<seq<byte>>, arrived: set<(nat, nat)>, k: nat, i: nat, e: Entry)
    requires HoldsBut(k, known, sent, arrived) && k in known && i < Count(sent[k]) && e == known[k].(chunks := known[k].chunks[i := Slice(sent[k], i)])
    ensures Holds(known[k := e], sent, arrived + {(k, i)})
  {
    var arrived' := arrived + {(k, i)};
    assert EntryHolds(known[k], sent[k], k, arrived);
    EntryGrows(known[k], sent[k], k, arrived, i);
    assert i in e.chunks;
    forall l | l in known && l != k ensures EntryHolds(known[l], sent[l], l, arrived') {
      EntryElsewhere(known[l], sent[l], l, arrived, (k, i));
    }
  }

  lemma EntryGrows(e: Entry, data: seq<byte>, k: nat, arrived: set<(nat, nat)>, i: nat)
    requires EntryHolds(e, data, k, arrived) && i < Count(data)
    ensures EntryHolds(e.(chunks := e.chunks[i := Slice(data, i)]), data, k, arrived + {(k, i)})
  {
  }

  lemma EntryElsewhere(e: Entry, data: seq<byte>, k: nat, arrived: set<(nat, nat)>, id: (nat, nat))
    requires EntryHolds(e, data, k, arrived) && id.0 != k
    ensures EntryHolds(e, data, k, arrived + {id})
  {
  }

  lemma {:induction false} DrainReaches(received: map<nat, Entry>, sent: seq<seq<byte>>, arrived: set<(nat, nat)>, ds: seq<seq<byte>>, ids: seq<(nat, nat)>, all: set<(nat, nat)>)
    requires Connection(sent) && Holds(received, sent, arrived) && Arrivals(ds, ids, sent) && all == arrived + Ids(ids)
    ensures Drain(received, ds).ok && Holds(Drain(received, ds).received, sent, all)
    decreases |ds|
  {
    if ds == [] {
      assert all == arrived;
    } else {
      ArrivalsTail(ds, ids, sent);
      AcceptHolds(received, sent, arrived, ds[0], ids[0]);
      IdsHead(ids);
      DrainStep(received, ds);
      DrainReaches(Accept(received, ds[0]).received, sent, arrived + {ids[0]}, ds[1..], ids[1..], all);
    }
  }

  lemma ArrivalsTail(ds: seq<seq<byte>>, ids: seq<(nat, nat)>, sent: seq<seq<byte>>)
    requires Arrivals(ds, ids, sent) && ds != []
    ensures Named(ds[0], ids[0], sent) && Arrivals(ds[1..], ids[1..], sent)
  {
    assert Named(ds[0], ids[0], sent);
    forall j | 0 <= j < |ds| - 1 ensures Named(ds[1..][j], ids[1..][j], sent) {
      assert Named(ds[j + 1], ids[j + 1], sent);
    }
  }

  lemma DrainStep(received: map<nat, Entry>, ds: seq<seq<byte>>)
    requires ds != [] && Accept(received, ds[0]).ok
    ensures Drain(received, ds) == Drain(Accept(received, ds[0]).received, ds[1..])
  {
  }

  lemma IdsHead(ids: seq<(nat, nat)>)
    requires ids != []
    ensures Ids(ids) == {ids[0]} + Ids(ids[1..])
  {
    forall a | a in Ids(ids) ensures a in {ids[0]} + Ids(ids[1..]) {
      var j :| 0 <= j < |ids| && ids[j] == a;
      assert j > 0 ==> ids[1..][j - 1] == a;
    }
    forall a | a in Ids(ids[1..]) ensures a in Ids(ids) {
      var j :| 0 <= j < |ids[1..]| && ids[1..][j] == a;
      assert ids[j + 1] == a;
    }
  }

  lemma {:induction false} DrainConcat(received: map<nat, Entry>, a: seq<seq<byte>>, b: seq<seq<byte>>)
    requires Drain(received, a).ok
    ensures Drain(received, a + b) == Drain(Drain(received, a).received, b)
    decreases |a|
  {
    if a == [] {
      assert a + b == b;
    } else {
      assert (a + b)[1..] == a[1..] + b;
      DrainConcat(Accept(received, a[0]).received, a[1..], b);
      DrainStep(received, a + b);
    }
  }

  /** The collection of a server that has seen the datagrams `h`. */
  function State(h: seq<seq<byte>>): map<nat, Entry> {
    Drain(map[], h).received
  }

  /** Whatever of the blocks arrives, however often and in whatever order, no datagram is refused and nothing else is kept. */
  lemma StateHolds(h: seq<seq<byte>>, ids: seq<(nat, nat)>, sent: seq<seq<byte>>)
    requires Connection(sent) && Arrivals(h, ids, sent)
    ensures Drain(map[], h).ok && Holds(State(h), sent, Ids(ids))
  {
    DrainReaches(map[], sent, {}, h, ids, Ids(ids));
  }

  lemma ArrivalsConcat(ds: seq<seq<byte>>, ids: seq<(nat, nat)>, ds': seq<seq<byte>>, ids': seq<(nat, nat)>, sent: seq<seq<byte>>)
    requires Arrivals(ds, ids, sent) && Arrivals(ds', ids', sent)
    ensures Arrivals(ds + ds', ids + ids', sent)
  {
    forall j | 0 <= j < |ds + ds'| ensures Named((ds + ds')[j], (ids + ids')[j], sent) {
      if j < |ds| {
        assert Named(ds[j], ids[j], sent);
      } else {
        assert Named(ds'[j - |ds|], ids'[j - |ds|], sent);
      }
    }
  }

  /** The datagrams of a connection are the chunks of its blocks, with the ids of the blocks counted from 0. */
  method SendAll(sent: seq<seq<byte>>) returns (ds: seq<seq<seq<byte>>>)
    requires Connection(sent)
    ensures |ds| == |sent|
    ensures forall k :: 0 <= k < |ds| ==> |ds[k]| == Count(sent[k]) && forall i :: 0 <= i < |ds[k]| ==> Named(ds[k][i], (k, i), sent)
  {
    var sender := new Sender();
    ds := [];
    while |ds| < |sent|
      invariant |ds| <= |sent| && sender.blockNumber == |ds| % U32
      invariant forall k :: 0 <= k < |ds| ==> |ds[k]| == Count(sent[k]) && forall i :: 0 <= i < |ds[k]| ==> Named(ds[k][i], (k, i), sent)
      modifies sender
    {
      var d := sender.Send(sent[|ds|]);
      ds := ds + [d];
    }
  }

  // ---------------------------------------------------------------- taking a block out

  function Fetch(received: map<nat, Entry>, next: nat): Outcome<Entry> {
    if next !in received || |received[next].chunks| != received[next].count then Partial else Ok(received[next])
  }

  predicate Gapless(e: Entry) {
    forall i :: 0 <= i < e.count ==> i in e.chunks
  }

  /** The first `n` chunks one after the other. */
  function Assemble(e: Entry, n: nat): seq<byte> {
    if n == 0 then [] else Assemble(e, n - 1) + if n - 1 in e.chunks then e.chunks[n - 1] else []
  }

  ghost predicate Complete(sent: seq<seq<byte>>, k: nat, arrived: set<(nat, nat)>)
    requires k < |sent|
  {
    forall i :: 0 <= i < Count(sent[k]) ==> (k, i) in arrived
  }

  function Range(n: nat): (r: set<nat>)
    ensures |r| == n && forall i: nat :: i in r <==> i < n
  {
    if n == 0 then {} else Range(n - 1) + {n - 1}
  }

  /** `n` different numbers below `n` are all of them. */
  lemma Pigeons(s: set<nat>, n: nat)
    requires forall i :: i in s ==> i < n
    ensures |s| == n <==> forall i: nat :: i < n ==> i in s
  {
    var r := Range(n);
    assert s <= r;
    assert |r - s| == |r| - |s|;
    if |s| == n {
      assert r - s == {};
      forall i: nat | i < n ensures i in s {
        assert i in r;
      }
    } else {
      var i :| i in r - s;
      assert i < n && i !in s;
    }
  }

  lemma Extend(data: seq<byte>, n: nat)
    ensures data[..Until(data, n)] + Slice(data, n) == data[..Until(data, n + 1)]
  {
  }

  lemma {:induction false} AssembleIs(e: Entry, data: seq<byte>, n: nat)
    requires Gapless(e) && e.count == Count(data) && n <= e.count && forall i :: 0 <= i < e.count ==> e.chunks[i] == Slice(data, i)
    ensures Assemble(e, n) == data[..Until(data, n)]
    decreases n
  {
    if n > 0 {
      AssembleIs(e, data, n - 1);
      Extend(data, n - 1);
    }
  }

  lemma FetchKnown(e: Entry, sent: seq<seq<byte>>, k: nat, arrived: set<(nat, nat)>)
    requires k < |sent| && EntryHolds(e, sent[k], k, arrived) && e.chunks != map[]
    ensures sent[k] != [] && (|e.chunks| == e.count <==> Complete(sent, k, arrived))
    ensures Complete(sent, k, arrived) ==> Gapless(e) && Assemble(e, e.count) == sent[k]
  {
    Pigeons(e.chunks.Keys, e.count);
    var i :| i in e.chunks;
    if Complete(sent, k, arrived) {
      assert Gapless(e);
      AssembleIs(e, sent[k], e.count);
      assert sent[k][..Until(sent[k], e.count)] == sent[k];
    }
  }

  /** A block comes out exactly if it is not empty and all of its chunks arrived, and it comes out as it was sent. */
  lemma FetchExact(received: map<nat, Entry>, sent: seq<seq<byte>>, arrived: set<(nat, nat)>, k: nat)
    requires Holds(received, sent, arrived) && k < |sent|
    ensures var r := Fetch(received, k); if sent[k] != [] && Complete(sent, k, arrived) then r.Ok? && Gapless(r.value) && Assemble(r.value, r.value.count) == sent[k] else r.Partial?
  {
    if k in received {
      FetchKnown(received[k], sent, k, arrived);
    } else if sent[k] != [] {
      assert (k, 0) !in arrived;
    }
  }
}
