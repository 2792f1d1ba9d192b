/**
 The receiving server: blocks are taken out in the order of their ids, and the
 `sendout` command takes three of them, a file name, a file size and the file.
 */
module UdpServer {
  import opened Bytes
  import opened Udp

  /** A line is what is left of a block without its line breaks. */
  function Line(s: seq<byte>): seq<byte> {
    if s == [] then [] else Line(s[..|s| - 1]) + if s[|s| - 1] == NEWLINE then [] else [s[|s| - 1]]
  }

  lemma {:induction false} LineConcat(a: seq<byte>, b: seq<byte>)
    ensures Line(a + b) == Line(a) + Line(b)
    decreases |b|
  {
    if b == [] {
      assert a + b == a;
    } else {
      var c, x := b[..|b| - 1], b[|b| - 1];
      LineConcat(a, c);
      LineLast(c, x);
      LineLast(a + c, x);
      assert b == c + [x] && a + b == a + c + [x];
    }
  }

  lemma LineLast(s: seq<byte>, x: byte)
    ensures Line(s + [x]) == Line(s) + if x == NEWLINE then [] else [x]
  {
    assert (s + [x])[..|s|] == s;
  }

  /** The block `next` once the datagrams `window` have come in. */
  function Take(received: map<nat, Entry>, window: seq<seq<byte>>, next: nat): Outcome<seq<byte>> {
    var a := Drain(received, window);
    if !a.ok then Failed
    else
      match Fetch(a.received, next)
      case Ok(e) => if Gapless(e) then Ok(Assemble(e, e.count)) else Failed
      case Partial => Partial
      case Failed => Failed
  }

  function After(received: map<nat, Entry>, window: seq<seq<byte>>): map<nat, Entry> {
    Drain(received, window).received
  }

  /** Block ids are 32-bit. */
  function Plus(id: nat, n: nat): (r: nat)
    requires id < U32 && n <= U32
    ensures r < U32
  {
    if id + n < U32 then id + n else id + n - U32
  }

  function Next(id: nat): nat
    requires id < U32
  {
    Plus(id, 1)
  }

  /** The chunks of a block one after the other; it is false if one is missing. */
  method Gather(e: Entry) returns (ok: bool, data: seq<byte>)
    ensures ok == Gapless(e) && (ok ==> data == Assemble(e, e.count))
  {
    var i := 0;
    data := [];
    while i < e.count
      invariant i <= e.count && (forall l :: 0 <= l < i ==> l in e.chunks)
      invariant Gapless(e) ==> data == Assemble(e, i)
    {
      if i !in e.chunks {
        return false, data;
      }
      data := data + e.chunks[i];
      i := i + 1;
    }
    ok := true;
  }

  /** The same without line breaks, character by character. */
  method Lines(e: Entry) returns (ok: bool, str: seq<byte>)
    ensures ok == Gapless(e) && (ok ==> str == Line(Assemble(e, e.count)))
  {
    var i := 0;
    str := [];
    while i < e.count
      invariant i <= e.count && (forall l :: 0 <= l < i ==> l in e.chunks)
      invariant Gapless(e) ==> str == Line(Assemble(e, i))
    {
      if i !in e.chunks {
        return false, str;
      }
      var more := OneLine(e.chunks[i]);
      if Gapless(e) {
        LineConcat(Assemble(e, i), e.chunks[i]);
      }
      str := str + more;
      i := i + 1;
    }
    ok := true;
  }

  method OneLine(chunk: seq<byte>) returns (str: seq<byte>)
    ensures str == Line(chunk)
  {
    var index := 0;
    str := [];
    while index < |chunk|
      invariant 0 <= index <= |chunk| && str == Line(chunk[..index])
    {
      assert chunk[..index + 1][..index] == chunk[..index];
      if chunk[index] != NEWLINE {
        str := str + [chunk[index]];
      }
      index := index + 1;
    }
    assert chunk[..index] == chunk;
  }

  class Server {
    var received: map<nat, Entry>
    var next: nat

    constructor ()
      ensures received == map[] && next == 0
    {
      received, next := map[], 0;
    }

    /** `ReceiveChunk`; the result is false where it throws. */
    method ReceiveChunk(d: seq<byte>) returns (ok: bool)
      modifies this`received
      ensures Accepted(received, ok) == Accept(old(received), d)
    {
      if |d| < HEADER_SIZE {
        return false;
      }
      var block, count, id, length := FromLe32(d[..4]), FromLe32(d[4..8]), FromLe32(d[8..12]), FromLe16(d[12..14]);
      if block !in received {
        received := received[block := Entry(count, map[])];
      }
      var e := received[block];
      if e.count != count {
        return false;
      }
      if id in e.chunks {
        return true;
      }
      if |d| < HEADER_SIZE + length {
        return false;
      }
      received := received[block := e.(chunks := e.chunks[id := d[14..][..length]])];
      ok := true;
    }

    /** `ReceiveBlock`: the datagrams that come in before the deadline, then the next block. */
    method ReceiveBlock(window: seq<seq<byte>>) returns (r: Outcome<Entry>)
      modifies this`received
      ensures received == After(old(received), window)
      ensures r == if Drain(old(received), window).ok then Fetch(received, next) else Failed
    {
      var j := 0;
      assert window[0..] == window;
      while j < |window|
        invariant 0 <= j <= |window| && Drain(old(received), window) == Drain(received, window[j..])
        modifies this`received
      {
        assert window[j..][1..] == window[j + 1..];
        var ok := ReceiveChunk(window[j]);
        if !ok {
          return Failed;
        }
        j := j + 1;
      }
      if next !in received {
        return Partial;
      }
      var e := received[next];
      r := if |e.chunks| != e.count then Partial else Ok(e);
    }

    /** `ReceiveLine`. */
    method ReceiveLine(window: seq<seq<byte>>) returns (r: Outcome<seq<byte>>)
      requires next < U32
      modifies this
      ensures received == After(old(received), window)
      ensures next == if r.Ok? then Next(old(next)) else old(next)
      ensures var t := Take(old(received), window, old(next)); r == if t.Ok? then Ok(Line(t.value)) else t
    {
      var b := ReceiveBlock(window);
      if !b.Ok? {
        return if b.Partial? then Partial else Failed;
      }
      var ok, str := Lines(b.value);
      if !ok {
        return Failed;
      }
      next := Plus(next, 1);
      r := Ok(str);
    }

    /** `ReceiveBytes`; the lengths of the chunks are added up in the order of their ids. */
    method ReceiveBytes(length: int, window: seq<seq<byte>>) returns (r: Outcome<seq<byte>>)
      requires next < U32
      modifies this
      ensures received == After(old(received), window)
      ensures next == if r.Ok? then Next(old(next)) else old(next)
      ensures var t := Take(old(received), window, old(next)); r == if t.Ok? && |t.value| != length then Failed else t
    {
      var b := ReceiveBlock(window);
      if !b.Ok? {
        return if b.Partial? then Partial else Failed;
      }
      var ok, data := Gather(b.value);
      if !ok || |data| != length {
        return Failed;
      }
      next := Plus(next, 1);
      r := Ok(data);
    }

    method SkipBlocks(count: nat)
      requires next < U32 && count < U32
      modifies this`next
      ensures next == Plus(old(next), count)
    {
      next := Plus(next, count);
    }

    /** The `sendout` command. Whether or not a block was lost, the next id is the one after the three blocks. */
    method Sendout(parse: seq<byte> -> Outcome<int>, w1: seq<seq<byte>>, w2: seq<seq<byte>>, w3: seq<seq<byte>>) returns (o: Delivery)
      requires next < U32
      modifies this
      ensures o == Delivered(old(received), old(next), parse, w1, w2, w3)
      ensures !o.Crashed? ==> next == Plus(old(next), 3)
    {
      var name := ReceiveLine(w1);
      if !name.Ok? {
        o := GiveUp(name.Partial?, 0);
        return;
      }
      var size := ReceiveLine(w2);
      if !size.Ok? {
        o := GiveUp(size.Partial?, 1);
        return;
      }
      var length := parse(size.value);
      if !length.Ok? {
        return Crashed;
      }
      var file := ReceiveBytes(length.value, w3);
      if !file.Ok? {
        o := GiveUp(file.Partial?, 2);
        return;
      }
      o := Saved(name.value, file.value);
    }

    /** The handler of a lost block; any other exception ends the server. */
    method GiveUp(partial: bool, taken: nat) returns (o: Delivery)
      requires next < U32 && taken <= 3
      modifies this`next
      ensures o == (if partial then Discarded else Crashed) && (partial ==> next == Plus(old(next), 3 - taken))
    {
      if !partial {
        return Crashed;
      }
      SkipBlocks(3 - taken);
      o := Discarded;
    }
  }

  // ---------------------------------------------------------------- the transfer

  datatype Delivery = Saved(name: seq<byte>, file: seq<byte>) | Discarded | Crashed

  /** What becomes of a file, from what became of its name, its size and its bytes. */
  function Verdict(parse: seq<byte> -> Outcome<int>, name: Outcome<seq<byte>>, size: Outcome<seq<byte>>, file: Outcome<seq<byte>>): Delivery {
    if !name.Ok? then Lost(name)
    else if !size.Ok? then Lost(size)
    else if !parse(Line(size.value)).Ok? then Crashed
    else if !file.Ok? then Lost(file)
    else if |file.value| != parse(Line(size.value)).value then Crashed
    else Saved(Line(name.value), file.value)
  }

  function Lost(r: Outcome<seq<byte>>): Delivery {
    if r.Partial? then Discarded else Crashed
  }

  function Delivered(received: map<nat, Entry>, next: nat, parse: seq<byte> -> Outcome<int>, w1: seq<seq<byte>>, w2: seq<seq<byte>>, w3: seq<seq<byte>>): Delivery
    requires next < U32
  {
    var received1 := After(received, w1);
    var received2 := After(received1, w2);
    Verdict(parse, Take(received, w1, next), Take(received1, w2, Next(next)), Take(received2, w3, Next(Next(next))))
  }

  /** Block `k` can be taken out: it has a chunk, and all of its chunks have arrived. */
  ghost predicate Deliverable(sent: seq<seq<byte>>, k: nat, arrived: set<(nat, nat)>)
    requires k < |sent|
  {
    sent[k] != [] && Complete(sent, k, arrived)
  }

  function Came(there: bool, block: seq<byte>): Outcome<seq<byte>> {
    if there then Ok(block) else Partial
  }

  /**
   The server has seen the datagrams `h` and now sees `w`, both whatever the channel made of the
   blocks sent. A block is returned as it was sent exactly if it is deliverable, and reported
   as partial otherwise.
   */
  lemma TransferExact(sent: seq<seq<byte>>, h: seq<seq<byte>>, ih: seq<(nat, nat)>, w: seq<seq<byte>>, iw: seq<(nat, nat)>, k: nat)
    requires Connection(sent) && Arrivals(h, ih, sent) && Arrivals(w, iw, sent) && k < |sent|
    ensures After(State(h), w) == State(h + w)
    ensures Take(State(h), w, k) == Came(Deliverable(sent, k, Ids(ih + iw)), sent[k])
  {
    StateHolds(h, ih, sent);
    ArrivalsConcat(h, ih, w, iw, sent);
    StateHolds(h + w, ih + iw, sent);
    DrainConcat(map[], h, w);
    FetchExact(State(h + w), sent, Ids(ih + iw), k);
  }

  /** A file whose size was sent along is saved exactly if each of its three blocks was deliverable in time, and dropped otherwise. */
  lemma SendoutExact(sent: seq<seq<byte>>, k: nat, parse: seq<byte> -> Outcome<int>, h: seq<seq<byte>>, ih: seq<(nat, nat)>,
                     w1: seq<seq<byte>>, i1: seq<(nat, nat)>, w2: seq<seq<byte>>, i2: seq<(nat, nat)>, w3: seq<seq<byte>>, i3: seq<(nat, nat)>)
    requires Connection(sent) && k + 2 < |sent| && Arrivals(h, ih, sent)
    requires Arrivals(w1, i1, sent) && Arrivals(w2, i2, sent) && Arrivals(w3, i3, sent)
    requires parse(Line(sent[k + 1])) == Ok(|sent[k + 2]|)
    ensures Delivered(State(h), k, parse, w1, w2, w3) ==
            if Deliverable(sent, k, Ids(ih + i1)) && Deliverable(sent, k + 1, Ids(ih + i1 + i2)) && Deliverable(sent, k + 2, Ids(ih + i1 + i2 + i3))
            then Saved(Line(sent[k]), sent[k + 2]) else Discarded
  {
    SendoutTakes(sent, k, h, ih, w1, i1, w2, i2, w3, i3);
    DeliveredIs(State(h), k, parse, w1, w2, w3, Deliverable(sent, k, Ids(ih + i1)), sent[k], Deliverable(sent, k + 1, Ids(ih + i1 + i2)), sent[k + 1], Deliverable(sent, k + 2, Ids(ih + i1 + i2 + i3)), sent[k + 2]);
  }

  lemma SendoutTakes(sent: seq<seq<byte>>, k: nat, h: seq<seq<byte>>, ih: seq<(nat, nat)>,
                     w1: seq<seq<byte>>, i1: seq<(nat, nat)>, w2: seq<seq<byte>>, i2: seq<(nat, nat)>, w3: seq<seq<byte>>, i3: seq<(nat, nat)>)
    requires Connection(sent) && k + 2 < |sent| && Arrivals(h, ih, sent)
    requires Arrivals(w1, i1, sent) && Arrivals(w2, i2, sent) && Arrivals(w3, i3, sent)
    ensures Take(State(h), w1, k) == Came(Deliverable(sent, k, Ids(ih + i1)), sent[k])
    ensures Take(After(State(h), w1), w2, k + 1) == Came(Deliverable(sent, k + 1, Ids(ih + i1 + i2)), sent[k + 1])
    ensures Take(After(After(State(h), w1), w2), w3, k + 2) == Came(Deliverable(sent, k + 2, Ids(ih + i1 + i2 + i3)), sent[k + 2])
  {
    TransferExact(sent, h, ih, w1, i1, k);
    ArrivalsConcat(h, ih, w1, i1, sent);
    TwoTakes(sent, k + 1, h + w1, ih + i1, w2, i2, w3, i3);
  }

  lemma TwoTakes(sent: seq<seq<byte>>, k: nat, h: seq<seq<byte>>, ih: seq<(nat, nat)>, w1: seq<seq<byte>>, i1: seq<(nat, nat)>, w2: seq<seq<byte>>, i2: seq<(nat, nat)>)
    requires Connection(sent) && k + 1 < |sent| && Arrivals(h, ih, sent) && Arrivals(w1, i1, sent) && Arrivals(w2, i2, sent)
    ensures Take(State(h), w1, k) == Came(Deliverable(sent, k, Ids(ih + i1)), sent[k])
    ensures Take(After(State(h), w1), w2, k + 1) == Came(Deliverable(sent, k + 1, Ids(ih + i1 + i2)), sent[k + 1])
  {
    TransferExact(sent, h, ih, w1, i1, k);
    ArrivalsConcat(h, ih, w1, i1, sent);
    TransferExact(sent, h + w1, ih + i1, w2, i2, k + 1);
  }

  lemma DeliveredIs(received: map<nat, Entry>, next: nat, parse: seq<byte> -> Outcome<int>, w1: seq<seq<byte>>, w2: seq<seq<byte>>, w3: seq<seq<byte>>,
                    d1: bool, x1: seq<byte>, d2: bool, x2: seq<byte>, d3: bool, x3: seq<byte>)
    requires next + 2 < U32 && parse(Line(x2)) == Ok(|x3|)
    requires Take(received, w1, next) == Came(d1, x1) && Take(After(received, w1), w2, next + 1) == Came(d2, x2)
    requires Take(After(After(received, w1), w2), w3, next + 2) == Came(d3, x3)
    ensures Delivered(received, next, parse, w1, w2, w3) == if d1 && d2 && d3 then Saved(Line(x1), x3) else Discarded
  {
  }
}
