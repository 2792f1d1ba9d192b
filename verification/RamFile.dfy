/**
 The data path of the RAM file system: a file is a chain of blocks, a handle keeps a
 cursor into the chain next to its position. Both together refine a byte sequence
 with a position.
 */
module RamFile {

  import opened Common
  import opened Bytes

  const MIN_BLOCK_SIZE: nat := 4096
  const SIZE_ALIGNMENT: nat := 64

  /** A block: the bytes it holds and the bytes it has room for. */
  datatype Block = Block(data: seq<byte>, size: nat)

  datatype Whence = Start | Current | End

  // ---------------------------------------------------------------- block chains

  /** The contents of a chain of blocks. */
  function Flat(bs: seq<Block>): seq<byte> {
    if bs == [] then [] else bs[0].data + Flat(bs[1..])
  }

  predicate BlocksOk(bs: seq<Block>) {
    forall k :: 0 <= k < |bs| ==> |bs[k].data| <= bs[k].size && bs[k].size > 0
  }

  /** Only the first block may be empty. */
  predicate Packed(bs: seq<Block>) {
    forall k :: 0 < k < |bs| ==> bs[k].data != []
  }

  lemma {:induction false} FlatConcat(a: seq<Block>, b: seq<Block>)
    ensures Flat(a + b) == Flat(a) + Flat(b)
    decreases |a|
  {
    if a == [] {
      assert a + b == b;
    } else {
      FlatConcat(a[1..], b);
      assert (a + b)[1..] == a[1..] + b;
    }
  }

  /** A chain around one of its blocks. */
  lemma FlatAround(bs: seq<Block>, k: nat)
    requires k < |bs|
    ensures Flat(bs) == Flat(bs[..k]) + bs[k].data + Flat(bs[k + 1..])
  {
    FlatSplit(bs, k);
    FlatFrom(bs, k);
    Join(Flat(bs[..k]), bs[k].data, Flat(bs[k + 1..]));
  }

  lemma FlatSplit(bs: seq<Block>, k: nat)
    requires k <= |bs|
    ensures Flat(bs) == Flat(bs[..k]) + Flat(bs[k..])
  {
    FlatJoined(bs[..k], bs[k..], bs);
  }

  lemma FlatJoined(a: seq<Block>, b: seq<Block>, bs: seq<Block>)
    requires bs == a + b
    ensures Flat(bs) == Flat(a) + Flat(b)
  {
    FlatConcat(a, b);
  }

  lemma FlatFrom(bs: seq<Block>, k: nat)
    requires k < |bs|
    ensures Flat(bs[k..]) == bs[k].data + Flat(bs[k + 1..])
  {
    FlatHead(bs[k..]);
    assert bs[k..][1..] == bs[k + 1..];
  }

  lemma FlatHead(bs: seq<Block>)
    requires bs != []
    ensures Flat(bs) == bs[0].data + Flat(bs[1..])
  {
  }

  lemma FlatUpTo(bs: seq<Block>, k: nat)
    requires k < |bs|
    ensures Flat(bs[..k + 1]) == Flat(bs[..k]) + bs[k].data
  {
    FlatConcat(bs[..k], [bs[k]]);
    assert bs[..k + 1] == bs[..k] + [bs[k]];
    FlatHead([bs[k]]);
    assert bs[k].data + [] == bs[k].data;
  }

  /** Where a cursor stands: behind the blocks before it and the bytes before its offset. */
  function Before(bs: seq<Block>, block: nat, offset: nat): seq<byte>
    requires block <= |bs| && (block < |bs| ==> offset <= |bs[block].data|)
  {
    Flat(bs[..block]) + if block < |bs| then bs[block].data[..offset] else []
  }

  /** The cursor: block `block` (the length of the chain stands for null), `offset` bytes into it. */
  predicate CursorOk(bs: seq<Block>, block: nat, offset: nat) {
    block <= |bs| && (if block < |bs| then offset <= |bs[block].data| else offset == 0)
  }

  /** What lies before a cursor is a prefix of the contents. */
  lemma BeforeIsPrefix(bs: seq<Block>, block: nat, offset: nat)
    requires CursorOk(bs, block, offset)
    ensures Before(bs, block, offset) <= Flat(bs)
    ensures block < |bs| ==> Flat(bs) == Before(bs, block, offset) + bs[block].data[offset..] + Flat(bs[block + 1..])
  {
    if block < |bs| {
      FlatAround(bs, block);
      Regroup(Flat(bs[..block]), bs[block].data, offset, Flat(bs[block + 1..]));
    } else {
      assert bs[..block] == bs;
    }
  }

  lemma Join(a: seq<byte>, b: seq<byte>, c: seq<byte>)
    ensures a + b + c == a + (b + c)
  {
  }

  lemma Consume(d: seq<byte>, goal: seq<byte>, data: seq<byte>, done: nat, n: nat)
    requires done + n <= |data| && d + data[done..] == goal
    ensures d + data[done..][..n] + data[done + n..] == goal
  {
    assert data[done..] == data[done..][..n] + data[done + n..];
    Join(d, data[done..][..n], data[done + n..]);
  }

  lemma Regroup(a: seq<byte>, d: seq<byte>, k: nat, c: seq<byte>)
    requires k <= |d|
    ensures a + d + c == a + d[..k] + d[k..] + c && a + d[..k] <= a + d + c
  {
    assert d == d[..k] + d[k..];
  }

  // ---------------------------------------------------------------- moving the cursor

  lemma Forward(bs: seq<Block>, block: nat, offset: nat, n: nat)
    requires block < |bs| && offset + n <= |bs[block].data|
    ensures Before(bs, block, offset + n) == Before(bs, block, offset) + bs[block].data[offset..offset + n]
  {
    var d := bs[block].data;
    assert d[..offset + n] == d[..offset] + d[offset..offset + n];
  }

  lemma NextBlock(bs: seq<Block>, block: nat)
    requires block < |bs|
    ensures Before(bs, block + 1, 0) == Before(bs, block, |bs[block].data|)
  {
    FlatUpTo(bs, block);
    var d := bs[block].data;
    assert d[..|d|] == d;
    if block + 1 < |bs| {
      assert bs[block + 1].data[..0] == [];
    }
  }

  /** A cursor at the end of the contents is null or behind the last byte of the last block. */
  lemma EndMeans(bs: seq<Block>, block: nat, offset: nat)
    requires CursorOk(bs, block, offset) && Packed(bs)
    ensures |Before(bs, block, offset)| == |Flat(bs)| <==> block == |bs| || (block + 1 == |bs| && offset == |bs[block].data|)
  {
    if block < |bs| {
      FlatAround(bs, block);
      if block + 1 < |bs| {
        FlatHead(bs[block + 1..]);
      } else {
        assert bs[block + 1..] == [];
      }
    } else {
      assert bs[..block] == bs;
    }
  }

  // ---------------------------------------------------------------- writing a block

  function WriteHere(bs: seq<Block>, block: nat, offset: nat, chunk: seq<byte>): seq<Block>
    requires block < |bs| && offset <= |bs[block].data|
  {
    bs[block := bs[block].(data := bs[block].data[..offset] + chunk)]
  }

  lemma Written(bs: seq<Block>, block: nat, offset: nat, chunk: seq<byte>)
    requires BlocksOk(bs) && block < |bs| && offset <= |bs[block].data| && offset + |chunk| <= bs[block].size
    ensures var bs' := WriteHere(bs, block, offset, chunk);
            && BlocksOk(bs') && Before(bs', block, offset + |chunk|) == Before(bs, block, offset) + chunk && bs'[block + 1..] == bs[block + 1..]
            && |bs'[block].data| == offset + |chunk| && |Flat(bs')| == |Flat(bs)| - |bs[block].data| + offset + |chunk|
  {
    var bs' := WriteHere(bs, block, offset, chunk);
    assert bs'[..block] == bs[..block];
    FlatAround(bs, block);
    FlatAround(bs', block);
    var d := bs'[block].data;
    assert d[..offset + |chunk|] == d;
  }

  /** Appending an empty block changes nothing. */
  lemma NewBlock(bs: seq<Block>, size: nat, block: nat, offset: nat)
    requires BlocksOk(bs) && size > 0 && block < |bs| && offset <= |bs[block].data|
    ensures var bs' := bs + [Block([], size)]; BlocksOk(bs') && Flat(bs') == Flat(bs) && Before(bs', block, offset) == Before(bs, block, offset)
  {
    var bs' := bs + [Block([], size)];
    FlatConcat(bs, [Block([], size)]);
    assert Flat([Block([], size)]) == [] + Flat([]);
    assert bs'[..block] == bs[..block];
  }

  /** The blocks of the old chain that a write ending in `block` has not touched. */
  function Untouched(bs0: seq<Block>, block: nat): seq<Block> {
    if block + 1 <= |bs0| then bs0[block + 1..] else []
  }

  /** The write has come as far as the cursor. */
  predicate Writing(bs0: seq<Block>, bs: seq<Block>, block: nat, offset: nat, done: seq<byte>) {
    && BlocksOk(bs) && |bs| >= |bs0| && block < |bs| && offset <= |bs[block].data|
    && Before(bs, block, offset) == done && bs[block + 1..] == Untouched(bs0, block)
    && forall k :: 0 < k < |bs| && k != block ==> bs[k].data != []
  }

  lemma WritingHere(bs0: seq<Block>, bs: seq<Block>, block: nat, offset: nat, done: seq<byte>, chunk: seq<byte>)
    requires Writing(bs0, bs, block, offset, done) && offset + |chunk| <= bs[block].size
    ensures Writing(bs0, WriteHere(bs, block, offset, chunk), block, offset + |chunk|, done + chunk)
    ensures Flat(WriteHere(bs, block, offset, chunk)) == done + chunk + Flat(Untouched(bs0, block))
  {
    Written(bs, block, offset, chunk);
    var bs' := WriteHere(bs, block, offset, chunk);
    BeforeIsPrefix(bs', block, offset + |chunk|);
    assert bs'[block].data[offset + |chunk|..] == [];
    assert done + chunk + [] == done + chunk;
  }

  lemma WritingNext(bs0: seq<Block>, bs: seq<Block>, block: nat, done: seq<byte>)
    requires Writing(bs0, bs, block, if block < |bs| then |bs[block].data| else 0, done) && block + 1 < |bs| && bs[block].data != []
    ensures Writing(bs0, bs, block + 1, 0, done)
  {
    NextBlock(bs, block);
    assert bs[block + 1..][1..] == bs[block + 2..];
    if block + 1 < |bs0| {
      assert bs0[block + 1..][1..] == bs0[block + 2..];
    }
  }

  lemma WritingNew(bs0: seq<Block>, bs: seq<Block>, block: nat, done: seq<byte>, size: nat)
    requires Writing(bs0, bs, block, if block < |bs| then |bs[block].data| else 0, done) && block + 1 == |bs| && size > 0 && bs[block].data != []
    ensures Writing(bs0, bs + [Block([], size)], block + 1, 0, done)
  {
    var bs' := bs + [Block([], size)];
    NewBlock(bs, size, block, |bs[block].data|);
    NextBlock(bs', block);
    assert bs'[block + 2..] == [];
    assert |bs0| <= block + 1;
  }

  /** Nothing is left untouched behind a write that starts at the end. */
  lemma WriteAtEnd(bs0: seq<Block>, block0: nat, offset0: nat, block: nat)
    requires CursorOk(bs0, block0, offset0) && Packed(bs0) && block0 < |bs0| && block0 <= block && |Before(bs0, block0, offset0)| == |Flat(bs0)|
    ensures Untouched(bs0, block) == []
  {
    EndMeans(bs0, block0, offset0);
  }

  // ---------------------------------------------------------------- the file with its one handle

  /** The size of a new block for `remaining` bytes. */
  function NewSize(remaining: nat): (size: nat)
    ensures size >= MIN_BLOCK_SIZE && size > remaining
  {
    var size := SIZE_ALIGNMENT * (1 + remaining / SIZE_ALIGNMENT);
    if size < MIN_BLOCK_SIZE then (assert remaining < MIN_BLOCK_SIZE; MIN_BLOCK_SIZE) else size
  }

  /** How many bytes a read sets out to copy; the sum wraps around at 64 bits. */
  function ReadLength(position: nat, length: nat, dataLength: nat): nat
    requires position <= dataLength
  {
    if (position + length) % WORD > dataLength then dataLength - position else length
  }

  /** The length is cut down to what is left if and only if the sum does not wrap. */
  lemma Clamped(position: nat, length: nat, dataLength: nat)
    requires position <= dataLength < WORD && length < WORD
    ensures ReadLength(position, length, dataLength) <= dataLength - position <==> position + length < WORD
    ensures position + length < WORD ==>
      ReadLength(position, length, dataLength) == if position + length > dataLength then dataLength - position else length
  {
    if position + length >= WORD {
      assert (position + length) % WORD == position + length - WORD < position;
    }
  }

  class File {
    var blocks: seq<Block>
    var dataLength: nat
    var block: nat
    var offset: nat
    var position: nat

    ghost function Content(): seq<byte>
      reads this
    {
      Flat(blocks)
    }

    ghost predicate Valid()
      reads this
    {
      && blocks != [] && BlocksOk(blocks) && Packed(blocks) && dataLength == |Content()|
      && CursorOk(blocks, block, offset) && position == |Before(blocks, block, offset)|
    }

    /** `create_file`, opened. */
    constructor ()
      ensures Valid() && Content() == [] && position == 0 && block < |blocks|
    {
      blocks, dataLength := [Block([], MIN_BLOCK_SIZE)], 0;
      block, offset, position := 0, 0, 0;
      assert Flat([Block([], MIN_BLOCK_SIZE)]) == [] + Flat([]);
    }

    /**
     `ramfs_read`. A read that is not cut down to what is left runs off the chain and
     follows the null block, which is `ok == false`.
     */
    method Read(length: nat) returns (ok: bool, out: seq<byte>)
      requires Valid() && length < WORD && dataLength < WORD
      modifies this`block, this`offset, this`position
      ensures Valid() && position == old(position) + |out| <= |Content()|
      ensures out == Content()[old(position)..position]
      ensures ok <==> old(position) + length < WORD
      ensures |out| == if ok && old(position) + length <= |Content()| then length else |Content()| - old(position)
      ensures ok ==> if out == [] then block == old(block) else block == |blocks| <==> position == |Content()|
      ensures !ok ==> block == |blocks|
    {
      BeforeIsPrefix(blocks, block, offset);
      ghost var p := Before(blocks, block, offset);
      Clamped(position, length, dataLength);
      ok, out := ReadAll(ReadLength(position, length, dataLength));
      BeforeIsPrefix(blocks, block, offset);
      assert out == (p + out)[|p|..];
    }

    method ReadAll(total: nat) returns (ok: bool, out: seq<byte>)
      requires Valid()
      modifies this`block, this`offset, this`position
      ensures Valid() && Before(blocks, block, offset) == old(Before(blocks, block, offset)) + out
      ensures ok <==> total <= |Content()| - old(position)
      ensures ok ==> |out| == total && if total == 0 then block == old(block) else block == |blocks| <==> position == |Content()|
      ensures !ok ==> block == |blocks| && position == |Content()|
    {
      ghost var p := Before(blocks, block, offset);
      BeforeIsPrefix(blocks, block, offset);
      var remaining: nat := total;
      out := [];
      while remaining > 0
        invariant Valid() && Before(blocks, block, offset) == p + out && |out| + remaining == total
        invariant |p + out| <= |Content()|
        invariant remaining == 0 && total > 0 ==> (block == |blocks| <==> position == |Content()|)
        invariant total == 0 ==> block == old(block)
        decreases remaining, |blocks| - block
      {
        if block == |blocks| {
          EndMeans(blocks, block, offset);
          return false, out;
        }
        var chunk := ReadBlock(remaining);
        Join(p, out, chunk);
        out, remaining := out + chunk, remaining - |chunk|;
        BeforeIsPrefix(blocks, block, offset);
      }
      ok := true;
    }

    /** The rest of the current block, or as much as is asked for; a finished block is left behind. */
    method ReadBlock(remaining: nat) returns (chunk: seq<byte>)
      requires Valid() && 0 < remaining && block < |blocks|
      modifies this`block, this`offset, this`position
      ensures Valid() && |chunk| <= remaining && Before(blocks, block, offset) == old(Before(blocks, block, offset)) + chunk && position == old(position) + |chunk|
      ensures |chunk| < remaining ==> block == old(block) + 1
      ensures |chunk| == remaining ==> (block == |blocks| <==> position == |Content()|)
    {
      var d := blocks[block].data;
      var n := |d| - offset;
      if remaining < n {
        Forward(blocks, block, offset, remaining);
        chunk := d[offset..offset + remaining];
        position, offset := position + remaining, offset + remaining;
        EndMeans(blocks, block, offset);
        return;
      }
      Forward(blocks, block, offset, n);
      chunk := d[offset..offset + n];
      NextBlock(blocks, block);
      position, block, offset := position + n, block + 1, 0;
      EndMeans(blocks, block, offset);
    }

    /**
     `ramfs_write`. With a null cursor the source faults on anything but an empty
     buffer, which is `ok == false`.
     */
    method Write(data: seq<byte>) returns (ok: bool)
      requires Valid()
      modifies this
      ensures ok <==> data == [] || old(block) < |old(blocks)|
      ensures !ok || data == [] ==> Content() == old(Content()) && block == old(block) && offset == old(offset) && blocks == old(blocks) && position == old(position)
      ensures Valid() && block >= old(block) && (old(block) < |old(blocks)| ==> block < |blocks|)
      ensures ok ==> position == old(position) + |data|
      ensures ok && data != [] ==> old(position) <= |old(Content())| && Content() == old(Content())[..old(position)] + data + Flat(Untouched(old(blocks), block))
      ensures ok && old(position) == |old(Content())| ==> Content() == old(Content()) + data
    {
      ghost var bs0, block0, offset0 := blocks, block, offset;
      ok := data == [] || block < |blocks|;
      assert data == [] ==> Content() == Content() + data;
      if data == [] || !ok {
        return;
      }
      BeforeIsPrefix(blocks, block, offset);
      WriteAll(data, blocks, Before(blocks, block, offset));
      if old(position) == |old(Content())| {
        WriteAtEnd(bs0, block0, offset0, block);
        assert old(Content())[..old(position)] == old(Content());
      }
    }

    method WriteAll(data: seq<byte>, ghost bs0: seq<Block>, ghost p: seq<byte>)
      requires data != [] && dataLength == |Flat(blocks)| && Writing(bs0, blocks, block, offset, p) && position == |p|
      modifies this
      ensures dataLength == |Flat(blocks)| && Writing(bs0, blocks, block, offset, p + data) && position == |p + data| && block >= old(block)
      ensures Flat(blocks) == p + data + Flat(Untouched(bs0, block)) && blocks[block].data != []
    {
      ghost var d := p;
      var done := 0;
      while done < |data|
        invariant 0 <= done <= |data| && dataLength == |Flat(blocks)| && Writing(bs0, blocks, block, offset, d) && d + data[done..] == p + data
        invariant position == |d| && block >= old(block)
        invariant done == |data| ==> Flat(blocks) == d + Flat(Untouched(bs0, block)) && blocks[block].data != []
        decreases |data| - done, if offset < blocks[block].size then 0 else 1
      {
        var n := WriteSome(data[done..], bs0, d);
        Consume(d, p + data, data, done, n);
        d, done := d + data[done..][..n], done + n;
      }
      assert data[done..] == [];
      assert d == p + data;
    }

    /** One turn of the loop: fill the current block, and go on to the next unless that was enough. */
    method WriteSome(rest: seq<byte>, ghost bs0: seq<Block>, ghost d: seq<byte>) returns (n: nat)
      requires rest != [] && dataLength == |Flat(blocks)| && Writing(bs0, blocks, block, offset, d)
      modifies this
      ensures n <= |rest| && dataLength == |Flat(blocks)| && Writing(bs0, blocks, block, offset, d + rest[..n]) && position == old(position) + n
      ensures n == |rest| ==> Flat(blocks) == d + rest[..n] + Flat(Untouched(bs0, block)) && blocks[block].data != []
      ensures block >= old(block)
      ensures n < |rest| ==> offset < blocks[block].size && (n == 0 ==> old(offset >= blocks[block].size))
    {
      n := 0;
      assert d + rest[..0] == d;
      if offset < blocks[block].size {
        var space := blocks[block].size - offset;
        n := if space >= |rest| then |rest| else space;
        CopyIn(rest[..n], bs0, d);
        if n == |rest| {
          return;
        }
      }
      Advance(|rest| - n, bs0, d + rest[..n]);
    }

    /** Copy bytes to the cursor; the block ends behind them. */
    method CopyIn(chunk: seq<byte>, ghost bs0: seq<Block>, ghost done: seq<byte>)
      requires Writing(bs0, blocks, block, offset, done) && offset + |chunk| <= blocks[block].size && dataLength == |Flat(blocks)|
      modifies this`blocks, this`offset, this`position, this`dataLength
      ensures Writing(bs0, blocks, block, offset, done + chunk) && offset == |blocks[block].data| == old(offset) + |chunk| && position == old(position) + |chunk|
      ensures dataLength == |Flat(blocks)| && Flat(blocks) == done + chunk + Flat(Untouched(bs0, block)) && blocks[block].size == old(blocks[block].size) && |blocks| == |old(blocks)|
    {
      WritingHere(bs0, blocks, block, offset, done, chunk);
      Written(blocks, block, offset, chunk);
      var was := |blocks[block].data|;
      blocks := WriteHere(blocks, block, offset, chunk);
      position, offset := position + |chunk|, offset + |chunk|;
      dataLength := dataLength + offset - was;
    }

    /** Go to the next block, making one if there is none. */
    method Advance(remaining: nat, ghost bs0: seq<Block>, ghost done: seq<byte>)
      requires Writing(bs0, blocks, block, offset, done) && offset == |blocks[block].data| > 0 && dataLength == |Flat(blocks)|
      modifies this`blocks, this`block, this`offset
      ensures Writing(bs0, blocks, block, offset, done) && offset < blocks[block].size && dataLength == |Flat(blocks)| && block == old(block) + 1
    {
      if block + 1 == |blocks| {
        WritingNew(bs0, blocks, block, done, NewSize(remaining));
        NewBlock(blocks, NewSize(remaining), block, offset);
        blocks := blocks + [Block([], NewSize(remaining))];
      } else {
        WritingNext(bs0, blocks, block, done);
      }
      block, offset := block + 1, 0;
    }

    /** `ramfs_tell`. */
    method Tell() returns (p: nat)
      requires Valid()
      ensures p == position <= |Content()|
    {
      BeforeIsPrefix(blocks, block, offset);
      p := position;
    }

    /** `ramfs_seek`: the target is clamped to the file, and the cursor is never null after it. */
    method Seek(by0: int, whence: Whence)
      requires Valid()
      modifies this`block, this`offset, this`position
      ensures Valid() && position == Target(by0, whence, old(position), |Content()|) && block < |blocks|
    {
      var target := Target(by0, whence, position, dataLength);
      var k: nat, skip: nat := 0, target;
      assert blocks[..0] == [] && blocks[..|blocks|] == blocks;
      while skip > |blocks[k].data|
        invariant k < |blocks| && skip + |Flat(blocks[..k])| == target <= |Flat(blocks)|
        decreases |blocks| - k
      {
        FlatUpTo(blocks, k);
        skip := skip - |blocks[k].data|;
        k := k + 1;
      }
      block, offset, position := k, skip, target;
    }
  }

  /** Where a seek goes. */
  function Target(offset: int, whence: Whence, position: nat, length: nat): (t: nat)
    ensures t <= length
  {
    var t := if whence == Start && offset >= 0 then offset
             else if whence == Current && (offset >= 0 || position >= -offset) then position + offset
             else if whence == End && offset <= 0 && length >= -offset then length + offset
             else 0;
    if t > length then length else t
  }

  // ---------------------------------------------------------------- round trip

  function Concat(chunks: seq<seq<byte>>): seq<byte> {
    if chunks == [] then [] else Concat(chunks[..|chunks| - 1]) + chunks[|chunks| - 1]
  }

  lemma ConcatUpTo(chunks: seq<seq<byte>>, i: nat)
    requires i < |chunks|
    ensures Concat(chunks[..i + 1]) == Concat(chunks[..i]) + chunks[i]
  {
    assert chunks[..i + 1][..i] == chunks[..i];
  }

  /** Writes to a new file, one behind the other. */
  method WriteChunks(chunks: seq<seq<byte>>) returns (file: File)
    ensures fresh(file) && file.Valid() && file.Content() == Concat(chunks)
  {
    file := new File();
    var i := 0;
    while i < |chunks|
      invariant 0 <= i <= |chunks| && file.Valid() && file.Content() == Concat(chunks[..i]) && file.position == |file.Content()| && file.block < |file.blocks|
      modifies file
    {
      var ok := file.Write(chunks[i]);
      ConcatUpTo(chunks, i);
      i := i + 1;
    }
    assert chunks[..i] == chunks;
  }

  /** Any writes to a new file, a seek to the start and a read return what was written. */
  method WriteThenRead(chunks: seq<seq<byte>>) returns (out: seq<byte>)
    requires |Concat(chunks)| < WORD
    ensures out == Concat(chunks)
  {
    var file := WriteChunks(chunks);
    file.Seek(0, Start);
    var ok;
    ok, out := file.Read(file.dataLength);
  }

  /** At position 1 a read of the greatest length is not cut down and runs off the chain. */
  method ReadWraps(x: byte) returns (ok: bool)
    ensures !ok
  {
    var file := new File();
    ok := file.Write([x]);
    assert file.Content() == [x];
    var out;
    ok, out := file.Read(WORD - 1);
  }

  /** A read to the end of a one-byte file leaves a null cursor, so that the next write faults. */
  method WriteAfterEnd(x: byte, y: byte) returns (read: bool, out: seq<byte>, wrote: bool)
    ensures read && out == [x] && !wrote
  {
    var file := new File();
    var ok := file.Write([x]);
    assert file.Content() == [x];
    file.Seek(0, Start);
    read, out := file.Read(1);
    wrote := file.Write([y]);
  }
}
