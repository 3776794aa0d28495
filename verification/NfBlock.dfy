/**
 Data blocks of nffile.c as they are in a file: a 12-byte header, then the
 records, compressed for most files. Compression is a parameter.
 */
module NfBlock {

  type Byte = x: int | 0 <= x < 256

  const MAX32 := 0x1_0000_0000
  const BLOCK_HEADER := 12
  const FILE_HEADER := 40
  const WRITE_BUFFSIZE := 2 * 1048576
  const BUFFSIZE := 5 * 1048576
  const DATA_BLOCK_TYPE_3 := 3

  // A block in memory: how many records, and their bytes.
  datatype Block = Block(numRecords: nat, data: seq<Byte>)

  // compress and uncompress.
  datatype Codec = Codec(comp: seq<Byte> -> seq<Byte>, decomp: seq<Byte> -> seq<Byte>)

  // What is assumed of them: they are inverse, and what was compressed fits a
  // buffer and is not empty.
  ghost predicate Faithful(c: Codec) {
    forall d: seq<Byte> {:trigger c.comp(d)} :: 0 < |d| < WRITE_BUFFSIZE ==>
      c.decomp(c.comp(d)) == d && 0 < |c.comp(d)| <= BUFFSIZE - BLOCK_HEADER
  }

  // A block worth writing.
  predicate Sane(b: Block) {
    0 < b.numRecords < MAX32 && 0 < |b.data| < WRITE_BUFFSIZE
  }

  function Le16(n: int): (r: seq<Byte>)
    requires 0 <= n < 0x1_0000
    ensures |r| == 2
  {
    [n % 256, n / 256]
  }

  function Le32(n: int): (r: seq<Byte>)
    requires 0 <= n < MAX32
    ensures |r| == 4
  {
    [n % 256, n / 256 % 256, n / 0x1_0000 % 256, n / 0x100_0000]
  }

  function Get32(m: seq<Byte>, i: nat): (r: nat)
    requires i + 4 <= |m|
    ensures r < MAX32
  {
    var b0: int, b1: int, b2: int, b3: int := m[i], m[i + 1], m[i + 2], m[i + 3];
    b0 + 256 * b1 + 0x1_0000 * b2 + 0x100_0000 * b3
  }

  lemma Digits(n: int)
    requires 0 <= n < MAX32
    ensures n % 256 + 256 * (n / 256 % 256) + 0x1_0000 * (n / 0x1_0000 % 256) + 0x100_0000 * (n / 0x100_0000) == n
  {
  }

  lemma Le32RoundTrip(n: int, pre: seq<Byte>, post: seq<Byte>)
    requires 0 <= n < MAX32
    ensures Get32(pre + Le32(n) + post, |pre|) == n
  {
    var r, m := Le32(n), pre + Le32(n) + post;
    Digits(n);
    assert m[|pre|] == r[0] && m[|pre| + 1] == r[1] && m[|pre| + 2] == r[2] && m[|pre| + 3] == r[3];
  }

  // What nfwrite writes for a block.
  function Encode(c: Codec, b: Block): (r: seq<Byte>)
    requires b.numRecords < MAX32 && |c.comp(b.data)| < MAX32
    ensures |r| == BLOCK_HEADER + |c.comp(b.data)|
  {
    Le32(b.numRecords) + Le32(|c.comp(b.data)|) + Le16(DATA_BLOCK_TYPE_3) + Le16(0) + c.comp(b.data)
  }

  // What 258 records in a block of 3 bytes look like on disk.
  lemma OneBlock(c: Codec, b: Block)
    requires b.numRecords == 258 && c.comp(b.data) == [7, 8, 9]
    ensures Encode(c, b) == [2, 1, 0, 0, 3, 0, 0, 0, 3, 0, 0, 0, 7, 8, 9]
  {
  }

  ghost predicate Writable(c: Codec, bs: seq<Block>) {
    Faithful(c) && forall b :: b in bs ==> Sane(b)
  }

  ghost function EncodeAll(c: Codec, bs: seq<Block>): seq<Byte>
    requires Writable(c, bs)
  {
    if bs == [] then [] else
      assert bs[0] in bs;
      Encode(c, bs[0]) + EncodeAll(c, bs[1..])
  }

  lemma {:induction false} EncodeSnoc(c: Codec, bs: seq<Block>, b: Block)
    requires Writable(c, bs) && Sane(b)
    ensures Writable(c, bs + [b]) && EncodeAll(c, bs + [b]) == EncodeAll(c, bs) + Encode(c, b)
  {
    if bs == [] {
      assert EncodeAll(c, [b]) == Encode(c, b) + EncodeAll(c, []);
    } else {
      assert (bs + [b])[1..] == bs[1..] + [b];
      EncodeSnoc(c, bs[1..], b);
    }
  }

  datatype Read = Nothing | Got(b: Block, next: nat)

  // nfread at offset `at`: nothing at the end of the file, and nothing when
  // the block is not sound.
  function Decode(c: Codec, m: seq<Byte>, at: nat): Read {
    if at + BLOCK_HEADER > |m| then
      Nothing
    else
      var numRecords, size := Get32(m, at), Get32(m, at + 4);
      if size > BUFFSIZE - BLOCK_HEADER || size == 0 || numRecords == 0 then
        Nothing
      else if at + BLOCK_HEADER + size > |m| then
        Nothing
      else
        Got(Block(numRecords, c.decomp(m[at + BLOCK_HEADER..at + BLOCK_HEADER + size])), at + BLOCK_HEADER + size)
  }

  // What is not read: an unfinished block, one that is too large, an empty one.
  lemma Unreadable(c: Codec, m: seq<Byte>, at: nat)
    ensures Decode(c, m, at).Nothing? <==>
      || |m| < at + 12 || Get32(m, at) == 0 || Get32(m, at + 4) == 0 || Get32(m, at + 4) > 5242868
      || |m| < at + 12 + Get32(m, at + 4)
  {
  }

  // What was written is read back, whatever is around it.
  lemma DecodeEncoded(c: Codec, b: Block, pre: seq<Byte>, post: seq<Byte>)
    requires Faithful(c) && Sane(b)
    ensures Decode(c, pre + Encode(c, b) + post, |pre|) == Got(b, |pre| + |Encode(c, b)|)
  {
    var d := c.comp(b.data);
    var e := Encode(c, b);
    var m := pre + e + post;
    var n, s, r := Le32(b.numRecords), Le32(|d|), Le16(DATA_BLOCK_TYPE_3) + Le16(0) + d;
    assert e == n + s + r;
    assert m == pre + n + (s + r + post);
    Le32RoundTrip(b.numRecords, pre, s + r + post);
    assert m == (pre + n) + s + (r + post);
    Le32RoundTrip(|d|, pre + n, r + post);
    assert m[|pre| + BLOCK_HEADER..|pre| + BLOCK_HEADER + |d|] == d;
  }

  // The loop of nfreader: up to `n` blocks, fewer if one cannot be read.
  function ReadBlocks(c: Codec, m: seq<Byte>, at: nat, n: nat): seq<Block>
    decreases n
  {
    if n == 0 then [] else
      match Decode(c, m, at)
      case Nothing => []
      case Got(b, next) => [b] + ReadBlocks(c, m, next, n - 1)
  }

  lemma Regroup(a: seq<Byte>, b: seq<Byte>, c: seq<Byte>, d: seq<Byte>)
    ensures a + (b + c) + d == a + b + (c + d) == (a + b) + c + d
  {
  }

  // A whole file is read back: its blocks in their order, and not what comes
  // behind them.
  lemma {:induction false} ReadEncoded(c: Codec, bs: seq<Block>, pre: seq<Byte>, post: seq<Byte>)
    requires Writable(c, bs)
    ensures ReadBlocks(c, pre + EncodeAll(c, bs) + post, |pre|, |bs|) == bs
    decreases |bs|
  {
    if bs != [] {
      assert bs[0] in bs;
      var e, rest := Encode(c, bs[0]), EncodeAll(c, bs[1..]);
      Regroup(pre, e, rest, post);
      DecodeEncoded(c, bs[0], pre, rest + post);
      ReadEncoded(c, bs[1..], pre + e, post);
      ReadOne(c, pre + (e + rest) + post, |pre|, |bs|, bs[0], |pre + e|);
    }
  }

  lemma ReadOne(c: Codec, m: seq<Byte>, at: nat, n: nat, b: Block, next: nat)
    requires 0 < n && Decode(c, m, at) == Got(b, next)
    ensures ReadBlocks(c, m, at, n) == [b] + ReadBlocks(c, m, next, n - 1)
  {
  }

  // nfreader; `terminate` and `closed` say whether, after a number of blocks, the
  // flag has been set and the queue has been closed on the other side. Only these
  // two and the end of ReadBlocks stop it.
  method Nfreader(c: Codec, m: seq<Byte>, numBlocks: nat, terminate: nat -> bool, closed: nat -> bool)
      returns (pushed: seq<Block>)
    ensures pushed <= ReadBlocks(c, m, FILE_HEADER, numBlocks)
    ensures forall k :: 0 <= k < |pushed| ==> !terminate(k) && !closed(k)
    ensures pushed == ReadBlocks(c, m, FILE_HEADER, numBlocks) || terminate(|pushed|) || closed(|pushed|)
  {
    hide Decode;
    ghost var all := ReadBlocks(c, m, FILE_HEADER, numBlocks);
    var blockCount, at: nat := 0, FILE_HEADER;
    var stop := terminate(0);
    pushed := [];
    while !stop && blockCount < numBlocks
      invariant blockCount == |pushed| <= numBlocks && (stop ==> terminate(|pushed|) || closed(|pushed|))
      invariant !stop ==> !terminate(|pushed|)
      invariant forall k :: 0 <= k < |pushed| ==> !terminate(k) && !closed(k)
      invariant pushed + ReadBlocks(c, m, at, numBlocks - blockCount) == all && pushed <= all
      decreases numBlocks - blockCount, !stop
    {
      match Decode(c, m, at)
      case Nothing =>
        return;
      case Got(b, next) =>
        if closed(blockCount) {
          stop := true;
        } else {
          pushed := pushed + [b];
          at := next;
          blockCount := blockCount + 1;
          stop := terminate(blockCount);
        }
    }
  }
}
