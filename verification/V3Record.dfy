/**
 The V3 flow record of nfxV3.h as bytes in memory: a 12-byte header followed
 by elements, each with a 4-byte header of its own. Numbers in the record are
 little-endian.
 */
module V3Record {

  type Byte = x: int | 0 <= x < 256
  type U16 = x: int | 0 <= x < 0x1_0000

  const V3RECORD: U16 := 11
  const HEADER: nat := 12
  const ELEMENT_HEADER: nat := 4
  const MAXEXTENSIONS: nat := 43

  // A byte of memory; what lies behind the known bytes reads as 0.
  function At(b: seq<Byte>, i: nat): Byte {
    if i < |b| then b[i] else 0
  }

  function Get16(b: seq<Byte>, i: nat): U16 {
    At(b, i) + 256 * At(b, i + 1)
  }

  function Put16(b: seq<Byte>, i: nat, v: U16): (r: seq<Byte>)
    ensures |r| == |b|
  {
    if i + 1 < |b| then b[i := v % 256][i + 1 := v / 256] else b
  }

  // memcpy into the buffer. Callers stay inside; a copy that does not is not
  // carried out here.
  function Poke(b: seq<Byte>, at: nat, data: seq<Byte>): (r: seq<Byte>)
    ensures |r| == |b|
  {
    if at + |data| <= |b| then b[..at] + data + b[at + |data|..] else b
  }

  // The two buffers agree but for `n` bytes from `at` on.
  ghost predicate SameBut(b: seq<Byte>, c: seq<Byte>, at: nat, n: nat) {
    |b| == |c| && forall k: nat {:trigger At(c, k)} :: k < at || at + n <= k ==> At(c, k) == At(b, k)
  }

  lemma SameGet16(b: seq<Byte>, c: seq<Byte>, at: nat, n: nat, i: nat)
    requires SameBut(b, c, at, n) && (i + 2 <= at || at + n <= i)
    ensures Get16(c, i) == Get16(b, i)
  {
  }

  lemma PokeChanges(b: seq<Byte>, at: nat, data: seq<Byte>)
    ensures SameBut(b, Poke(b, at, data), at, |data|)
  {
  }

  lemma Put16Changes(b: seq<Byte>, i: nat, v: U16)
    ensures SameBut(b, Put16(b, i, v), i, 2)
    ensures i + 1 < |b| ==> Get16(Put16(b, i, v), i) == v
  {
  }

  function Type(b: seq<Byte>): U16 { Get16(b, 0) }
  function Size(b: seq<Byte>): U16 { Get16(b, 2) }
  function NumElements(b: seq<Byte>): U16 { Get16(b, 4) }

  // The header of the record, brought up to date.
  function PutHeader(b: seq<Byte>, size: U16, numElements: U16): (r: seq<Byte>)
    ensures |r| == |b|
  {
    Put16(Put16(b, 2, size), 4, numElements)
  }

  lemma PutHeaderChanges(b: seq<Byte>, size: U16, numElements: U16)
    requires HEADER <= |b|
    ensures var r := PutHeader(b, size, numElements);
      && SameBut(b, r, 2, 4) && Type(r) == Type(b) && Size(r) == size && NumElements(r) == numElements
  {
    var c := Put16(b, 2, size);
    Put16Changes(b, 2, size);
    Put16Changes(c, 4, numElements);
    var r := Put16(c, 4, numElements);
    assert Get16(c, 0) == Get16(b, 0) && Get16(r, 0) == Get16(c, 0) && Get16(r, 2) == Get16(c, 2);
  }

  // A cleared element with its header.
  function PutElement(b: seq<Byte>, at: nat, id: U16, size: nat): (r: seq<Byte>)
    ensures |r| == |b|
  {
    Put16(Put16(Poke(b, at, seq<Byte>(size, _ => 0)), at, id), at + 2, size % 0x1_0000)
  }

  lemma PutElementChanges(b: seq<Byte>, at: nat, id: U16, size: nat)
    requires ELEMENT_HEADER <= size < 0x1_0000 && at + size <= |b|
    ensures var r := PutElement(b, at, id, size);
      SameBut(b, r, at, size) && Get16(r, at) == id && Get16(r, at + 2) == size
  {
    var zeros := seq<Byte>(size, _ => 0);
    var c := Poke(b, at, zeros);
    var d := Put16(c, at, id);
    PokeChanges(b, at, zeros);
    Put16Changes(c, at, id);
    Put16Changes(d, at + 2, size);
    assert Get16(PutElement(b, at, id, size), at) == Get16(d, at);
  }

  // Exactly `n` elements fill the bytes from `from` to `to`.
  ghost predicate Tiled(b: seq<Byte>, from: nat, to: nat, n: nat)
    decreases n
  {
    if n == 0 then from == to else
      var len := Get16(b, from + 2);
      && ELEMENT_HEADER <= len && from + len <= to
      && Get16(b, from) < MAXEXTENSIONS
      && Tiled(b, from + len, to, n - 1)
  }

  // One of the `n` elements from `from` on starts at `at`.
  ghost predicate HasTile(b: seq<Byte>, from: nat, n: nat, at: nat)
    decreases n
  {
    0 < n && (at == from || HasTile(b, from + Get16(b, from + 2), n - 1, at))
  }

  // A well-formed record: tiled by its elements, inside its buffer.
  ghost predicate Wellformed(b: seq<Byte>) {
    && Type(b) == V3RECORD && HEADER <= Size(b) <= |b|
    && Tiled(b, HEADER, Size(b), NumElements(b))
  }

  lemma {:induction false} TileInside(b: seq<Byte>, from: nat, to: nat, n: nat, at: nat)
    requires Tiled(b, from, to, n) && HasTile(b, from, n, at)
    ensures from <= at && ELEMENT_HEADER <= Get16(b, at + 2) && at + Get16(b, at + 2) <= to
    decreases n
  {
    if at != from {
      TileInside(b, from + Get16(b, from + 2), to, n - 1, at);
    }
  }

  // Only the bytes from `from` to `to` matter.
  lemma {:induction false} TiledFrame(b: seq<Byte>, c: seq<Byte>, from: nat, to: nat, n: nat)
    requires Tiled(b, from, to, n)
    requires forall k: nat :: from <= k < to ==> At(c, k) == At(b, k)
    ensures Tiled(c, from, to, n)
    ensures forall at :: HasTile(b, from, n, at) ==> HasTile(c, from, n, at)
    decreases n
  {
    if 0 < n {
      assert Get16(c, from + 2) == Get16(b, from + 2) && Get16(c, from) == Get16(b, from);
      TiledFrame(b, c, from + Get16(b, from + 2), to, n - 1);
    }
  }

  // A change behind the header of one element disturbs no other.
  lemma {:induction false} TiledPayload(b: seq<Byte>, c: seq<Byte>, from: nat, to: nat, n: nat, at: nat)
    requires Tiled(b, from, to, n) && HasTile(b, from, n, at)
    requires forall k: nat :: k < at + ELEMENT_HEADER || at + Get16(b, at + 2) <= k ==> At(c, k) == At(b, k)
    ensures Tiled(c, from, to, n)
    ensures forall u :: HasTile(b, from, n, u) ==> HasTile(c, from, n, u)
    decreases n
  {
    var len := Get16(b, from + 2);
    if at == from {
      assert Get16(c, from + 2) == len && Get16(c, from) == Get16(b, from);
      TiledFrame(b, c, from + len, to, n - 1);
    } else {
      TileInside(b, from + len, to, n - 1, at);
      assert Get16(c, from + 2) == len && Get16(c, from) == Get16(b, from);
      TiledPayload(b, c, from + len, to, n - 1, at);
    }
  }

  // Another element at the end.
  lemma {:induction false} TiledAppend(b: seq<Byte>, from: nat, to: nat, n: nat, len: nat)
    requires Tiled(b, from, to, n)
    requires Get16(b, to + 2) == len && ELEMENT_HEADER <= len && Get16(b, to) < MAXEXTENSIONS
    ensures Tiled(b, from, to + len, n + 1) && HasTile(b, from, n + 1, to)
    ensures forall at :: HasTile(b, from, n, at) ==> HasTile(b, from, n + 1, at)
    decreases n
  {
    if 0 < n {
      TiledAppend(b, from + Get16(b, from + 2), to, n - 1, len);
    }
  }

  // What VerifyV3Record checks from the i-th element on, with `rlen` bytes left.
  ghost predicate Checked(b: seq<Byte>, at: nat, rlen: int, n: nat)
    decreases n
  {
    if n == 0 then rlen == 0 else
      && Get16(b, at + 2) <= rlen && Get16(b, at) < MAXEXTENSIONS
      && Checked(b, at + Get16(b, at + 2), rlen - Get16(b, at + 2), n - 1)
  }

  // VerifyV3Record.
  method VerifyV3Record(b: seq<Byte>) returns (ok: bool)
    ensures ok <==> Type(b) == V3RECORD && HEADER <= Size(b) && Checked(b, HEADER, Size(b) - HEADER, NumElements(b))
  {
    if Type(b) != V3RECORD {
      return false;
    }
    if Size(b) < HEADER {
      return false;
    }
    var rlen: int := Size(b) - HEADER;
    var elementHeader: nat := HEADER;
    var cnt := 0;
    while cnt < NumElements(b)
      invariant cnt <= NumElements(b) && 0 <= rlen
      invariant Checked(b, HEADER, Size(b) - HEADER, NumElements(b)) <==>
        Checked(b, elementHeader, rlen, NumElements(b) - cnt)
    {
      var length, typ := Get16(b, elementHeader + 2), Get16(b, elementHeader);
      if length > rlen {
        return false;
      }
      if typ >= MAXEXTENSIONS {
        return false;
      }
      rlen := rlen - length;
      cnt := cnt + 1;
      elementHeader := elementHeader + length;
    }
    return rlen == 0 && cnt == NumElements(b);
  }

  // Every element can hold its own header.
  ghost predicate NoShortTile(b: seq<Byte>, at: nat, n: nat) {
    forall u: nat :: HasTile(b, at, n, u) ==> ELEMENT_HEADER <= Get16(b, u + 2)
  }

  lemma {:induction false} TiledIsChecked(b: seq<Byte>, at: nat, to: nat, n: nat)
    requires at <= to && Tiled(b, at, to, n)
    ensures Checked(b, at, to - at, n)
    decreases n
  {
    if 0 < n {
      TiledIsChecked(b, at + Get16(b, at + 2), to, n - 1);
    }
  }

  lemma {:induction false} CheckedIsTiled(b: seq<Byte>, at: nat, to: nat, n: nat)
    requires at <= to && Checked(b, at, to - at, n) && NoShortTile(b, at, n)
    ensures Tiled(b, at, to, n)
    decreases n
  {
    if 0 < n {
      var next, m := at + Get16(b, at + 2), n - 1;
      assert HasTile(b, at, n, at);
      forall u: nat | HasTile(b, next, m, u)
        ensures ELEMENT_HEADER <= Get16(b, u + 2)
      {
        assert HasTile(b, at, n, u);
      }
      CheckedIsTiled(b, next, to, m);
    }
  }

  // VerifyV3Record accepts exactly the well-formed records, and besides only
  // records with an element too short for its own header.
  lemma VerifiedIsWellformed(b: seq<Byte>)
    requires Type(b) == V3RECORD && HEADER <= Size(b) <= |b|
    ensures Wellformed(b) <==>
      Checked(b, HEADER, Size(b) - HEADER, NumElements(b)) && NoShortTile(b, HEADER, NumElements(b))
  {
    if Wellformed(b) {
      TiledIsChecked(b, HEADER, Size(b), NumElements(b));
      forall u: nat | HasTile(b, HEADER, NumElements(b), u)
        ensures ELEMENT_HEADER <= Get16(b, u + 2)
      {
        TileInside(b, HEADER, Size(b), NumElements(b), u);
      }
    } else if Checked(b, HEADER, Size(b) - HEADER, NumElements(b)) && NoShortTile(b, HEADER, NumElements(b)) {
      CheckedIsTiled(b, HEADER, Size(b), NumElements(b));
    }
  }

  // Such a record: one element, of which the two bytes that count are the
  // first half of its header.
  lemma ShortElementAccepted() returns (b: seq<Byte>)
    ensures b == [11, 0, 14, 0, 1, 0, 0, 0, 0, 0, 0, 0, 1, 0, 2, 0]
    ensures Type(b) == V3RECORD && HEADER <= Size(b) <= |b|
    ensures Checked(b, HEADER, Size(b) - HEADER, NumElements(b)) && !Wellformed(b)
  {
    b := [11, 0, 14, 0, 1, 0, 0, 0, 0, 0, 0, 0, 1, 0, 2, 0];
    assert Get16(b, 12) == 1 && Get16(b, 14) == 2 && NumElements(b) == 1 && Size(b) == 14;
    assert Checked(b, 14, 0, 0);
  }
}
