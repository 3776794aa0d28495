/**
 The template sequencer of nfxV3.c: a table of field descriptions is compacted
 and then interpreted over an input stream, which builds a V3 record.
 */
module SequencerSpec {
  import opened V3Record

  const VARLENGTH: U16 := 0xFFFF
  const EXnull: U16 := 0

  datatype CopyMode = NumberCopy | ByteCopy

  datatype Sequence = Sequence(
    inputType: U16, inputLength: U16, copyMode: CopyMode,
    extensionID: U16, offsetRel: nat, outputLength: U16, stackID: U16)

  datatype Code = SEQ_OK | SEQ_ERROR | SEQ_MEM_ERR

  // Where a run stands: bytes of input consumed, the output buffer, where each
  // extension's payload starts, the value stack, bytes of output produced.
  datatype State = State(pos: nat, buf: seq<Byte>, cache: map<U16, nat>, stack: map<U16, seq<Byte>>, produced: nat)

  datatype Step = Next(s: State) | Fail(code: Code, s: State)

  function Min(a: nat, b: nat): nat {
    if a < b then a else b
  }

  function Take(mem: seq<Byte>, pos: nat, n: nat): (r: seq<Byte>)
    ensures |r| == n
  {
    seq<Byte>(n, i requires 0 <= i < n => At(mem, pos + i))
  }

  function Zeros(n: nat): (r: seq<Byte>)
    ensures |r| == n
  {
    seq<Byte>(n, _ => 0)
  }

  function Reverse(s: seq<Byte>): (r: seq<Byte>)
    ensures |r| == |s|
  {
    seq<Byte>(|s|, i requires 0 <= i < |s| => s[|s| - 1 - i])
  }

  // The length of a field at `pos`, and where its value starts. A field of
  // variable length says so itself, in one byte or, after a 255, in two.
  function FieldLength(e: Sequence, mem: seq<Byte>, pos: nat): (U16, nat) {
    if e.inputLength != VARLENGTH then
      (e.inputLength, pos)
    else if At(mem, pos) < 255 then
      (At(mem, pos), pos + 1)
    else
      (256 * At(mem, pos + 1) + At(mem, pos + 2), pos + 3)
  }

  // valBuff: a number in network order becomes a little-endian machine word;
  // fields of other lengths are taken as they are.
  function ValBuff(data: seq<Byte>): (r: seq<Byte>)
    requires |data| <= 16
    ensures |r| == 16
  {
    if |data| <= 8 then Reverse(data) + Zeros(16 - |data|)
    else if |data| == 16 then Reverse(data[..8]) + Reverse(data[8..])
    else data + Zeros(16 - |data|)
  }

  // How much of valBuff is stored.
  function StoreLength(inLength: nat, outLength: nat): (n: nat)
    ensures n <= outLength && (inLength <= 16 ==> n <= 16)
  {
    if outLength in {0, 1, 2, 4, 8, 16} then outLength else Min(inLength, outLength)
  }

  function ElementSize(e: Sequence, ext: seq<U16>, inLength: nat): nat
    requires e.extensionID < |ext|
  {
    if e.outputLength == VARLENGTH then ext[e.extensionID] + inLength else ext[e.extensionID]
  }

  // Adds an element to the record: cleared, with its header, and counted.
  function AddElement(s: State, id: U16, size: nat): State {
    var at := Size(s.buf);
    var b := PutElement(s.buf, at, id, size);
    s.(buf := PutHeader(b, (at + size) % 0x1_0000, (NumElements(s.buf) + 1) % 0x1_0000),
       cache := s.cache[id := at + ELEMENT_HEADER], produced := s.produced + size)
  }

  // Input that is passed over.
  predicate IsSkip(e: Sequence) {
    e.extensionID == EXnull && e.stackID == 0
  }

  // Whether the element of this entry is still to be added.
  predicate IsNew(e: Sequence, s: State) {
    e.extensionID != EXnull && e.extensionID !in s.cache
  }

  // Whether the buffer is too small for it.
  predicate NoRoom(e: Sequence, ext: seq<U16>, inLength: nat, s: State)
    requires e.extensionID < |ext|
  {
    IsNew(e, s) && Size(s.buf) + ElementSize(e, ext, inLength) > |s.buf|
  }

  function OpenField(e: Sequence, ext: seq<U16>, inLength: nat, s: State): State
    requires e.extensionID < |ext|
  {
    if IsNew(e, s) then AddElement(s, e.extensionID, ElementSize(e, ext, inLength)) else s
  }

  function OutLength(e: Sequence, inLength: nat, s: State): nat {
    if IsNew(e, s) && e.outputLength == VARLENGTH then inLength else e.outputLength
  }

  // The copy of one field into its element.
  function StoreField(e: Sequence, data: seq<Byte>, outLength: nat, hasStack: bool, s: State): State {
    var at := (if e.extensionID in s.cache then s.cache[e.extensionID] else 0) + e.offsetRel;
    if e.inputLength == VARLENGTH || e.copyMode == ByteCopy || |data| > 16 then
      s.(buf := Poke(s.buf, at, data[..Min(|data|, outLength)]))
    else
      var val := ValBuff(data);
      var n := StoreLength(|data|, outLength);
      s.(stack := if e.stackID != 0 && hasStack then s.stack[e.stackID := val[..8]] else s.stack,
         buf := if n == 0 then s.buf else Poke(s.buf, at, val[..n]))
  }

  // One turn of the loop of SequencerRun.
  function RunEntry(e: Sequence, ext: seq<U16>, mem: seq<Byte>, inSize: nat, hasStack: bool, s: State): Step
    requires |ext| == MAXEXTENSIONS && e.extensionID < MAXEXTENSIONS
  {
    var (inLength, pos) := FieldLength(e, mem, s.pos);
    if pos + inLength > inSize then
      Fail(SEQ_ERROR, s)
    else if IsSkip(e) then
      Next(s.(pos := pos + inLength))
    else if NoRoom(e, ext, inLength, s) then
      Fail(SEQ_MEM_ERR, s)
    else
      var s1 := OpenField(e, ext, inLength, s);
      if inLength == 0 then
        Next(s1.(pos := pos))
      else
        Next(StoreField(e, Take(mem, pos, inLength), OutLength(e, inLength, s), hasStack, s1).(pos := pos + inLength))
  }

  // The loop of SequencerRun over the whole table.
  function RunTable(table: seq<Sequence>, ext: seq<U16>, mem: seq<Byte>, inSize: nat, hasStack: bool, s: State): Step
    requires |ext| == MAXEXTENSIONS && forall e :: e in table ==> e.extensionID < MAXEXTENSIONS
    decreases |table|
  {
    if table == [] then Next(s) else
      match RunEntry(table[0], ext, mem, inSize, hasStack, s)
      case Next(s') => RunTable(table[1..], ext, mem, inSize, hasStack, s')
      case Fail(code, s') => Fail(code, s')
  }

  // ---- What makes a run safe ----------------------------------------------

  // How many bytes of a field are stored.
  function Stored(e: Sequence, inLength: nat, outLength: nat): (n: nat)
    ensures n <= outLength
  {
    if e.inputLength == VARLENGTH || e.copyMode == ByteCopy || inLength > 16 then Min(inLength, outLength)
    else StoreLength(inLength, outLength)
  }

  // A store lies inside the element of its extension, behind the header.
  ghost predicate StoreInside(s: State, id: U16, offset: nat, n: nat) {
    n == 0 || (id != EXnull && id in s.cache && Payload(s.buf, s.cache[id], offset + n + ELEMENT_HEADER))
  }

  // The turn comes as far as its element.
  predicate Proceeds(e: Sequence, ext: seq<U16>, mem: seq<Byte>, inSize: nat, s: State)
    requires e.extensionID < |ext|
  {
    var (inLength, pos) := FieldLength(e, mem, s.pos);
    pos + inLength <= inSize && !IsSkip(e) && !NoRoom(e, ext, inLength, s)
  }

  // A turn is safe if a new element has room for its header, the size of the
  // record can count it, and what is stored lies inside the element it is for.
  ghost predicate SafeTurn(e: Sequence, ext: seq<U16>, mem: seq<Byte>, inSize: nat, s: State)
    requires e.extensionID < |ext|
  {
    Proceeds(e, ext, mem, inSize, s) ==>
      var inLength := FieldLength(e, mem, s.pos).0;
      var size := ElementSize(e, ext, inLength);
      && (IsNew(e, s) ==> ELEMENT_HEADER <= size && Size(s.buf) + size < 0x1_0000)
      && (inLength != 0 ==>
        StoreInside(OpenField(e, ext, inLength, s), e.extensionID, e.offsetRel,
          Stored(e, inLength, OutLength(e, inLength, s))))
  }

  // Every turn of the run is.
  ghost predicate SafeRun(table: seq<Sequence>, ext: seq<U16>, mem: seq<Byte>, inSize: nat, hasStack: bool, s: State)
    requires |ext| == MAXEXTENSIONS && forall e :: e in table ==> e.extensionID < MAXEXTENSIONS
    decreases |table|
  {
    table == [] || (
      && SafeTurn(table[0], ext, mem, inSize, s)
      && var r := RunEntry(table[0], ext, mem, inSize, hasStack, s);
         r.Next? ==> SafeRun(table[1..], ext, mem, inSize, hasStack, r.s))
  }

  // The most that an entry stores into an element that is there already.
  function Most(e: Sequence): nat {
    if e.inputLength == VARLENGTH then e.outputLength
    else if e.inputLength == 0 then 0
    else Stored(e, e.inputLength, e.outputLength)
  }

  // There is room for that in the least element the extension can have.
  predicate HasRoom(e: Sequence, ext: seq<U16>)
    requires e.extensionID < |ext|
  {
    Most(e) == 0 || e.offsetRel + Most(e) + ELEMENT_HEADER <= ext[e.extensionID]
  }

  // An entry fits its extension, of which it is the first one if that is not in
  // `seen`. Output of variable length brings its own room, when it is the first.
  predicate Fitting(e: Sequence, ext: seq<U16>, seen: set<U16>)
    requires e.extensionID < |ext|
  {
    if IsSkip(e) then true
    else if e.extensionID == EXnull then Most(e) == 0
    else if e.extensionID in seen then HasRoom(e, ext)
    else
      && ELEMENT_HEADER <= ext[e.extensionID]
      && (if e.outputLength == VARLENGTH then e.offsetRel + ELEMENT_HEADER <= ext[e.extensionID] else HasRoom(e, ext))
  }

  // The extension an entry has an element for.
  function Element(e: Sequence): set<U16> {
    if e.extensionID == EXnull then {} else {e.extensionID}
  }

  // Every entry fits; those of the extensions in `seen` are not the first ones.
  predicate GoodFrom(table: seq<Sequence>, ext: seq<U16>, seen: set<U16>)
    requires |ext| == MAXEXTENSIONS
  {
    table == [] || (
      && table[0].extensionID < MAXEXTENSIONS && Fitting(table[0], ext, seen)
      && GoodFrom(table[1..], ext, seen + Element(table[0])))
  }

  predicate GoodTable(table: seq<Sequence>, ext: seq<U16>)
    requires |ext| == MAXEXTENSIONS
  {
    GoodFrom(table, ext, {})
  }

  lemma {:induction false} GoodIds(table: seq<Sequence>, ext: seq<U16>, seen: set<U16>)
    requires |ext| == MAXEXTENSIONS && GoodFrom(table, ext, seen)
    ensures forall e :: e in table ==> e.extensionID < MAXEXTENSIONS
  {
    if table != [] {
      GoodIds(table[1..], ext, seen + Element(table[0]));
      assert table == [table[0]] + table[1..];
    }
  }

  // `payload` is where the payload of an element of at least `size` bytes is.
  ghost predicate Payload(b: seq<Byte>, payload: nat, size: nat) {
    && HEADER + ELEMENT_HEADER <= payload
    && HasTile(b, HEADER, NumElements(b), payload - ELEMENT_HEADER)
    && size <= Get16(b, payload - 2)
  }

  // The record is well-formed, and the cache leads to elements of full size.
  ghost predicate Ready(s: State, ext: seq<U16>)
    requires |ext| == MAXEXTENSIONS
  {
    && Wellformed(s.buf)
    && forall id :: id in s.cache ==> id < MAXEXTENSIONS && Payload(s.buf, s.cache[id], ext[id])
  }

  lemma {:induction false} FewTiles(b: seq<Byte>, from: nat, to: nat, n: nat)
    requires Tiled(b, from, to, n)
    ensures ELEMENT_HEADER * n <= to - from
    decreases n
  {
    if 0 < n {
      FewTiles(b, from + Get16(b, from + 2), to, n - 1);
    }
  }

  // The bytes of the record after an element was added: one element more, and
  // the others as they were.
  ghost predicate Grown(b: seq<Byte>, c: seq<Byte>, id: U16, size: nat) {
    && |c| == |b| && Type(c) == Type(b)
    && Size(c) == Size(b) + size && NumElements(c) == NumElements(b) + 1
    && Get16(c, Size(b)) == id && Get16(c, Size(b) + 2) == size
    && forall k: nat {:trigger At(c, k)} :: HEADER <= k < Size(b) ==> At(c, k) == At(b, k)
  }

  // The new element, and then the header.
  lemma GrownInTwoSteps(b: seq<Byte>, c: seq<Byte>, d: seq<Byte>, id: U16, size: nat)
    requires HEADER <= Size(b) && ELEMENT_HEADER <= size
    requires SameBut(b, c, Size(b), size) && Get16(c, Size(b)) == id && Get16(c, Size(b) + 2) == size
    requires SameBut(c, d, 2, 4) && Type(d) == Type(c)
    requires Size(d) == Size(b) + size && NumElements(d) == NumElements(b) + 1
    ensures Grown(b, d, id, size)
  {
    SameGet16(b, c, Size(b), size, 0);
    SameGet16(c, d, 2, 4, Size(b));
    SameGet16(c, d, 2, 4, Size(b) + 2);
    forall k: nat {:trigger At(d, k)} | HEADER <= k < Size(b)
      ensures At(d, k) == At(b, k)
    {
      assert At(d, k) == At(c, k) && At(c, k) == At(b, k);
    }
  }

  lemma AddElementBytes(s: State, id: U16, size: nat)
    requires HEADER <= Size(s.buf) && ELEMENT_HEADER <= size && Size(s.buf) + size <= |s.buf|
      && Size(s.buf) + size < 0x1_0000
    requires NumElements(s.buf) < 0xFFFF
    ensures Grown(s.buf, AddElement(s, id, size).buf, id, size)
  {
    hide PutElement, PutHeader, Grown, At, SameBut;
    var at, n := Size(s.buf), NumElements(s.buf);
    var b := PutElement(s.buf, at, id, size);
    PutElementChanges(s.buf, at, id, size);
    PutHeaderChanges(b, at + size, n + 1);
    GrownInTwoSteps(s.buf, b, PutHeader(b, at + size, n + 1), id, size);
  }

  // The elements that were there are still there, and as long as they were.
  ghost predicate Kept(b: seq<Byte>, c: seq<Byte>) {
    forall p: nat, z: nat :: Payload(b, p, z) ==> 2 <= p && Payload(c, p, z) && Get16(c, p - 2) == Get16(b, p - 2)
  }

  lemma AddElementKeeps(s: State, id: U16, size: nat)
    requires Wellformed(s.buf) && id < MAXEXTENSIONS && ELEMENT_HEADER <= size
    requires Size(s.buf) + size <= |s.buf| && Size(s.buf) + size < 0x1_0000
    ensures var s' := AddElement(s, id, size);
      && Wellformed(s'.buf) && |s'.buf| == |s.buf| && Size(s'.buf) == Size(s.buf) + size && Kept(s.buf, s'.buf)
      && id in s'.cache && Payload(s'.buf, s'.cache[id], size) && Get16(s'.buf, s'.cache[id] - 2) == size
  {
    FewTiles(s.buf, HEADER, Size(s.buf), NumElements(s.buf));
    AddElementBytes(s, id, size);
    GrownRecord(s.buf, AddElement(s, id, size).buf, id, size);
  }

  // A record with one more element behind the last.
  lemma GrownRecord(b: seq<Byte>, c: seq<Byte>, id: U16, size: nat)
    requires Wellformed(b) && ELEMENT_HEADER <= size && Size(b) + size <= |b|
    requires Grown(b, c, id, size) && id < MAXEXTENSIONS
    ensures Wellformed(c) && Payload(c, Size(b) + ELEMENT_HEADER, size) && Kept(b, c)
  {
    var at, n := Size(b), NumElements(b);
    TiledFrame(b, c, HEADER, at, n);
    TiledAppend(c, HEADER, at, n, size);
    forall p: nat, z: nat | Payload(b, p, z)
      ensures Payload(c, p, z) && Get16(c, p - 2) == Get16(b, p - 2)
    {
      TileInside(b, HEADER, at, n, p - ELEMENT_HEADER);
      assert HasTile(c, HEADER, n + 1, p - ELEMENT_HEADER);
    }
  }

  // Writing into the payload of an element.
  lemma PokeKeeps(b: seq<Byte>, at: nat, data: seq<Byte>, payload: nat, size: nat)
    requires Wellformed(b) && Payload(b, payload, size)
    requires payload <= at && at + |data| + ELEMENT_HEADER <= payload + size
    ensures var c := Poke(b, at, data);
      && Wellformed(c) && Size(c) == Size(b) && NumElements(c) == NumElements(b)
      && at + |data| <= Size(b) && Kept(b, c)
  {
    hide Poke;
    PokeChanges(b, at, data);
    InsideKeeps(b, Poke(b, at, data), at, |data|, payload, size);
    forall p: nat, z: nat | Payload(b, p, z)
      ensures Payload(Poke(b, at, data), p, z) && Get16(Poke(b, at, data), p - 2) == Get16(b, p - 2)
    {
      OtherPayload(b, Poke(b, at, data), at, |data|, payload, size, p, z);
    }
  }

  lemma InsideKeeps(b: seq<Byte>, c: seq<Byte>, at: nat, n: nat, payload: nat, size: nat)
    requires Wellformed(b) && Payload(b, payload, size) && SameBut(b, c, at, n)
    requires payload <= at && at + n + ELEMENT_HEADER <= payload + size
    ensures Wellformed(c) && Size(c) == Size(b) && NumElements(c) == NumElements(b) && at + n <= Size(b)
    ensures forall u :: HasTile(b, HEADER, NumElements(b), u) ==> HasTile(c, HEADER, NumElements(c), u)
  {
    var tile := payload - ELEMENT_HEADER;
    TileInside(b, HEADER, Size(b), NumElements(b), tile);
    TiledPayload(b, c, HEADER, Size(b), NumElements(b), tile);
  }

  lemma OtherPayload(b: seq<Byte>, c: seq<Byte>, at: nat, n: nat, payload: nat, size: nat, p: nat, z: nat)
    requires Wellformed(b) && Payload(b, payload, size) && SameBut(b, c, at, n) && Payload(b, p, z)
    requires payload <= at && at + n + ELEMENT_HEADER <= payload + size
    requires HasTile(c, HEADER, NumElements(c), p - ELEMENT_HEADER)
    ensures Payload(c, p, z) && Get16(c, p - 2) == Get16(b, p - 2)
  {
    TilesApart(b, HEADER, Size(b), NumElements(b), payload - ELEMENT_HEADER, p - ELEMENT_HEADER);
    SameGet16(b, c, at, n, p - 2);
  }

  // Two elements are the same or do not overlap.
  lemma {:induction false} TilesApart(b: seq<Byte>, from: nat, to: nat, n: nat, t: nat, u: nat)
    requires Tiled(b, from, to, n) && HasTile(b, from, n, t) && HasTile(b, from, n, u)
    ensures t == u || t + Get16(b, t + 2) <= u || u + Get16(b, u + 2) <= t
    decreases n
  {
    var next := from + Get16(b, from + 2);
    if t == from {
      if u != from {
        TileInside(b, next, to, n - 1, u);
      }
    } else if u == from {
      TileInside(b, next, to, n - 1, t);
    } else {
      TilesApart(b, next, to, n - 1, t, u);
    }
  }

  // What StoreField writes: nothing, or some bytes at the place of the field.
  function Written(e: Sequence, data: seq<Byte>, outLength: nat): (w: seq<Byte>)
    ensures |w| == Stored(e, |data|, outLength)
  {
    if e.inputLength == VARLENGTH || e.copyMode == ByteCopy || |data| > 16 then data[..Min(|data|, outLength)]
    else ValBuff(data)[..StoreLength(|data|, outLength)]
  }

  lemma PokeNothing(b: seq<Byte>, at: nat)
    ensures Poke(b, at, []) == b
  {
  }

  lemma StoreFieldWrites(e: Sequence, data: seq<Byte>, outLength: nat, hasStack: bool, s: State)
    ensures
      var s', at := StoreField(e, data, outLength, hasStack, s),
        (if e.extensionID in s.cache then s.cache[e.extensionID] else 0) + e.offsetRel;
      && s'.cache == s.cache && s'.produced == s.produced
      && s'.buf == Poke(s.buf, at, Written(e, data, outLength))
  {
    var at, w := (if e.extensionID in s.cache then s.cache[e.extensionID] else 0) + e.offsetRel,
      Written(e, data, outLength);
    hide Poke;
    PokeNothing(s.buf, at);
  }

  lemma StoreFieldKeeps(e: Sequence, data: seq<Byte>, outLength: nat, hasStack: bool, s: State)
    requires Wellformed(s.buf) && StoreInside(s, e.extensionID, e.offsetRel, Stored(e, |data|, outLength))
    ensures var s' := StoreField(e, data, outLength, hasStack, s);
      && Wellformed(s'.buf) && |s'.buf| == |s.buf| && Size(s'.buf) == Size(s.buf) && Kept(s.buf, s'.buf)
      && s'.cache == s.cache && s'.produced == s.produced
  {
    hide Wellformed, Payload, Poke, Written;
    StoreFieldWrites(e, data, outLength, hasStack, s);
    var n := Stored(e, |data|, outLength);
    if n == 0 {
      KeptItself(s.buf);
      PokeNothing(s.buf, (if e.extensionID in s.cache then s.cache[e.extensionID] else 0) + e.offsetRel);
    } else {
      var payload := s.cache[e.extensionID];
      PokeKeeps(s.buf, payload + e.offsetRel, Written(e, data, outLength), payload, e.offsetRel + n + ELEMENT_HEADER);
    }
  }

  // ---- Safe runs leave well-formed records ----------------------------------

  // What a turn leaves, when it proceeds.
  lemma TurnResult(e: Sequence, ext: seq<U16>, mem: seq<Byte>, inSize: nat, hasStack: bool, s: State)
    requires |ext| == MAXEXTENSIONS && e.extensionID < MAXEXTENSIONS
    ensures var (inLength, pos) := FieldLength(e, mem, s.pos);
      var r := RunEntry(e, ext, mem, inSize, hasStack, s);
      && (Proceeds(e, ext, mem, inSize, s) ==>
        && pos + inLength <= inSize && !IsSkip(e) && !NoRoom(e, ext, inLength, s)
        && r == Next((if inLength == 0 then OpenField(e, ext, inLength, s)
             else StoreField(e, Take(mem, pos, inLength), OutLength(e, inLength, s), hasStack,
               OpenField(e, ext, inLength, s))).(pos := pos + inLength)))
      && (r.Next? <==> pos + inLength <= inSize && (IsSkip(e) || !NoRoom(e, ext, inLength, s)))
      && (!Proceeds(e, ext, mem, inSize, s) ==>
        r.s == s.(pos := r.s.pos) && (r.Next? ==> IsSkip(e) && s.pos <= r.s.pos == pos + inLength <= inSize))
  {
    hide OpenField, StoreField, NoRoom;
  }

  lemma OpenResult(e: Sequence, ext: seq<U16>, inLength: nat, s: State)
    requires |ext| == MAXEXTENSIONS && e.extensionID < MAXEXTENSIONS
    ensures var s1 := OpenField(e, ext, inLength, s);
      if IsNew(e, s) then s1 == AddElement(s, e.extensionID, ElementSize(e, ext, inLength)) else s1 == s
    ensures var s1 := OpenField(e, ext, inLength, s);
      && s1.pos == s.pos && s1.stack == s.stack && |s1.buf| == |s.buf|
      && s1.produced == s.produced + (if IsNew(e, s) then ElementSize(e, ext, inLength) else 0)
      && s1.cache == if IsNew(e, s) then s.cache[e.extensionID := Size(s.buf) + ELEMENT_HEADER] else s.cache
  {
    hide PutElement, PutHeader;
  }

  // What was opened, and stored into, in a turn that is safe.
  lemma SafeTurnKeeps(e: Sequence, ext: seq<U16>, mem: seq<Byte>, inSize: nat, hasStack: bool, s: State)
    requires |ext| == MAXEXTENSIONS && e.extensionID < MAXEXTENSIONS
    requires Wellformed(s.buf) && SafeTurn(e, ext, mem, inSize, s)
    ensures var r := RunEntry(e, ext, mem, inSize, hasStack, s);
      && Wellformed(r.s.buf) && |r.s.buf| == |s.buf| && Kept(s.buf, r.s.buf)
      && r.s.produced - s.produced == Size(r.s.buf) - Size(s.buf)
      && (r.Next? ==> s.pos <= r.s.pos <= inSize)
    ensures var r := RunEntry(e, ext, mem, inSize, hasStack, s);
      if Proceeds(e, ext, mem, inSize, s) && IsNew(e, s)
      then
        && r.s.cache == s.cache[e.extensionID := Size(s.buf) + ELEMENT_HEADER]
        && var size := ElementSize(e, ext, FieldLength(e, mem, s.pos).0);
           Payload(r.s.buf, Size(s.buf) + ELEMENT_HEADER, size)
             && Get16(r.s.buf, Size(s.buf) + ELEMENT_HEADER - 2) == size
      else r.s.cache == s.cache
  {
    hide Wellformed, Payload, Kept, StoreField, AddElement, NoRoom, RunEntry, Stored;
    TurnResult(e, ext, mem, inSize, hasStack, s);
    KeptItself(s.buf);
    if Proceeds(e, ext, mem, inSize, s) {
      var (inLength, pos) := FieldLength(e, mem, s.pos);
      var s1 := OpenField(e, ext, inLength, s);
      OpenResult(e, ext, inLength, s);
      if IsNew(e, s) {
        NoRoomMeans(e, ext, inLength, s);
        AddElementKeeps(s, e.extensionID, ElementSize(e, ext, inLength));
      }
      if inLength != 0 {
        var data := Take(mem, pos, inLength);
        StoreFieldKeeps(e, data, OutLength(e, inLength, s), hasStack, s1);
        var s2 := StoreField(e, data, OutLength(e, inLength, s), hasStack, s1);
        KeptTwice(s.buf, s1.buf, s2.buf);
        if IsNew(e, s) {
          KeptOne(s1.buf, s2.buf, s1.cache[e.extensionID], ElementSize(e, ext, inLength));
        }
      }
    }
  }

  lemma NoRoomMeans(e: Sequence, ext: seq<U16>, inLength: nat, s: State)
    requires e.extensionID < |ext| && IsNew(e, s)
    ensures NoRoom(e, ext, inLength, s) <==> Size(s.buf) + ElementSize(e, ext, inLength) > |s.buf|
  {
  }

  lemma KeptItself(b: seq<Byte>)
    ensures Kept(b, b)
  {
  }

  lemma KeptTwice(b: seq<Byte>, c: seq<Byte>, d: seq<Byte>)
    requires Kept(b, c) && Kept(c, d)
    ensures Kept(b, d)
  {
    hide Payload;
  }

  lemma KeptOne(b: seq<Byte>, c: seq<Byte>, p: nat, z: nat)
    requires Kept(b, c) && Payload(b, p, z)
    ensures 2 <= p && Payload(c, p, z) && Get16(c, p - 2) == Get16(b, p - 2)
  {
    hide Payload;
  }

  // Whatever the table and the input: a safe run leaves a well-formed record,
  // has consumed no more than there was, and has accounted for every byte it added.
  lemma {:induction false} SafeRunKeeps(table: seq<Sequence>, ext: seq<U16>, mem: seq<Byte>, inSize: nat,
      hasStack: bool, s: State)
    requires |ext| == MAXEXTENSIONS && (forall e :: e in table ==> e.extensionID < MAXEXTENSIONS) && s.pos <= inSize
    requires Wellformed(s.buf) && SafeRun(table, ext, mem, inSize, hasStack, s)
    ensures var r := RunTable(table, ext, mem, inSize, hasStack, s);
      && Wellformed(r.s.buf) && |r.s.buf| == |s.buf| && Kept(s.buf, r.s.buf)
      && r.s.produced - s.produced == Size(r.s.buf) - Size(s.buf)
      && (r.Next? ==> r.s.pos <= inSize)
    decreases |table|
  {
    hide Wellformed, Kept, SafeTurn, RunEntry;
    if table == [] {
      KeptItself(s.buf);
    } else {
      assert table[0] in table;
      SafeTurnKeeps(table[0], ext, mem, inSize, hasStack, s);
      var r := RunEntry(table[0], ext, mem, inSize, hasStack, s);
      if r.Next? {
        SafeRunKeeps(table[1..], ext, mem, inSize, hasStack, r.s);
        KeptTwice(s.buf, r.s.buf, RunTable(table, ext, mem, inSize, hasStack, s).s.buf);
      }
    }
  }

  // ---- Runs of good tables are safe -----------------------------------------

  lemma StoredMost(e: Sequence, inLength: nat)
    requires 0 < inLength && (e.inputLength == VARLENGTH || inLength == e.inputLength)
    ensures Stored(e, inLength, e.outputLength) <= Most(e) && Stored(e, inLength, inLength) <= inLength
  {
  }

  // A field that fits is stored inside its element, once that is open.
  lemma FitsInside(e: Sequence, ext: seq<U16>, inLength: nat, s: State)
    requires |ext| == MAXEXTENSIONS && e.extensionID < MAXEXTENSIONS && Ready(s, ext)
    requires Fitting(e, ext, s.cache.Keys) && !IsSkip(e)
    requires 0 < inLength && (e.inputLength == VARLENGTH || inLength == e.inputLength)
    requires var s1, size := OpenField(e, ext, inLength, s), ElementSize(e, ext, inLength);
      IsNew(e, s) ==> e.extensionID in s1.cache && Payload(s1.buf, s1.cache[e.extensionID], size)
    ensures StoreInside(OpenField(e, ext, inLength, s), e.extensionID, e.offsetRel,
      Stored(e, inLength, OutLength(e, inLength, s)))
  {
    hide AddElement, Stored, Most;
    StoredMost(e, inLength);
  }

  // A turn of an entry that fits is safe exactly if the size of the record can
  // count what it adds, and leaves things ready for the next.
  lemma TurnIsSafe(e: Sequence, ext: seq<U16>, mem: seq<Byte>, inSize: nat, hasStack: bool, s: State)
    requires |ext| == MAXEXTENSIONS && e.extensionID < MAXEXTENSIONS && Ready(s, ext)
    requires Fitting(e, ext, s.cache.Keys)
    ensures var r := RunEntry(e, ext, mem, inSize, hasStack, s);
      && s.produced <= r.s.produced
      && (SafeTurn(e, ext, mem, inSize, s) <==> Size(s.buf) + (r.s.produced - s.produced) < 0x1_0000)
      && (SafeTurn(e, ext, mem, inSize, s) ==>
        && Ready(r.s, ext) && (r.Next? ==> r.s.cache.Keys == s.cache.Keys + Element(e)))
  {
    hide Wellformed, Payload, Kept, StoreField, AddElement, NoRoom, RunEntry, Stored, Fitting, ElementSize;
    var (inLength, pos) := FieldLength(e, mem, s.pos);
    TurnResult(e, ext, mem, inSize, hasStack, s);
    OpenResult(e, ext, inLength, s);
    if Proceeds(e, ext, mem, inSize, s) {
      FitsElement(e, ext, inLength, s);
      StoreFieldProduces(e, Take(mem, pos, inLength), OutLength(e, inLength, s), hasStack,
        OpenField(e, ext, inLength, s));
      if !(IsNew(e, s) && Size(s.buf) + ElementSize(e, ext, inLength) >= 0x1_0000) {
        if IsNew(e, s) {
          NoRoomMeans(e, ext, inLength, s);
          ReadyMeans(s, ext);
          AddElementKeeps(s, e.extensionID, ElementSize(e, ext, inLength));
        }
        if inLength != 0 {
          FitsInside(e, ext, inLength, s);
        }
        assert SafeTurn(e, ext, mem, inSize, s);
      }
    }
    if SafeTurn(e, ext, mem, inSize, s) {
      TurnIsReady(e, ext, mem, inSize, hasStack, s);
    }
  }

  lemma FitsElement(e: Sequence, ext: seq<U16>, inLength: nat, s: State)
    requires e.extensionID < |ext| && Fitting(e, ext, s.cache.Keys) && !IsSkip(e)
    ensures IsNew(e, s) ==> ELEMENT_HEADER <= ext[e.extensionID] <= ElementSize(e, ext, inLength)
    ensures !IsNew(e, s) ==> Element(e) <= s.cache.Keys
    ensures IsNew(e, s) ==> Element(e) == {e.extensionID}
  {
  }

  lemma StoreFieldProduces(e: Sequence, data: seq<Byte>, outLength: nat, hasStack: bool, s: State)
    ensures var s' := StoreField(e, data, outLength, hasStack, s);
      s'.produced == s.produced && s'.cache == s.cache && |s'.buf| == |s.buf|
  {
  }

  lemma ReadyMeans(s: State, ext: seq<U16>)
    requires |ext| == MAXEXTENSIONS && Ready(s, ext)
    ensures Wellformed(s.buf)
  {
  }

  // After a safe turn the elements still have the sizes of their extensions.
  lemma TurnIsReady(e: Sequence, ext: seq<U16>, mem: seq<Byte>, inSize: nat, hasStack: bool, s: State)
    requires |ext| == MAXEXTENSIONS && e.extensionID < MAXEXTENSIONS && Ready(s, ext)
    requires Fitting(e, ext, s.cache.Keys) && SafeTurn(e, ext, mem, inSize, s)
    ensures var r := RunEntry(e, ext, mem, inSize, hasStack, s);
      Ready(r.s, ext) && (r.Next? ==> r.s.cache.Keys == s.cache.Keys + Element(e))
  {
    hide Wellformed, Payload, StoreField, AddElement, NoRoom, RunEntry, Stored, Fitting, ElementSize, SafeTurn;
    var r := RunEntry(e, ext, mem, inSize, hasStack, s);
    SafeTurnKeeps(e, ext, mem, inSize, hasStack, s);
    TurnResult(e, ext, mem, inSize, hasStack, s);
    if !IsSkip(e) {
      FitsElement(e, ext, FieldLength(e, mem, s.pos).0, s);
    }
    forall id | id in r.s.cache
      ensures id < MAXEXTENSIONS && Payload(r.s.buf, r.s.cache[id], ext[id])
    {
      if id in s.cache && r.s.cache[id] == s.cache[id] {
        KeptOne(s.buf, r.s.buf, s.cache[id], ext[id]);
      } else {
        Shorter(r.s.buf, r.s.cache[id], ElementSize(e, ext, FieldLength(e, mem, s.pos).0), ext[id]);
      }
    }
  }

  lemma Shorter(b: seq<Byte>, p: nat, z: nat, y: nat)
    requires Payload(b, p, z) && y <= z
    ensures Payload(b, p, y)
  {
  }

  lemma {:induction false} ProducedGrows(table: seq<Sequence>, ext: seq<U16>, mem: seq<Byte>, inSize: nat,
      hasStack: bool, s: State)
    requires |ext| == MAXEXTENSIONS && forall e :: e in table ==> e.extensionID < MAXEXTENSIONS
    ensures s.produced <= RunTable(table, ext, mem, inSize, hasStack, s).s.produced
    decreases |table|
  {
    if table != [] {
      hide OpenField, StoreField, RunEntry;
      var e := table[0];
      assert e in table;
      var (inLength, pos) := FieldLength(e, mem, s.pos);
      TurnResult(e, ext, mem, inSize, hasStack, s);
      OpenResult(e, ext, inLength, s);
      StoreFieldProduces(e, Take(mem, pos, inLength), OutLength(e, inLength, s), hasStack,
        OpenField(e, ext, inLength, s));
      var r := RunEntry(e, ext, mem, inSize, hasStack, s);
      if r.Next? {
        ProducedGrows(table[1..], ext, mem, inSize, hasStack, r.s);
      }
    }
  }

  // The main result, for every input and every buffer: a run over a good table
  // is safe if and only if the 16 bits of the record's size can count all that
  // it adds. Then it leaves a well-formed record and has accounted for every
  // byte; otherwise the size has wrapped.
  lemma {:induction false} RunTableKeeps(table: seq<Sequence>, ext: seq<U16>, mem: seq<Byte>, inSize: nat,
      hasStack: bool, s: State)
    requires |ext| == MAXEXTENSIONS && Ready(s, ext) && GoodFrom(table, ext, s.cache.Keys) && s.pos <= inSize
    ensures forall e :: e in table ==> e.extensionID < MAXEXTENSIONS
    ensures var r := RunTable(table, ext, mem, inSize, hasStack, s);
      && s.produced <= r.s.produced
      && (SafeRun(table, ext, mem, inSize, hasStack, s) <==> Size(s.buf) + (r.s.produced - s.produced) < 0x1_0000)
      && (SafeRun(table, ext, mem, inSize, hasStack, s) ==>
        && Wellformed(r.s.buf) && |r.s.buf| == |s.buf| && Size(r.s.buf) == Size(s.buf) + (r.s.produced - s.produced)
        && (r.Next? ==> r.s.pos <= inSize))
    decreases |table|
  {
    hide Wellformed, SafeTurn, RunEntry, Fitting, Kept;
    GoodIds(table, ext, s.cache.Keys);
    ReadyMeans(s, ext);
    if table != [] {
      var e := table[0];
      TurnIsSafe(e, ext, mem, inSize, hasStack, s);
      ProducedGrows(table, ext, mem, inSize, hasStack, s);
      var r := RunEntry(e, ext, mem, inSize, hasStack, s);
      if r.Next? {
        ProducedGrows(table[1..], ext, mem, inSize, hasStack, r.s);
        if SafeTurn(e, ext, mem, inSize, s) {
          SafeTurnKeeps(e, ext, mem, inSize, hasStack, s);
          RunTableKeeps(table[1..], ext, mem, inSize, hasStack, r.s);
        }
      }
    }
    if SafeRun(table, ext, mem, inSize, hasStack, s) {
      SafeRunKeeps(table, ext, mem, inSize, hasStack, s);
    }
  }

  // What the elements take that are not there yet, without variable output.
  function Need(table: seq<Sequence>, ext: seq<U16>, seen: set<U16>): nat
    requires forall e :: e in table ==> e.extensionID < |ext|
  {
    if table == [] then 0 else
      var e := table[0];
      assert e in table;
      (if e.extensionID == EXnull || e.extensionID in seen then 0 else ext[e.extensionID])
      + Need(table[1..], ext, seen + Element(e))
  }

  // A turn adds no more to the record than its element takes and the input gives.
  lemma TurnAdds(e: Sequence, ext: seq<U16>, mem: seq<Byte>, inSize: nat, hasStack: bool, s: State)
    requires |ext| == MAXEXTENSIONS && e.extensionID < MAXEXTENSIONS && s.pos <= inSize
    ensures var r := RunEntry(e, ext, mem, inSize, hasStack, s);
      && (r.Next? ==> s.pos <= r.s.pos <= inSize)
      && s.produced <= r.s.produced
      && Size(s.buf) + (r.s.produced - s.produced) <= (if |s.buf| < Size(s.buf) then Size(s.buf) else |s.buf|)
      && r.s.produced - s.produced <=
           (if e.extensionID == EXnull || e.extensionID in s.cache then 0 else ext[e.extensionID])
           + (if r.Next? then r.s.pos - s.pos else 0)
  {
    hide OpenField, StoreField, RunEntry;
    var (inLength, pos) := FieldLength(e, mem, s.pos);
    TurnResult(e, ext, mem, inSize, hasStack, s);
    OpenResult(e, ext, inLength, s);
    StoreFieldProduces(e, Take(mem, pos, inLength), OutLength(e, inLength, s), hasStack,
      OpenField(e, ext, inLength, s));
  }

  // So a caller can tell before a run that it will be safe: the buffer is not
  // larger than the size can count, or the record, all elements and the input
  // together are not.
  predicate Roomy(table: seq<Sequence>, ext: seq<U16>, inSize: nat, s: State)
    requires forall e :: e in table ==> e.extensionID < |ext|
  {
    |s.buf| < 0x1_0000 || Size(s.buf) + Need(table, ext, s.cache.Keys) + (inSize - s.pos) < 0x1_0000
  }

  lemma {:induction false} RoomyIsSafe(table: seq<Sequence>, ext: seq<U16>, mem: seq<Byte>, inSize: nat, hasStack: bool,
      s: State)
    requires |ext| == MAXEXTENSIONS && (forall e :: e in table ==> e.extensionID < MAXEXTENSIONS) && s.pos <= inSize
    requires Ready(s, ext) && GoodFrom(table, ext, s.cache.Keys) && Roomy(table, ext, inSize, s)
    ensures SafeRun(table, ext, mem, inSize, hasStack, s)
    decreases |table|
  {
    hide Wellformed, SafeTurn, RunEntry, Fitting, Kept;
    ReadyMeans(s, ext);
    WellformedFits(s.buf);
    if table != [] {
      var e := table[0];
      assert e in table;
      TurnIsSafe(e, ext, mem, inSize, hasStack, s);
      TurnAdds(e, ext, mem, inSize, hasStack, s);
      SafeTurnKeeps(e, ext, mem, inSize, hasStack, s);
      var r := RunEntry(e, ext, mem, inSize, hasStack, s);
      if r.Next? {
        RoomyIsSafe(table[1..], ext, mem, inSize, hasStack, r.s);
      }
    }
  }

  lemma WellformedFits(b: seq<Byte>)
    requires Wellformed(b)
    ensures Size(b) <= |b|
  {
  }

  // ---- No run leaves its buffer ---------------------------------------------

  // The cache leads to places with room for the elements.
  ghost predicate Placed(s: State, ext: seq<U16>)
    requires |ext| == MAXEXTENSIONS
  {
    forall id :: id in s.cache ==>
      id < MAXEXTENSIONS && ELEMENT_HEADER <= s.cache[id] && s.cache[id] - ELEMENT_HEADER + ext[id] <= |s.buf|
  }

  // Whatever the record and its size: what an entry that fits opens and stores
  // is inside the buffer.
  lemma FieldInBuffer(e: Sequence, ext: seq<U16>, inLength: nat, s: State)
    requires |ext| == MAXEXTENSIONS && e.extensionID < MAXEXTENSIONS && Placed(s, ext)
    requires Fitting(e, ext, s.cache.Keys) && !IsSkip(e) && !NoRoom(e, ext, inLength, s)
    ensures var s1 := OpenField(e, ext, inLength, s);
      && Placed(s1, ext) && |s1.buf| == |s.buf| && s1.cache.Keys == s.cache.Keys + Element(e)
      && (0 < inLength && (e.inputLength == VARLENGTH || inLength == e.inputLength) ==>
        var n := Stored(e, inLength, OutLength(e, inLength, s));
        n == 0 || (e.extensionID in s1.cache && s1.cache[e.extensionID] + e.offsetRel + n <= |s.buf|))
  {
    hide AddElement, Stored, Most;
    OpenResult(e, ext, inLength, s);
    if 0 < inLength && (e.inputLength == VARLENGTH || inLength == e.inputLength) {
      StoredMost(e, inLength);
    }
  }

  lemma TurnIsPlaced(e: Sequence, ext: seq<U16>, mem: seq<Byte>, inSize: nat, hasStack: bool, s: State)
    requires |ext| == MAXEXTENSIONS && e.extensionID < MAXEXTENSIONS && Placed(s, ext)
    requires Fitting(e, ext, s.cache.Keys)
    ensures var r := RunEntry(e, ext, mem, inSize, hasStack, s);
      |r.s.buf| == |s.buf| && (r.Next? ==> Placed(r.s, ext) && r.s.cache.Keys == s.cache.Keys + Element(e))
  {
    hide OpenField, StoreField, RunEntry, NoRoom, Fitting;
    var (inLength, pos) := FieldLength(e, mem, s.pos);
    TurnResult(e, ext, mem, inSize, hasStack, s);
    if Proceeds(e, ext, mem, inSize, s) {
      FieldInBuffer(e, ext, inLength, s);
      StoreFieldProduces(e, Take(mem, pos, inLength), OutLength(e, inLength, s), hasStack,
        OpenField(e, ext, inLength, s));
    }
  }

  // ---- What is read ---------------------------------------------------------

  // The place behind the last byte a turn looks at: of the length, and of the
  // value if it is all there.
  function LookedAt(e: Sequence, mem: seq<Byte>, inSize: nat, pos: nat): nat {
    var (inLength, start) := FieldLength(e, mem, pos);
    if start + inLength <= inSize then start + inLength else start
  }

  // A turn looks at bytes behind the end of the input if and only if a length
  // is to be read there, or does not end there; then it fails and changes nothing.
  lemma ReadsBehind(e: Sequence, ext: seq<U16>, mem: seq<Byte>, inSize: nat, hasStack: bool, s: State)
    requires |ext| == MAXEXTENSIONS && e.extensionID < MAXEXTENSIONS && s.pos <= inSize
    ensures LookedAt(e, mem, inSize, s.pos) > inSize <==>
      e.inputLength == VARLENGTH && (s.pos == inSize || (At(mem, s.pos) == 255 && inSize < s.pos + 3))
    ensures LookedAt(e, mem, inSize, s.pos) > inSize ==>
      RunEntry(e, ext, mem, inSize, hasStack, s) == Fail(SEQ_ERROR, s)
  {
  }

  lemma LooksNoFurther(e: Sequence, ext: seq<U16>, mem: seq<Byte>, mem': seq<Byte>, inSize: nat, hasStack: bool,
      s: State)
    requires |ext| == MAXEXTENSIONS && e.extensionID < MAXEXTENSIONS
    requires forall i: nat :: i < LookedAt(e, mem, inSize, s.pos) ==> At(mem, i) == At(mem', i)
    ensures RunEntry(e, ext, mem, inSize, hasStack, s) == RunEntry(e, ext, mem', inSize, hasStack, s)
  {
    var (inLength, pos) := FieldLength(e, mem, s.pos);
    assert FieldLength(e, mem', s.pos) == (inLength, pos);
    if pos + inLength <= inSize {
      assert Take(mem, pos, inLength) == Take(mem', pos, inLength);
    }
  }

  // Bytes behind the end of the input have no influence, although the length
  // of a field is read before the end is checked.
  lemma {:induction false} BeyondInputIrrelevant(table: seq<Sequence>, ext: seq<U16>, mem: seq<Byte>, mem': seq<Byte>,
                                                 inSize: nat, hasStack: bool, s: State)
    requires |ext| == MAXEXTENSIONS && forall e :: e in table ==> e.extensionID < MAXEXTENSIONS
    requires forall i: nat :: i < inSize ==> At(mem, i) == At(mem', i)
    requires s.pos <= inSize
    ensures RunTable(table, ext, mem, inSize, hasStack, s) == RunTable(table, ext, mem', inSize, hasStack, s)
    decreases |table|
  {
    if table != [] {
      var e := table[0];
      var (inLength, pos) := FieldLength(e, mem, s.pos);
      if pos + inLength <= inSize {
        assert FieldLength(e, mem', s.pos) == (inLength, pos);
        assert Take(mem, pos, inLength) == Take(mem', pos, inLength);
      }
      assert RunEntry(e, ext, mem, inSize, hasStack, s) == RunEntry(e, ext, mem', inSize, hasStack, s);
      match RunEntry(e, ext, mem, inSize, hasStack, s)
      case Fail(_, _) =>
      case Next(s') =>
        BeyondInputIrrelevant(table[1..], ext, mem, mem', inSize, hasStack, s');
    }
  }

  // Section 7 of RFC 7011: lengths below 255 take one byte, or three; others
  // take three.
  function EncodeLength(n: U16, long: bool): (r: seq<Byte>)
    requires n < 255 || long
  {
    if long then [255, n / 256, n % 256] else [n]
  }

  // The code of a length stands at `pos`.
  predicate HasLength(mem: seq<Byte>, pos: nat, n: U16, long: bool) {
    && (n < 255 || long) && pos + |EncodeLength(n, long)| <= |mem|
    && mem[pos..pos + |EncodeLength(n, long)|] == EncodeLength(n, long)
  }

  lemma LengthRoundTrip(e: Sequence, mem: seq<Byte>, pos: nat, n: U16, long: bool)
    requires e.inputLength == VARLENGTH && HasLength(mem, pos, n, long)
    ensures FieldLength(e, mem, pos) == (n, pos + |EncodeLength(n, long)|)
  {
    var c := EncodeLength(n, long);
    assert forall i :: 0 <= i < |c| ==> mem[pos + i] == mem[pos..pos + |c|][i] == c[i];
    assert At(mem, pos) == c[0];
    assert long ==> At(mem, pos + 1) == c[1] && At(mem, pos + 2) == c[2];
  }
}
