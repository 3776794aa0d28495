/**
 Exactly when the runs of a table are safe: which tables it holds for whatever
 the input, and what the 16 bits of a record's size have to do with it.
 */
module SequencerSafety {
  import opened V3Record
  import opened SequencerSpec
  import opened SequencerTable

  // ---- When the size wraps --------------------------------------------------

  lemma {:induction false} NotTiledBelow(b: seq<Byte>, from: nat, to: nat, n: nat, below: nat)
    requires Tiled(b, from, to, n) && below < to
    ensures !Tiled(b, from, below, n + 1)
    decreases n
  {
    if 0 < n {
      NotTiledBelow(b, from + Get16(b, from + 2), to, n - 1, below);
    }
  }

  // Without an overflow of its size, a new element is in a well-formed record
  // and as long as it should be; with one, it never is.
  lemma WrapsExactly(s: State, id: U16, size: nat)
    requires Wellformed(s.buf) && id < MAXEXTENSIONS && ELEMENT_HEADER <= size && Size(s.buf) + size <= |s.buf|
    ensures var s' := AddElement(s, id, size);
      Wellformed(s'.buf) && Payload(s'.buf, Size(s.buf) + ELEMENT_HEADER, size) <==> Size(s.buf) + size < 0x1_0000
  {
    if Size(s.buf) + size < 0x1_0000 {
      AddElementKeeps(s, id, size);
    } else if size < 0x1_0000 {
      Wrapped(s, id, size);
    }
  }

  lemma Wrapped(s: State, id: U16, size: nat)
    requires Wellformed(s.buf) && ELEMENT_HEADER <= size < 0x1_0000 <= Size(s.buf) + size <= |s.buf|
    ensures !Wellformed(AddElement(s, id, size).buf)
  {
    hide PutElement, PutHeader, Tiled, At;
    var at: nat, n: int := Size(s.buf), NumElements(s.buf);
    FewTiles(s.buf, HEADER, at, n);
    var b, below: nat := PutElement(s.buf, at, id, size), at + size - 0x1_0000;
    var c := PutHeader(b, below, n + 1);
    PutElementChanges(s.buf, at, id, size);
    PutHeaderChanges(b, below, n + 1);
    forall k: nat | HEADER <= k < at
      ensures At(c, k) == At(s.buf, k)
    {
      assert At(c, k) == At(b, k) && At(b, k) == At(s.buf, k);
    }
    TiledFrame(s.buf, c, HEADER, at, n);
    NotTiledBelow(c, HEADER, at, n, below);
  }

  const NBAR: Sequence := Sequence(95, VARLENGTH, ByteCopy, 27, 0, VARLENGTH, 0)
  const FLOW: Sequence := Sequence(1, 0, NumberCopy, 1, 24, 8, 0)

  // A good table, and an input that wraps the size: in a buffer that is large
  // enough, an element of 52 bytes and one of 65476 make a record of size 4.
  lemma LargeBufferWraps(ext: seq<U16>, b: seq<Byte>)
    requires |ext| == MAXEXTENSIONS && ext[1] == 52 && ext[27] == 4
    requires Wellformed(b) && Size(b) == HEADER && NumElements(b) == 0 && 65540 <= |b|
    ensures GoodTable([FLOW, NBAR], ext)
    ensures var r := RunTable([FLOW, NBAR], ext, [255, 255, 192] + Zeros(65472), 65475, false,
      State(0, b, map[], map[], 0));
      r.Next? && r.s.pos == 65475 && r.s.produced == 65528 && Size(r.s.buf) == 4 && !Wellformed(r.s.buf)
  {
    hide Wellformed, AddElement, StoreField, RunEntry, Zeros;
    var t, mem, s0 := [FLOW, NBAR], [255, 255, 192] + Zeros(65472), State(0, b, map[], map[], 0);
    LargeIsGood(ext);
    var s1 := FirstLarge(ext, mem, s0);
    var s2 := SecondLarge(ext, mem, s1);
    assert t[1..] == [NBAR] && t[1..][1..] == [];
    assert RunTable([NBAR], ext, mem, 65475, false, s1) == RunTable([], ext, mem, 65475, false, s2);
    TooSmall(s2.buf);
  }

  lemma LargeIsGood(ext: seq<U16>)
    requires |ext| == MAXEXTENSIONS && ext[1] == 52 && ext[27] == 4
    ensures GoodTable([FLOW, NBAR], ext)
  {
    var t := [FLOW, NBAR];
    assert t[1..] == [NBAR] && t[1..][1..] == [];
    assert GoodFrom([], ext, {} + Element(FLOW) + Element(NBAR));
    assert GoodFrom([NBAR], ext, {} + Element(FLOW));
  }

  lemma TooSmall(b: seq<Byte>)
    requires Size(b) == 4
    ensures !Wellformed(b)
  {
  }

  lemma FirstLarge(ext: seq<U16>, mem: seq<Byte>, s: State) returns (r: State)
    requires |ext| == MAXEXTENSIONS && ext[1] == 52 && s.pos == s.produced == 0 && s.cache == map[]
    requires Size(s.buf) == HEADER && NumElements(s.buf) == 0 && 65540 <= |s.buf|
    ensures RunEntry(FLOW, ext, mem, 65475, false, s) == Next(r)
    ensures r.pos == 0 && r.produced == 52 && 27 !in r.cache && |r.buf| == |s.buf| && Size(r.buf) == 64
      && NumElements(r.buf) == 1
  {
    hide PutElement, PutHeader;
    AddElementBytes(s, 1, 52);
    r := AddElement(s, 1, 52);
  }

  lemma SecondLarge(ext: seq<U16>, mem: seq<Byte>, s: State) returns (r: State)
    requires |ext| == MAXEXTENSIONS && ext[27] == 4 && s.pos == 0 && s.produced == 52 && 27 !in s.cache
    requires Size(s.buf) == 64 && NumElements(s.buf) == 1 && 65540 <= |s.buf|
    requires At(mem, 0) == 255 && At(mem, 1) == 255 && At(mem, 2) == 192
    ensures RunEntry(NBAR, ext, mem, 65475, false, s) == Next(r) && r.pos == 65475 && r.produced == 65528
      && Size(r.buf) == 4
  {
    hide PutElement, PutHeader, Poke, Take;
    var b := PutElement(s.buf, 64, 27, 65476);
    PutHeaderChanges(b, 4, 2);
    assert FieldLength(NBAR, mem, 0) == (65472, 3);
    var s1 := AddElement(s, 27, 65476);
    var data := Take(mem, 3, 65472);
    assert data[..65472] == data;
    PokeChanges(s1.buf, 68, data);
    SameGet16(s1.buf, Poke(s1.buf, 68, data), 68, 65472, 2);
    r := s1.(buf := Poke(s1.buf, 68, data), pos := 65475);
  }

  // ---- Tables that are not good have runs that are not safe ------------------

  // As a table is set up: output of variable length is for such input only.
  predicate Settled(t: seq<Sequence>) {
    forall e :: e in t && e.outputLength == VARLENGTH ==> e.inputLength == VARLENGTH
  }

  // Every element has just the size of its extension.
  ghost predicate Lean(s: State, ext: seq<U16>)
    requires |ext| == MAXEXTENSIONS
  {
    Ready(s, ext) && |s.buf| < 0x1_0000
    && forall id :: id in s.cache ==> id < MAXEXTENSIONS && 2 <= s.cache[id] && Get16(s.buf, s.cache[id] - 2) == ext[id]
  }

  // The bytes `x` are in the input from `pos` on.
  ghost predicate Holds(mem: seq<Byte>, pos: nat, x: seq<Byte>) {
    forall j: nat :: j < |x| ==> At(mem, pos + j) == x[j]
  }

  // The length for which an entry that does not fit goes wrong.
  function Choice(e: Sequence, ext: seq<U16>, seen: set<U16>): U16
    requires e.extensionID < |ext|
  {
    if e.extensionID == EXnull || e.extensionID in seen then e.outputLength
    else if ext[e.extensionID] < ELEMENT_HEADER then 0
    else if e.outputLength == VARLENGTH then 1 else e.outputLength
  }

  function BadField(e: Sequence, ext: seq<U16>, seen: set<U16>): seq<Byte>
    requires e.extensionID < |ext|
  {
    if e.inputLength == VARLENGTH then EncodeLength(Choice(e, ext, seen), true) + Zeros(Choice(e, ext, seen))
    else Zeros(e.inputLength)
  }

  // The input that leads to the first entry that does not fit, and there to a
  // length for which it goes wrong.
  function Input(t: seq<Sequence>, ext: seq<U16>, seen: set<U16>): seq<Byte>
    requires Ids(t) && |ext| == MAXEXTENSIONS
  {
    if t == [] then [] else
      var e := t[0];
      assert e in t;
      if !Fitting(e, ext, seen) then BadField(e, ext, seen)
      else Zeros(Length(e)) + Input(t[1..], ext, seen + Element(e))
  }

  // An entry that fits is passed.
  lemma {:induction false} TurnIsLean(e: Sequence, ext: seq<U16>, mem: seq<Byte>, inSize: nat, hasStack: bool, s: State,
      x: seq<Byte>)
    requires |ext| == MAXEXTENSIONS && e.extensionID < MAXEXTENSIONS && Lean(s, ext) && Settled([e])
    requires Fitting(e, ext, s.cache.Keys) && x == Zeros(Length(e)) && Holds(mem, s.pos, x)
      && s.pos + |x| <= inSize
    requires Size(s.buf) + Need([e], ext, s.cache.Keys) <= |s.buf|
    ensures var r := RunEntry(e, ext, mem, inSize, hasStack, s);
      && r.Next? && Lean(r.s, ext) && r.s.pos == s.pos + Length(e) && |r.s.buf| == |s.buf|
      && r.s.cache.Keys == s.cache.Keys + Element(e) && Size(r.s.buf) == Size(s.buf) + Need([e], ext, s.cache.Keys)
  {
    hide Wellformed, Payload, Kept, StoreField, AddElement, RunEntry, Stored, Fitting, SafeTurn;
    assert e in [e];
    PassedLength(e, mem, s.pos, x);
    NeedOne(e, ext, s.cache.Keys);
    var (inLength, pos) := FieldLength(e, mem, s.pos);
    TurnResult(e, ext, mem, inSize, hasStack, s);
    OpenResult(e, ext, inLength, s);
    if IsNew(e, s) {
      NoRoomMeans(e, ext, inLength, s);
    }
    StoreFieldProduces(e, Take(mem, pos, inLength), OutLength(e, inLength, s), hasStack,
      OpenField(e, ext, inLength, s));
    TurnIsSafe(e, ext, mem, inSize, hasStack, s);
    SafeTurnKeeps(e, ext, mem, inSize, hasStack, s);
    var r := RunEntry(e, ext, mem, inSize, hasStack, s);
    forall id | id in r.s.cache
      ensures 2 <= r.s.cache[id] && Get16(r.s.buf, r.s.cache[id] - 2) == ext[id]
    {
      if id in s.cache && r.s.cache[id] == s.cache[id] {
        KeptOne(s.buf, r.s.buf, s.cache[id], ext[id]);
      }
    }
  }

  lemma NeedOne(e: Sequence, ext: seq<U16>, seen: set<U16>)
    requires e.extensionID < |ext|
    ensures Need([e], ext, seen) == if e.extensionID == EXnull || e.extensionID in seen then 0 else ext[e.extensionID]
  {
    assert [e][1..] == [];
  }

  lemma PassedLength(e: Sequence, mem: seq<Byte>, pos: nat, x: seq<Byte>)
    requires x == Zeros(Length(e)) && Holds(mem, pos, x)
    ensures FieldLength(e, mem, pos) == if e.inputLength == VARLENGTH then (0, pos + 1) else (e.inputLength, pos)
  {
    if e.inputLength == VARLENGTH {
      assert x[0] == 0 && At(mem, pos + 0) == x[0];
    }
  }

  lemma ChosenLength(e: Sequence, ext: seq<U16>, seen: set<U16>, mem: seq<Byte>, pos: nat, x: seq<Byte>)
    requires e.extensionID < |ext| && x == BadField(e, ext, seen) && Holds(mem, pos, x)
    ensures var n := if e.inputLength == VARLENGTH then Choice(e, ext, seen) else e.inputLength;
      FieldLength(e, mem, pos).0 == n && FieldLength(e, mem, pos).1 + n == pos + |x|
  {
    if e.inputLength == VARLENGTH {
      var n := Choice(e, ext, seen);
      assert x[0] == 255 && x[1] == n / 256 && x[2] == n % 256;
      assert At(mem, pos + 0) == x[0] && At(mem, pos + 1) == x[1] && At(mem, pos + 2) == x[2];
    }
  }

  // An entry that does not fit is not.
  lemma {:induction false} TurnIsBad(e: Sequence, ext: seq<U16>, mem: seq<Byte>, inSize: nat, s: State, x: seq<Byte>)
    requires |ext| == MAXEXTENSIONS && e.extensionID < MAXEXTENSIONS && Lean(s, ext) && Settled([e])
    requires !Fitting(e, ext, s.cache.Keys)
    requires x == BadField(e, ext, s.cache.Keys) && Holds(mem, s.pos, x) && s.pos + |x| <= inSize
    requires Size(s.buf) + Need([e], ext, s.cache.Keys) < |s.buf|
    ensures !SafeTurn(e, ext, mem, inSize, s)
  {
    hide BadField, Wellformed, AddElement, Kept;
    assert e in [e];
    ChosenLength(e, ext, s.cache.Keys, mem, s.pos, x);
    NeedOne(e, ext, s.cache.Keys);
    var inLength := FieldLength(e, mem, s.pos).0;
    if !IsNew(e, s) {
      StoresMost(e, inLength);
    } else if ELEMENT_HEADER <= ext[e.extensionID] {
      ReadyMeans(s, ext);
      OpenResult(e, ext, inLength, s);
      AddElementKeeps(s, e.extensionID, ElementSize(e, ext, inLength));
      if e.outputLength != VARLENGTH {
        StoresMost(e, inLength);
      }
    }
  }

  lemma StoresMost(e: Sequence, inLength: U16)
    requires if e.inputLength == VARLENGTH then inLength == e.outputLength else inLength == e.inputLength
    ensures 0 < Most(e) ==> 0 < inLength && Stored(e, inLength, e.outputLength) == Most(e)
  {
  }

  lemma {:induction false} BadRun(t: seq<Sequence>, ext: seq<U16>, mem: seq<Byte>, inSize: nat, hasStack: bool,
      s: State, x: seq<Byte>)
    requires |ext| == MAXEXTENSIONS && Ids(t) && Settled(t) && Lean(s, ext) && !GoodFrom(t, ext, s.cache.Keys)
    requires x == Input(t, ext, s.cache.Keys) && Holds(mem, s.pos, x) && s.pos + |x| <= inSize
    requires Size(s.buf) + Need(t, ext, s.cache.Keys) < |s.buf|
    ensures !SafeRun(t, ext, mem, inSize, hasStack, s)
    decreases |t|
  {
    hide Fitting, SafeTurn, RunEntry, Lean, BadField;
    var e, keys := t[0], s.cache.Keys;
    assert e in t;
    NeedOne(e, ext, keys);
    if !Fitting(e, ext, keys) {
      TurnIsBad(e, ext, mem, inSize, s, x);
    } else {
      var zeros, rest := Zeros(Length(e)), Input(t[1..], ext, keys + Element(e));
      assert x == zeros + rest;
      HoldsBoth(mem, s.pos, x, zeros, rest);
      TurnIsLean(e, ext, mem, inSize, hasStack, s, zeros);
      BadRun(t[1..], ext, mem, inSize, hasStack, RunEntry(e, ext, mem, inSize, hasStack, s).s, rest);
    }
  }

  lemma HoldsBoth(mem: seq<Byte>, pos: nat, z: seq<Byte>, x: seq<Byte>, y: seq<Byte>)
    requires z == x + y && Holds(mem, pos, z)
    ensures Holds(mem, pos, x) && Holds(mem, pos + |x|, y)
  {
    forall j: nat | j < |x|
      ensures At(mem, pos + j) == x[j]
    {
      assert z[j] == x[j];
    }
    forall j: nat | j < |y|
      ensures At(mem, pos + |x| + j) == y[j]
    {
      assert z[|x| + j] == y[j] && At(mem, pos + (|x| + j)) == z[|x| + j];
    }
  }

  // ---- Exactly the good tables are safe --------------------------------------

  // How SequencerRun starts.
  ghost predicate Started(s: State) {
    s.pos == 0 && s.cache == map[] && Wellformed(s.buf)
  }

  function EmptyRecord(n: nat): (b: seq<Byte>)
    requires HEADER <= n
    ensures |b| == n
  {
    [11, 0, 12, 0, 0, 0] + Zeros(n - 6)
  }

  lemma EmptyIsWellformed(n: nat)
    requires HEADER <= n
    ensures var b := EmptyRecord(n); Wellformed(b) && Size(b) == HEADER
  {
    var b := EmptyRecord(n);
    assert Type(b) == V3RECORD && Size(b) == HEADER && NumElements(b) == 0;
  }

  // Every run from every well-formed record in a buffer that its size can count
  // is safe if and only if the table is good; this is for tables whose elements
  // fit into one record.
  lemma SafeExactly(t: seq<Sequence>, ext: seq<U16>)
    requires |ext| == MAXEXTENSIONS && Ids(t) && Settled(t) && HEADER + Need(t, ext, {}) < 0xFFFF
    ensures GoodTable(t, ext) <==>
      forall mem, inSize, hasStack, s :: Started(s) && |s.buf| < 0x1_0000 ==> SafeRun(t, ext, mem, inSize, hasStack, s)
  {
    hide SafeRun, GoodFrom, Wellformed;
    if GoodTable(t, ext) {
      forall mem, inSize, hasStack, s | Started(s) && |s.buf| < 0x1_0000
        ensures SafeRun(t, ext, mem, inSize, hasStack, s)
      {
        assert s.cache.Keys == {};
        RoomyIsSafe(t, ext, mem, inSize, hasStack, s);
      }
    } else {
      var s, mem := State(0, EmptyRecord(0xFFFF), map[], map[], 0), Input(t, ext, {});
      EmptyIsWellformed(0xFFFF);
      assert s.cache.Keys == {};
      BadRun(t, ext, mem, |mem|, false, s, mem);
      assert Started(s) && |s.buf| < 0x1_0000;
    }
  }
}
