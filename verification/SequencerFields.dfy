/**
 What the sequencer stores of a field: numbers come in network order and are
 stored as little-endian words, everything else as it is.
 */
module SequencerFields {
  import opened V3Record
  import opened SequencerSpec

  // ---- Numbers and their bytes ----------------------------------------------

  // Network order: the highest byte first.
  function BigEndian(s: seq<Byte>): nat {
    if s == [] then 0 else
      var low: int := s[|s| - 1];
      256 * BigEndian(s[..|s| - 1]) + low
  }

  // The lowest byte first.
  function LittleEndian(s: seq<Byte>): nat {
    if s == [] then 0 else
      var low: int := s[0];
      low + 256 * LittleEndian(s[1..])
  }

  function Pow256(n: nat): (p: nat)
    ensures 0 < p
  {
    if n == 0 then 1 else 256 * Pow256(n - 1)
  }

  lemma {:induction false} ReverseValue(s: seq<Byte>)
    ensures LittleEndian(Reverse(s)) == BigEndian(s)
  {
    if s != [] {
      var init := s[..|s| - 1];
      assert Reverse(s)[0] == s[|s| - 1] && Reverse(s)[1..] == Reverse(init);
      ReverseValue(init);
    }
  }

  lemma {:induction false} LittleConcat(a: seq<Byte>, b: seq<Byte>)
    ensures LittleEndian(a + b) == LittleEndian(a) + Pow256(|a|) * LittleEndian(b)
  {
    if a == [] {
      assert a + b == b;
    } else {
      assert (a + b)[0] == a[0] && (a + b)[1..] == a[1..] + b;
      LittleConcat(a[1..], b);
      Times256(Pow256(|a| - 1), LittleEndian(b));
    }
  }

  lemma Times256(p: nat, n: nat)
    ensures 256 * (p * n) == 256 * p * n
  {
  }

  lemma {:induction false} LittleBound(s: seq<Byte>)
    ensures LittleEndian(s) < Pow256(|s|)
  {
    if s != [] {
      LittleBound(s[1..]);
    }
  }

  lemma {:induction false} ZerosValue(n: nat)
    ensures LittleEndian(Zeros(n)) == 0
  {
    if n != 0 {
      assert Zeros(n)[0] == 0 && Zeros(n)[1..] == Zeros(n - 1);
      ZerosValue(n - 1);
    }
  }

  lemma RemainderIs(a: nat, b: nat, p: nat)
    requires a < p
    ensures (a + p * b) % p == a
  {
    var n := a + p * b;
    var q := n / p;
    assert n == p * q + n % p;
    SameQuotient(p, b, q, a, n % p);
  }

  lemma SameQuotient(p: nat, b: nat, q: nat, a: nat, r: nat)
    requires p * b + a == p * q + r && a < p && r < p
    ensures b == q && a == r
  {
    if b < q {
      AtLeastOnce(p, b, q);
    } else if q < b {
      AtLeastOnce(p, q, b);
    }
  }

  lemma AtLeastOnce(p: nat, b: nat, q: nat)
    requires b < q
    ensures p * b + p <= p * q
  {
    assert p * q == p * b + p * (q - b);
    assert p * (q - b) == p + p * (q - b - 1);
  }

  // The first bytes of a word are its remainder.
  lemma FirstBytes(s: seq<Byte>, n: nat)
    requires n <= |s|
    ensures LittleEndian(s[..n]) == LittleEndian(s) % Pow256(n)
  {
    assert s == s[..n] + s[n..];
    LittleConcat(s[..n], s[n..]);
    LittleBound(s[..n]);
    RemainderIs(LittleEndian(s[..n]), LittleEndian(s[n..]), Pow256(n));
  }

  // ---- What is stored -------------------------------------------------------

  // The bytes `w` are what there should be of a field: a number of up to 8 bytes
  // in little-endian order, as much of it as there is room for; the two halves
  // of a field of 16 bytes as two such numbers; otherwise the bytes themselves,
  // filled up with zeros.
  ghost predicate Means(e: Sequence, input: seq<Byte>, w: seq<Byte>) {
    if e.inputLength == VARLENGTH || e.copyMode == ByteCopy || |input| > 16 then
      w <= input
    else if |input| <= 8 then
      LittleEndian(w) == BigEndian(input) % Pow256(|w|)
    else if |input| == 16 && |w| <= 8 then
      LittleEndian(w) == BigEndian(input[..8]) % Pow256(|w|)
    else if |input| == 16 then
      && LittleEndian(w[..8]) == BigEndian(input[..8])
      && LittleEndian(w[8..]) == BigEndian(input[8..]) % Pow256(|w| - 8)
    else
      forall j :: 0 <= j < |w| ==> w[j] == if j < |input| then input[j] else 0
  }

  // How many bytes that are.
  lemma StoredIs(e: Sequence, inLength: nat, outLength: nat)
    ensures Stored(e, inLength, outLength) ==
      if e.inputLength != VARLENGTH && e.copyMode == NumberCopy && inLength <= 16
         && (outLength == 1 || outLength == 2 || outLength == 4 || outLength == 8 || outLength == 16) then outLength
      else if inLength < outLength then inLength else outLength
  {
  }

  lemma Times0(p: nat)
    ensures p * 0 == 0
  {
  }

  lemma SmallValue(data: seq<Byte>, n: nat)
    requires |data| <= 8 && n <= 16
    ensures LittleEndian(ValBuff(data)[..n]) == BigEndian(data) % Pow256(n)
  {
    hide LittleEndian, BigEndian, Pow256;
    var z := Zeros(16 - |data|);
    Times0(Pow256(|data|));
    FirstBytes(ValBuff(data), n);
    LittleConcat(Reverse(data), z);
    ReverseValue(data);
    ZerosValue(16 - |data|);
  }

  lemma WideValue(data: seq<Byte>, n: nat)
    requires |data| == 16 && n <= 16
    ensures var w := ValBuff(data)[..n];
      if n <= 8 then LittleEndian(w) == BigEndian(data[..8]) % Pow256(n)
      else
        && LittleEndian(w[..8]) == BigEndian(data[..8])
        && LittleEndian(w[8..]) == BigEndian(data[8..]) % Pow256(n - 8)
  {
    hide LittleEndian, BigEndian, Pow256;
    var lo, hi := Reverse(data[..8]), Reverse(data[8..]);
    ReverseValue(data[..8]);
    ReverseValue(data[8..]);
    if n <= 8 {
      assert ValBuff(data)[..n] == lo[..n];
      FirstBytes(lo, n);
    } else {
      assert ValBuff(data)[..n][..8] == lo && ValBuff(data)[..n][8..] == hi[..n - 8];
      FirstBytes(hi, n - 8);
    }
  }

  lemma WrittenMeans(e: Sequence, data: seq<Byte>, outLength: nat)
    ensures Means(e, data, Written(e, data, outLength))
  {
    hide LittleEndian, BigEndian, Pow256;
    if !(e.inputLength == VARLENGTH || e.copyMode == ByteCopy || |data| > 16) {
      BuffMeans(e, data, StoreLength(|data|, outLength));
    }
  }

  lemma BuffMeans(e: Sequence, data: seq<Byte>, n: nat)
    requires |data| <= 16 && n <= 16 && e.inputLength != VARLENGTH && e.copyMode == NumberCopy
    ensures Means(e, data, ValBuff(data)[..n])
  {
    hide LittleEndian, BigEndian, Pow256;
    if |data| <= 8 {
      SmallValue(data, n);
    } else if |data| == 16 {
      WideValue(data, n);
    }
  }

  // StoreField and CopyField: what is at the place of the field afterwards, and
  // on the stack; everything else in the record is as it was.
  lemma StoreFieldMeans(e: Sequence, data: seq<Byte>, outLength: nat, hasStack: bool, s: State)
    requires Stored(e, |data|, outLength) == 0
      || (e.extensionID in s.cache && s.cache[e.extensionID] + e.offsetRel + Stored(e, |data|, outLength) <= |s.buf|)
    ensures
      var s', n := StoreField(e, data, outLength, hasStack, s), Stored(e, |data|, outLength);
      && |s'.buf| == |s.buf| && s'.cache == s.cache
      && (n == 0 ==> s'.buf == s.buf)
      && (n != 0 ==>
        var at := s.cache[e.extensionID] + e.offsetRel;
        Means(e, data, s'.buf[at..at + n]) && SameBut(s.buf, s'.buf, at, n))
    ensures StackMeans(e, data, hasStack, s.stack, StoreField(e, data, outLength, hasStack, s).stack)
  {
    hide Means, ValBuff, SameBut, Written;
    StoreFieldWrites(e, data, outLength, hasStack, s);
    WrittenMeans(e, data, outLength);
    var w := Written(e, data, outLength);
    if w == [] {
      PokeNothing(s.buf, (if e.extensionID in s.cache then s.cache[e.extensionID] else 0) + e.offsetRel);
    } else {
      PokeChanges(s.buf, s.cache[e.extensionID] + e.offsetRel, w);
    }
    if e.inputLength != VARLENGTH && e.copyMode == NumberCopy && |data| <= 16 {
      BuffMeans(e, data, 8);
    }
  }

  // A number goes on the stack as well, in 8 bytes, if the entry has a slot there.
  ghost predicate StackMeans(e: Sequence, input: seq<Byte>, hasStack: bool, stack: map<U16, seq<Byte>>,
      stack': map<U16, seq<Byte>>) {
    if e.stackID != 0 && hasStack && e.inputLength != VARLENGTH && e.copyMode == NumberCopy && |input| <= 16 then
      && stack'.Keys == stack.Keys + {e.stackID} && |stack'[e.stackID]| == 8 && Means(e, input, stack'[e.stackID])
      && forall id :: id in stack && id != e.stackID ==> stack'[id] == stack[id]
    else stack' == stack
  }

  // A new element is empty, and what was there is still there.
  lemma ElementIsEmpty(s: State, id: U16, size: nat)
    requires HEADER <= Size(s.buf) && ELEMENT_HEADER <= size < 0x1_0000 && Size(s.buf) + size <= |s.buf|
    ensures var b, at := AddElement(s, id, size).buf, Size(s.buf);
      && Get16(b, at) == id && Get16(b, at + 2) == size
      && (forall k: nat :: at + ELEMENT_HEADER <= k < at + size ==> At(b, k) == 0)
      && forall k: nat :: (6 <= k < at || at + size <= k) ==> At(b, k) == At(s.buf, k)
  {
    hide PutHeader, Poke, Put16;
    var at := Size(s.buf);
    var zeros := seq<Byte>(size, _ => 0);
    var b, c := Poke(s.buf, at, zeros), PutElement(s.buf, at, id, size);
    var d := PutHeader(c, (at + size) % 0x1_0000, (NumElements(s.buf) + 1) % 0x1_0000);
    PutElementChanges(s.buf, at, id, size);
    PutHeaderChanges(c, (at + size) % 0x1_0000, (NumElements(s.buf) + 1) % 0x1_0000);
    SameGet16(c, d, 2, 4, at);
    SameGet16(c, d, 2, 4, at + 2);
    PokeIs(s.buf, at, zeros);
    Put16Changes(b, at, id);
    Put16Changes(Put16(b, at, id), at + 2, size % 0x1_0000);
  }

  lemma PokeIs(b: seq<Byte>, at: nat, data: seq<Byte>)
    requires at + |data| <= |b|
    ensures forall k: nat :: at <= k < at + |data| ==> At(Poke(b, at, data), k) == data[k - at]
    ensures Poke(b, at, data)[at..at + |data|] == data
  {
  }

  lemma TakeIs(mem: seq<Byte>, pos: nat, n: nat)
    requires pos + n <= |mem|
    ensures Take(mem, pos, n) == mem[pos..pos + n]
  {
    forall i | 0 <= i < n
      ensures Take(mem, pos, n)[i] == mem[pos..pos + n][i]
    {
      assert At(mem, pos + i) == mem[pos + i];
    }
  }

  // ---- What a turn does with its field ---------------------------------------

  // A turn that has a field to store: it is in its place, in the order of the
  // machine, and on the stack if it has a slot there.
  lemma FieldStored(e: Sequence, ext: seq<U16>, mem: seq<Byte>, inSize: nat, hasStack: bool, s: State)
    requires |ext| == MAXEXTENSIONS && e.extensionID < MAXEXTENSIONS && Placed(s, ext)
    requires Fitting(e, ext, s.cache.Keys) && Proceeds(e, ext, mem, inSize, s) && inSize <= |mem|
    requires 0 < FieldLength(e, mem, s.pos).0
    ensures FieldLength(e, mem, s.pos).1 + FieldLength(e, mem, s.pos).0 <= |mem|
    ensures
      var (inLength, pos) := FieldLength(e, mem, s.pos);
      var r, input := RunEntry(e, ext, mem, inSize, hasStack, s), mem[pos..pos + inLength];
      var outLength := if IsNew(e, s) && e.outputLength == VARLENGTH then inLength else e.outputLength;
      var n := Stored(e, inLength, outLength);
      && r.Next? && StackMeans(e, input, hasStack, s.stack, r.s.stack)
      && (0 < n ==>
        && e.extensionID in r.s.cache && r.s.cache[e.extensionID] + e.offsetRel + n <= |r.s.buf|
        && Means(e, input, r.s.buf[r.s.cache[e.extensionID] + e.offsetRel..][..n]))
  {
    hide Means, StackMeans, Stored, OpenField, StoreField, NoRoom, Fitting;
    var (inLength, pos) := FieldLength(e, mem, s.pos);
    var s1 := OpenField(e, ext, inLength, s);
    TurnResult(e, ext, mem, inSize, hasStack, s);
    FieldInBuffer(e, ext, inLength, s);
    OpenResult(e, ext, inLength, s);
    TakeIs(mem, pos, inLength);
    StoreFieldMeans(e, mem[pos..pos + inLength], OutLength(e, inLength, s), hasStack, s1);
    var r := RunEntry(e, ext, mem, inSize, hasStack, s);
    var n := Stored(e, inLength, OutLength(e, inLength, s));
    if 0 < n {
      var at := r.s.cache[e.extensionID] + e.offsetRel;
      assert r.s.buf[at..][..n] == r.s.buf[at..at + n];
    }
  }

  // For a number of 1 to 8 bytes, and room for 1, 2, 4 or 8: the word in the
  // record has the value of the bytes in the input, cut to its size.
  lemma NumberStored(e: Sequence, ext: seq<U16>, mem: seq<Byte>, inSize: nat, hasStack: bool, s: State)
    requires |ext| == MAXEXTENSIONS && e.extensionID < MAXEXTENSIONS && Placed(s, ext)
    requires Fitting(e, ext, s.cache.Keys) && Proceeds(e, ext, mem, inSize, s) && inSize <= |mem|
    requires e.copyMode == NumberCopy && 1 <= e.inputLength <= 8
    requires e.outputLength == 1 || e.outputLength == 2 || e.outputLength == 4 || e.outputLength == 8
    ensures
      var r := RunEntry(e, ext, mem, inSize, hasStack, s);
      var input := mem[s.pos..s.pos + e.inputLength];
      && r.Next? && e.extensionID in r.s.cache
      && var at := r.s.cache[e.extensionID] + e.offsetRel;
         && at + e.outputLength <= |r.s.buf|
         && LittleEndian(r.s.buf[at..at + e.outputLength]) == BigEndian(input) % Pow256(e.outputLength)
         && (e.stackID != 0 && hasStack ==>
           e.stackID in r.s.stack && LittleEndian(r.s.stack[e.stackID]) == BigEndian(input))
  {
    hide LittleEndian, BigEndian, Pow256, Fitting, RunEntry, Placed, NoRoom, Stored, Proceeds;
    InputThere(e, ext, mem, inSize, s);
    FieldStored(e, ext, mem, inSize, hasStack, s);
    StoredIs(e, e.inputLength, e.outputLength);
    var r := RunEntry(e, ext, mem, inSize, hasStack, s);
    var input := mem[s.pos..s.pos + e.inputLength];
    var at := r.s.cache[e.extensionID] + e.offsetRel;
    assert r.s.buf[at..][..e.outputLength] == r.s.buf[at..at + e.outputLength];
    if e.stackID != 0 && hasStack {
      EightBytes(input);
    }
  }

  lemma InputThere(e: Sequence, ext: seq<U16>, mem: seq<Byte>, inSize: nat, s: State)
    requires e.extensionID < |ext| && Proceeds(e, ext, mem, inSize, s) && 1 <= e.inputLength <= 8
    ensures FieldLength(e, mem, s.pos) == (e.inputLength, s.pos) && s.pos + e.inputLength <= inSize
  {
  }

  // A number of up to 8 bytes is below 2^64.
  lemma EightBytes(s: seq<Byte>)
    requires |s| <= 8
    ensures BigEndian(s) % Pow256(8) == BigEndian(s)
  {
    ReverseValue(s);
    LittleBound(Reverse(s));
    PowGrows(|s|, 8);
    SmallRemainder(BigEndian(s), Pow256(8));
  }

  lemma SmallRemainder(a: nat, p: nat)
    requires a < p
    ensures a % p == a
  {
  }

  lemma {:induction false} PowGrows(m: nat, n: nat)
    requires m <= n
    ensures Pow256(m) <= Pow256(n)
  {
    if m < n {
      PowGrows(m, n - 1);
    }
  }

  // ---- What a turn reads, and how it ends -------------------------------------

  // How long a field is, and where it starts.
  lemma LengthMeans(e: Sequence, mem: seq<Byte>, pos: nat)
    ensures e.inputLength != 0xFFFF ==> FieldLength(e, mem, pos) == (e.inputLength, pos)
    ensures e.inputLength == 0xFFFF && pos < |mem| && mem[pos] < 255 ==> FieldLength(e, mem, pos) == (mem[pos], pos + 1)
    ensures e.inputLength == 0xFFFF && pos + 3 <= |mem| && mem[pos] == 255 ==>
      FieldLength(e, mem, pos).0 == BigEndian(mem[pos + 1..pos + 3]) && FieldLength(e, mem, pos).1 == pos + 3
  {
    if pos + 3 <= |mem| {
      var two := mem[pos + 1..pos + 3];
      assert two[..1][..0] == [] && two[0] == mem[pos + 1] && two[1] == mem[pos + 2];
      assert BigEndian(two[..1]) == two[0];
    }
  }

  // An error of the input, exactly if the field does not end inside it; an error
  // of memory, exactly if a new element does not fit the buffer. Otherwise the
  // turn goes behind the field.
  lemma TurnOutcome(e: Sequence, ext: seq<U16>, mem: seq<Byte>, inSize: nat, hasStack: bool, s: State)
    requires |ext| == MAXEXTENSIONS && e.extensionID < MAXEXTENSIONS
    ensures
      var (n, start) := FieldLength(e, mem, s.pos);
      var r, id := RunEntry(e, ext, mem, inSize, hasStack, s), e.extensionID;
      var isNew := id != 0 && id !in s.cache;
      var size := if e.outputLength == 0xFFFF then ext[id] + n else ext[id];
      if start + n > inSize then r == Fail(SEQ_ERROR, s)
      else if id == 0 && e.stackID == 0 then r == Next(s.(pos := start + n))
      else if isNew && Size(s.buf) + size > |s.buf| then r == Fail(SEQ_MEM_ERR, s)
      else
        && r.Next? && r.s.pos == start + n && r.s.produced == s.produced + (if isNew then size else 0)
        && r.s.cache == if isNew then s.cache[id := Size(s.buf) + ELEMENT_HEADER] else s.cache
  {
    hide StoreField, AddElement;
    var (n, start) := FieldLength(e, mem, s.pos);
    TurnResult(e, ext, mem, inSize, hasStack, s);
    OpenResult(e, ext, n, s);
    StoreFieldProduces(e, Take(mem, start, n), OutLength(e, n, s), hasStack, OpenField(e, ext, n, s));
  }

  // An entry without extension that has a slot on the stack is not passed over.
  lemma StackOnly(e: Sequence, ext: seq<U16>, mem: seq<Byte>, inSize: nat, s: State)
    requires |ext| == MAXEXTENSIONS && e.extensionID == 0 && e.stackID != 0 && e.outputLength == 0
    requires e.copyMode == NumberCopy && 1 <= e.inputLength <= 8 && s.pos + e.inputLength <= inSize <= |mem|
    ensures
      var r := RunEntry(e, ext, mem, inSize, true, s);
      && r.Next? && r.s.buf == s.buf && r.s.pos == s.pos + e.inputLength && e.stackID in r.s.stack
      && LittleEndian(r.s.stack[e.stackID]) == BigEndian(mem[s.pos..s.pos + e.inputLength])
  {
    hide LittleEndian, BigEndian, Pow256, ValBuff;
    var input := mem[s.pos..s.pos + e.inputLength];
    TakeIs(mem, s.pos, e.inputLength);
    StoredIs(e, e.inputLength, 0);
    StoreFieldMeans(e, input, 0, true, s);
    EightBytes(input);
  }

  // ---- Reading an input that was written by the template ----------------------

  // The value of a field, and whether its length is to take three bytes.
  datatype Field = Field(value: seq<Byte>, long: bool)

  predicate Suits(e: Sequence, f: Field) {
    if e.inputLength == VARLENGTH then |f.value| < 0x1_0000 && (|f.value| < 255 || f.long)
    else |f.value| == e.inputLength
  }

  function FieldCode(e: Sequence, f: Field): seq<Byte>
    requires Suits(e, f)
  {
    if e.inputLength == VARLENGTH then EncodeLength(|f.value|, f.long) + f.value else f.value
  }

  predicate AllSuit(t: seq<Sequence>, fs: seq<Field>) {
    |t| == |fs| && forall i :: 0 <= i < |t| ==> Suits(t[i], fs[i])
  }

  // The fields of the template, one after the other.
  function Code(t: seq<Sequence>, fs: seq<Field>): seq<Byte>
    requires AllSuit(t, fs)
  {
    if t == [] then [] else FieldCode(t[0], fs[0]) + Code(t[1..], fs[1..])
  }

  lemma CodeSplits(m: seq<Byte>, pos: nat, a: seq<Byte>, b: seq<Byte>)
    requires pos + |a + b| <= |m| && m[pos..pos + |a + b|] == a + b
    ensures m[pos..pos + |a|] == a && m[pos + |a|..pos + |a| + |b|] == b
  {
    var c := m[pos..pos + |a + b|];
    assert c[..|a|] == m[pos..pos + |a|] && c[|a|..] == m[pos + |a|..pos + |a| + |b|];
  }

  lemma FieldIsRead(e: Sequence, f: Field, mem: seq<Byte>, pos: nat)
    requires Suits(e, f) && pos + |FieldCode(e, f)| <= |mem| && mem[pos..pos + |FieldCode(e, f)|] == FieldCode(e, f)
    ensures
      var (n, start) := FieldLength(e, mem, pos);
      n == |f.value| && start + n == pos + |FieldCode(e, f)| <= |mem| && mem[start..start + n] == f.value
  {
    if e.inputLength == VARLENGTH {
      hide EncodeLength, FieldLength;
      CodeSplits(mem, pos, EncodeLength(|f.value|, f.long), f.value);
      LengthRoundTrip(e, mem, pos, |f.value|, f.long);
    }
  }

  // A run over the fields of its template reads all of them and not more; it
  // fails for want of input exactly if they are cut short before it fails for
  // want of memory.
  lemma {:induction false} InputIsRead(t: seq<Sequence>, fs: seq<Field>, ext: seq<U16>, mem: seq<Byte>, inSize: nat,
      hasStack: bool, s: State)
    requires |ext| == MAXEXTENSIONS && (forall e :: e in t ==> e.extensionID < MAXEXTENSIONS) && AllSuit(t, fs)
    requires s.pos + |Code(t, fs)| <= |mem| && mem[s.pos..s.pos + |Code(t, fs)|] == Code(t, fs) && s.pos <= inSize
    ensures
      var r, end := RunTable(t, ext, mem, inSize, hasStack, s), s.pos + |Code(t, fs)|;
      && (r.Next? ==> r.s.pos == end <= inSize)
      && (end <= inSize ==> r.Next? || r.code == SEQ_MEM_ERR)
      && (end > inSize ==> r.Fail?)
    decreases |t|
  {
    hide RunEntry, FieldLength, Suits, FieldCode;
    if t != [] {
      var e := t[0];
      assert e in t && forall u :: u in t[1..] ==> u in t;
      CodeSplits(mem, s.pos, FieldCode(e, fs[0]), Code(t[1..], fs[1..]));
      FieldIsRead(e, fs[0], mem, s.pos);
      TurnOutcome(e, ext, mem, inSize, hasStack, s);
      var r := RunEntry(e, ext, mem, inSize, hasStack, s);
      if r.Next? {
        InputIsRead(t[1..], fs[1..], ext, mem, inSize, hasStack, r.s);
      }
    }
  }
}
