/**
 The sequencer as nfxV3.c has it: a table that is compacted in place, and the
 loop that runs it over an input stream into an output buffer.
 */
module SequencerTable {
  import opened V3Record
  import opened SequencerSpec

  // ---- What compaction means ----------------------------------------------

  // An entry that CompactSequencer takes for a plain skip of fixed length.
  predicate Mergeable(e: Sequence) {
    e.inputType == 0 && e.inputLength != VARLENGTH
  }

  predicate AllMergeable(t: seq<Sequence>) {
    forall e :: e in t ==> Mergeable(e)
  }

  // The number of mergeable entries at the head of the table.
  function HeadRun(t: seq<Sequence>): (n: nat)
    ensures n <= |t| && AllMergeable(t[..n]) && (n < |t| ==> !Mergeable(t[n]))
  {
    if t == [] || !Mergeable(t[0]) then 0 else
      var n := 1 + HeadRun(t[1..]);
      assert t[..n] == [t[0]] + t[1..][..n - 1];
      n
  }

  function Sum(t: seq<Sequence>): nat {
    if t == [] then 0 else t[0].inputLength + Sum(t[1..])
  }

  // One entry in the place of several; the length is a 16-bit number.
  function Merged(t: seq<Sequence>): Sequence
    requires t != []
  {
    t[0].(inputLength := Sum(t) % 0x1_0000)
  }

  function Compact(t: seq<Sequence>): (c: seq<Sequence>)
    ensures |c| <= |t|
    decreases |t|
  {
    if t == [] then []
    else if !Mergeable(t[0]) then [t[0]] + Compact(t[1..])
    else [Merged(t[..HeadRun(t)])] + Compact(t[HeadRun(t)..])
  }

  // No run of mergeable entries is longer than a 16-bit length can say.
  predicate RunsFit(t: seq<Sequence>)
    decreases |t|
  {
    if t == [] then true
    else if !Mergeable(t[0]) then RunsFit(t[1..])
    else Sum(t[..HeadRun(t)]) < VARLENGTH && RunsFit(t[HeadRun(t)..])
  }

  // What type 0 stands for.
  predicate PureSkips(t: seq<Sequence>) {
    forall e :: e in t && e.inputType == 0 ==> IsSkip(e)
  }

  // Same state after success; after a failure same code, same record and same
  // stack.
  predicate SameOutcome(r: Step, r': Step) {
    if r.Next? || r'.Next? then r == r' else r.code == r'.code && r.s.(pos := 0) == r'.s.(pos := 0)
  }

  predicate Ids(t: seq<Sequence>) {
    forall e :: e in t ==> e.extensionID < MAXEXTENSIONS
  }

  // Skips succeed together or fail together.
  lemma {:induction false} RunSkips(t: seq<Sequence>, ext: seq<U16>, mem: seq<Byte>, inSize: nat, hasStack: bool,
      s: State)
    requires |ext| == MAXEXTENSIONS && Ids(t)
    requires AllMergeable(t) && (forall e :: e in t ==> IsSkip(e)) && t != []
    ensures SameOutcome(RunTable(t, ext, mem, inSize, hasStack, s),
                        if s.pos + Sum(t) <= inSize then Next(s.(pos := s.pos + Sum(t))) else Fail(SEQ_ERROR, s))
    decreases |t|
  {
    assert t[0] in t;
    if t[1..] != [] && s.pos + t[0].inputLength <= inSize {
      RunSkips(t[1..], ext, mem, inSize, hasStack, s.(pos := s.pos + t[0].inputLength));
    }
  }

  lemma {:induction false} RunConcat(t: seq<Sequence>, u: seq<Sequence>, ext: seq<U16>, mem: seq<Byte>, inSize: nat,
      hasStack: bool, s: State)
    requires |ext| == MAXEXTENSIONS && Ids(t) && Ids(u)
    ensures Ids(t + u)
    ensures RunTable(t + u, ext, mem, inSize, hasStack, s) ==
      match RunTable(t, ext, mem, inSize, hasStack, s)
      case Next(s') => RunTable(u, ext, mem, inSize, hasStack, s')
      case Fail(code, s') => Fail(code, s')
    decreases |t|
  {
    if t == [] {
      assert t + u == u;
    } else {
      assert (t + u)[1..] == t[1..] + u && t[0] in t;
      match RunEntry(t[0], ext, mem, inSize, hasStack, s)
      case Next(s') => RunConcat(t[1..], u, ext, mem, inSize, hasStack, s');
      case Fail(_, _) =>
    }
  }

  // Entries of the compacted table come from the table, or are merged.
  lemma {:induction false} CompactMembers(t: seq<Sequence>)
    ensures forall e :: e in Compact(t) ==>
      e in t || exists u :: u in t && Mergeable(u) && e == u.(inputLength := e.inputLength)
    decreases |t|
  {
    if t != [] {
      var n := if Mergeable(t[0]) then HeadRun(t) else 1;
      CompactMembers(t[n..]);
      assert t[0] in t && forall e :: e in t[n..] ==> e in t;
      if Mergeable(t[0]) {
        assert Merged(t[..n]) == t[0].(inputLength := Merged(t[..n]).inputLength);
      }
    }
  }

  lemma CompactIds(t: seq<Sequence>)
    requires Ids(t)
    ensures Ids(Compact(t))
  {
    CompactMembers(t);
  }

  // The head of a table and what it is compacted to.
  lemma HeadKeepsMeaning(head: seq<Sequence>, ext: seq<U16>, mem: seq<Byte>, inSize: nat, hasStack: bool, s: State)
    requires |ext| == MAXEXTENSIONS && Ids(head) && head != []
    requires AllMergeable(head) && (forall e :: e in head ==> IsSkip(e)) && Sum(head) < VARLENGTH
    ensures Ids([Merged(head)])
    ensures SameOutcome(RunTable([Merged(head)], ext, mem, inSize, hasStack, s),
      RunTable(head, ext, mem, inSize, hasStack, s))
  {
    assert head[0] in head;
    MergedIsSkip(head);
    RunSkips(head, ext, mem, inSize, hasStack, s);
    RunSkips([Merged(head)], ext, mem, inSize, hasStack, s);
  }

  // Compaction keeps the meaning of a table on every input.
  lemma {:induction false} CompactKeepsMeaning(t: seq<Sequence>, ext: seq<U16>, mem: seq<Byte>, inSize: nat,
      hasStack: bool, s: State)
    requires |ext| == MAXEXTENSIONS && Ids(t) && PureSkips(t) && RunsFit(t)
    ensures Ids(Compact(t))
    ensures SameOutcome(RunTable(Compact(t), ext, mem, inSize, hasStack, s), RunTable(t, ext, mem, inSize, hasStack, s))
    decreases |t|
  {
    CompactIds(t);
    if t != [] {
      var n := if Mergeable(t[0]) then HeadRun(t) else 1;
      var head, tail := t[..n], t[n..];
      assert t == head + tail && forall e :: e in head || e in tail ==> e in t;
      var c := if Mergeable(t[0]) then [Merged(head)] else head;
      assert Compact(t) == c + Compact(tail);
      CompactIds(tail);
      if Mergeable(t[0]) {
        HeadKeepsMeaning(head, ext, mem, inSize, hasStack, s);
      }
      RunConcat(head, tail, ext, mem, inSize, hasStack, s);
      RunConcat(c, Compact(tail), ext, mem, inSize, hasStack, s);
      var r := RunTable(head, ext, mem, inSize, hasStack, s);
      if r.Next? {
        CompactKeepsMeaning(tail, ext, mem, inSize, hasStack, r.s);
      }
    }
  }

  lemma MergedIsSkip(run: seq<Sequence>)
    requires run != [] && AllMergeable(run) && (forall e :: e in run ==> IsSkip(e)) && Sum(run) < VARLENGTH
    ensures var c := [Merged(run)]; AllMergeable(c) && Sum(c) == Sum(run) && forall e :: e in c ==> IsSkip(e)
  {
    assert run[0] in run;
    assert Sum([Merged(run)]) == Merged(run).inputLength + Sum([]);
  }

  // For one run of skips the 16-bit length is the exact limit: the merged
  // entry means the same on every input if and only if the sum fits.
  lemma MergeLimit(run: seq<Sequence>, ext: seq<U16>, hasStack: bool, s: State)
    requires |ext| == MAXEXTENSIONS && Ids(run) && run != []
    requires AllMergeable(run) && forall e :: e in run ==> IsSkip(e)
    ensures Ids([Merged(run)])
    ensures Sum(run) < VARLENGTH <==> forall mem, inSize ::
      SameOutcome(RunTable([Merged(run)], ext, mem, inSize, hasStack, s), RunTable(run, ext, mem, inSize, hasStack, s))
  {
    assert run[0] in run;
    if Sum(run) < VARLENGTH {
      forall mem, inSize
        ensures SameOutcome(RunTable([Merged(run)], ext, mem, inSize, hasStack, s),
          RunTable(run, ext, mem, inSize, hasStack, s))
      {
        HeadKeepsMeaning(run, ext, mem, inSize, hasStack, s);
      }
    } else {
      var inSize := s.pos + Sum(run);
      RunSkips(run, ext, [], inSize, hasStack, s);
      var m := Merged(run);
      assert RunTable([m], ext, [], inSize, hasStack, s)
        == RunTable([], ext, [], inSize, hasStack, RunEntry(m, ext, [], inSize, hasStack, s).s);
      assert !SameOutcome(RunTable([m], ext, [], inSize, hasStack, s), RunTable(run, ext, [], inSize, hasStack, s));
    }
  }

  // ---- Exactly when compaction keeps the meaning ----------------------------

  // What a table takes from an input of zeros.
  function Length(e: Sequence): nat {
    if e.inputLength == VARLENGTH then 1 else e.inputLength
  }

  function Lengths(t: seq<Sequence>): nat {
    if t == [] then 0 else Length(t[0]) + Lengths(t[1..])
  }

  lemma {:induction false} LengthsConcat(t: seq<Sequence>, u: seq<Sequence>)
    ensures Lengths(t + u) == Lengths(t) + Lengths(u)
  {
    if t == [] {
      assert t + u == u;
    } else {
      assert (t + u)[1..] == t[1..] + u;
      LengthsConcat(t[1..], u);
    }
  }

  lemma {:induction false} LengthsOfRun(run: seq<Sequence>)
    requires AllMergeable(run)
    ensures Lengths(run) == Sum(run)
  {
    if run != [] {
      assert run[0] in run && forall e :: e in run[1..] ==> e in run;
      LengthsOfRun(run[1..]);
    }
  }

  lemma MergedLength(run: seq<Sequence>)
    requires run != []
    ensures Length(Merged(run)) <= Sum(run) && (Length(Merged(run)) == Sum(run) <==> Sum(run) < VARLENGTH)
  {
    hide Sum;
  }

  // A compacted table takes less, if a run was too long, and else the same.
  lemma {:induction false} CompactLengths(t: seq<Sequence>)
    ensures Lengths(Compact(t)) <= Lengths(t)
    ensures Lengths(Compact(t)) == Lengths(t) <==> RunsFit(t)
    decreases |t|
  {
    if t != [] {
      var n := if Mergeable(t[0]) then HeadRun(t) else 1;
      var head, tail := t[..n], t[n..];
      assert t == head + tail;
      CompactLengths(tail);
      LengthsConcat(head, tail);
      if Mergeable(t[0]) {
        LengthsOfRun(head);
        MergedLength(head);
        hide HeadRun, Sum, AllMergeable, Mergeable;
        assert Compact(t)[1..] == Compact(tail) && Compact(t)[0] == Merged(head);
      } else {
        assert head == [t[0]] && head[1..] == [] && Compact(t)[1..] == Compact(tail);
      }
    }
  }

  function AllThere(n: nat): (cache: map<U16, nat>)
    requires n <= MAXEXTENSIONS
    ensures forall id: U16 :: id < n ==> id in cache
  {
    if n == 0 then map[] else
      var id: U16 := n - 1;
      AllThere(n - 1)[id := 0]
  }

  // With all elements there already, and zeros only, a run reaches its end.
  lemma {:induction false} RunOverZeros(t: seq<Sequence>, ext: seq<U16>, inSize: nat, hasStack: bool, s: State)
    requires |ext| == MAXEXTENSIONS && Ids(t) && (forall id: U16 :: id < MAXEXTENSIONS ==> id in s.cache)
    requires s.pos + Lengths(t) <= inSize
    ensures var r := RunTable(t, ext, [], inSize, hasStack, s);
      r.Next? && r.s.pos == s.pos + Lengths(t)
    decreases |t|
  {
    if t != [] {
      var e := t[0];
      assert e in t && e.extensionID in s.cache;
      TurnOverZeros(e, ext, inSize, hasStack, s);
      RunOverZeros(t[1..], ext, inSize, hasStack, RunEntry(e, ext, [], inSize, hasStack, s).s);
    }
  }

  lemma TurnOverZeros(e: Sequence, ext: seq<U16>, inSize: nat, hasStack: bool, s: State)
    requires |ext| == MAXEXTENSIONS && e.extensionID < MAXEXTENSIONS && e.extensionID in s.cache
    requires s.pos + Length(e) <= inSize
    ensures var r := RunEntry(e, ext, [], inSize, hasStack, s);
      r.Next? && r.s.pos == s.pos + Length(e) && r.s.cache == s.cache
  {
    hide StoreField;
    var (inLength, pos) := FieldLength(e, [], s.pos);
    StoreFieldProduces(e, Take([], pos, inLength), OutLength(e, inLength, s), hasStack, s);
  }

  // Compaction keeps the meaning of a table if and only if no run is too long
  // for the 16 bits of its length.
  lemma CompactExactly(t: seq<Sequence>, ext: seq<U16>, hasStack: bool)
    requires |ext| == MAXEXTENSIONS && Ids(t) && PureSkips(t)
    ensures Ids(Compact(t))
    ensures RunsFit(t) <==> forall mem, inSize, s ::
      SameOutcome(RunTable(Compact(t), ext, mem, inSize, hasStack, s), RunTable(t, ext, mem, inSize, hasStack, s))
  {
    hide RunTable, Compact, RunsFit;
    CompactIds(t);
    if RunsFit(t) {
      forall mem, inSize, s
        ensures SameOutcome(RunTable(Compact(t), ext, mem, inSize, hasStack, s),
          RunTable(t, ext, mem, inSize, hasStack, s))
      {
        CompactKeepsMeaning(t, ext, mem, inSize, hasStack, s);
      }
    } else {
      var s := State(0, [], AllThere(MAXEXTENSIONS), map[], 0);
      CompactLengths(t);
      RunOverZeros(t, ext, Lengths(t), hasStack, s);
      RunOverZeros(Compact(t), ext, Lengths(t), hasStack, s);
      assert !SameOutcome(RunTable(Compact(t), ext, [], Lengths(t), hasStack, s),
        RunTable(t, ext, [], Lengths(t), hasStack, s));
    }
  }

  // No two neighbours can be merged any more.
  lemma {:induction false} CompactIsFinal(t: seq<Sequence>)
    ensures var c := Compact(t);
      && (c != [] ==> t != [] && (Mergeable(c[0]) ==> Mergeable(t[0])))
      && forall i :: 0 <= i < |c| - 1 ==>
        !(c[i].inputType == c[i + 1].inputType == 0 && c[i].inputLength != 0xFFFF && c[i + 1].inputLength != 0xFFFF)
    decreases |t|
  {
    if t != [] {
      CompactIsFinal(t[if Mergeable(t[0]) then HeadRun(t) else 1..]);
    }
  }

  // The entries that have a type.
  function Typed(t: seq<Sequence>): seq<Sequence> {
    if t == [] then [] else (if t[0].inputType == 0 then [] else [t[0]]) + Typed(t[1..])
  }

  lemma {:induction false} TypedBehind(t: seq<Sequence>, n: nat)
    requires n <= |t| && forall i :: 0 <= i < n ==> t[i].inputType == 0
    ensures Typed(t[n..]) == Typed(t)
  {
    if n != 0 {
      assert t[1..][n - 1..] == t[n..];
      TypedBehind(t[1..], n - 1);
    } else {
      assert t[0..] == t;
    }
  }

  // They are all still there, as they were and in their order.
  lemma {:induction false} CompactKeepsTyped(t: seq<Sequence>)
    ensures Typed(Compact(t)) == Typed(t)
    decreases |t|
  {
    if t != [] {
      if Mergeable(t[0]) {
        var n := HeadRun(t);
        forall i | 0 <= i < n
          ensures t[i].inputType == 0
        {
          assert t[..n][i] in t[..n];
        }
        TypedBehind(t, n);
        CompactKeepsTyped(t[n..]);
        assert Compact(t)[1..] == Compact(t[n..]);
      } else {
        CompactKeepsTyped(t[1..]);
        assert Compact(t)[1..] == Compact(t[1..]);
      }
    }
  }

  // Skips fit anywhere.
  lemma {:induction false} GoodBehindSkips(t: seq<Sequence>, n: nat, ext: seq<U16>, seen: set<U16>)
    requires |ext| == MAXEXTENSIONS && n <= |t| && forall e :: e in t[..n] ==> IsSkip(e)
    ensures GoodFrom(t, ext, seen) <==> GoodFrom(t[n..], ext, seen)
  {
    if n == 0 {
      assert t[0..] == t;
    } else {
      assert t[0] == t[..n][0] && t[0] in t[..n] && t[1..][n - 1..] == t[n..] && seen + {} == seen;
      assert forall e :: e in t[1..][..n - 1] ==> e in t[..n];
      GoodBehindSkips(t[1..], n - 1, ext, seen);
    }
  }

  // A compacted table is good if and only if the table is.
  lemma {:induction false} CompactIsGood(t: seq<Sequence>, ext: seq<U16>, seen: set<U16>)
    requires |ext| == MAXEXTENSIONS && PureSkips(t)
    ensures GoodFrom(Compact(t), ext, seen) <==> GoodFrom(t, ext, seen)
    decreases |t|
  {
    if t != [] {
      assert t[0] in t && forall e :: e in t[1..] ==> e in t;
      if Mergeable(t[0]) {
        var n := HeadRun(t);
        var m := Merged(t[..n]);
        assert forall e :: e in t[..n] ==> e in t;
        assert (forall e :: e in t[n..] ==> e in t) && Compact(t)[1..] == Compact(t[n..]) && Compact(t)[0] == m;
        GoodBehindSkips(t, n, ext, seen);
        GoodBehindSkips(Compact(t), 1, ext, seen) by { assert Compact(t)[..1] == [m]; }
        CompactIsGood(t[n..], ext, seen);
      } else {
        assert Compact(t)[1..] == Compact(t[1..]);
        CompactIsGood(t[1..], ext, seen + Element(t[0]));
      }
    }
  }

  // ---- The sequencer itself -----------------------------------------------

  // Nested templates, which the skip branch would descend into, do not occur.
  const SUB_TEMPLATE_LIST: U16 := 292
  const SUB_TEMPLATE_MULTI_LIST: U16 := 293

  predicate Flat(t: seq<Sequence>) {
    forall e :: e in t && IsSkip(e) ==> e.inputType != SUB_TEMPLATE_LIST && e.inputType != SUB_TEMPLATE_MULTI_LIST
  }

  method Memcpy(out: array<Byte>, at: nat, data: seq<Byte>)
    requires at + |data| <= out.Length
    modifies out
    ensures out[..] == Poke(old(out[..]), at, data)
  {
    hide *;
    ghost var b := out[..];
    for i := 0 to |data|
      invariant forall k :: 0 <= k < out.Length && !(at <= k < at + i) ==> out[k] == b[k]
      invariant forall k :: at <= k < at + i ==> out[k] == data[k - at]
    {
      out[at + i] := data[i];
    }
    Poked(b, out[..], at, data);
  }

  lemma Poked(b: seq<Byte>, c: seq<Byte>, at: nat, data: seq<Byte>)
    requires at + |data| <= |b| == |c|
    requires forall k :: 0 <= k < |c| && !(at <= k < at + |data|) ==> c[k] == b[k]
    requires forall k :: at <= k < at + |data| ==> c[k] == data[k - at]
    ensures c == Poke(b, at, data)
  {
    assert c[..at] == b[..at] && c[at..at + |data|] == data && c[at + |data|..] == b[at + |data|..];
  }

  method Store16(out: array<Byte>, at: nat, v: U16)
    requires at + 1 < out.Length
    modifies out
    ensures out[..] == Put16(old(out[..]), at, v)
  {
    out[at], out[at + 1] := v % 256, v / 256;
  }

  function Load16(a: array<Byte>, i: nat): U16
    requires i + 1 < a.Length
    reads a
    ensures Load16(a, i) == Get16(a[..], i)
  {
    var lo: int, hi: int := a[i], a[i + 1];
    lo + 256 * hi
  }

  method StoreElement(out: array<Byte>, at: nat, id: U16, size: nat)
    requires ELEMENT_HEADER <= size && at + size <= out.Length
    modifies out
    ensures out[..] == PutElement(old(out[..]), at, id, size)
  {
    hide Poke, Put16;
    Memcpy(out, at, seq<Byte>(size, _ => 0));
    Store16(out, at, id);
    Store16(out, at + 2, size % 0x1_0000);
  }

  method StoreHeader(out: array<Byte>, size: U16, numElements: U16)
    requires HEADER <= out.Length
    modifies out
    ensures out[..] == PutHeader(old(out[..]), size, numElements)
  {
    Store16(out, 2, size);
    Store16(out, 4, numElements);
  }

  class Sequencer {
    const sequenceTable: array<Sequence>
    var extSize: seq<U16>
    var numSequences: nat
    var numElements: nat
    var offsetCache: map<U16, nat>
    var inLength: nat
    var outLength: nat

    ghost predicate Valid()
      reads this, sequenceTable
    {
      numSequences <= sequenceTable.Length && |extSize| == MAXEXTENSIONS && Ids(sequenceTable[..numSequences])
    }

    ghost function Table(): seq<Sequence>
      requires Valid()
      reads this, sequenceTable
    {
      sequenceTable[..numSequences]
    }

    constructor (table: array<Sequence>, ext: seq<U16>)
      requires |ext| == MAXEXTENSIONS && Ids(table[..])
      ensures Valid() && sequenceTable == table && extSize == ext && Table() == table[..]
    {
      sequenceTable, extSize, numSequences := table, ext, table.Length;
      offsetCache, inLength, outLength, numElements := map[], 0, 0, 0;
      new;
      assert table[..table.Length] == table[..];
    }

    // Adds up the lengths of the mergeable entries behind entry `i`.
    method MergeRun(i: nat) returns (j: nat)
      requires i < numSequences <= sequenceTable.Length && Mergeable(sequenceTable[i])
      modifies sequenceTable
      ensures
        var t := old(sequenceTable[i..numSequences]);
        && j == i + HeadRun(t)
        && sequenceTable[..] == old(sequenceTable[..])[i := Merged(t[..HeadRun(t)])]
    {
      hide *;
      ghost var t := sequenceTable[i..numSequences];
      j := i + 1;
      RunStart(t);
      while j < numSequences
        invariant i < j <= numSequences
        invariant AllMergeable(t[..j - i])
        invariant sequenceTable[..] == old(sequenceTable[..])[i := t[0].(inputLength := Sum(t[..j - i]) % 0x1_0000)]
      {
        if sequenceTable[j].inputType == 0 && sequenceTable[j].inputLength != VARLENGTH {
          assert sequenceTable[j] == t[j - i];
          RunStep(t, j - i);
          sequenceTable[i] := sequenceTable[i].(inputLength := (sequenceTable[i].inputLength
            + sequenceTable[j].inputLength) % 0x1_0000);
          j := j + 1;
        } else {
          break;
        }
      }
      RunEnd(t, j - i);
    }

    lemma RunStart(t: seq<Sequence>)
      requires t != [] && Mergeable(t[0])
      ensures AllMergeable(t[..1]) && t[0].(inputLength := Sum(t[..1]) % 0x1_0000) == t[0]
    {
      assert t[..1] == [t[0]] && Sum(t[..1]) == t[0].inputLength + Sum([]);
    }

    lemma RunStep(t: seq<Sequence>, n: nat)
      requires n < |t|
      ensures (Sum(t[..n]) % 0x1_0000 + t[n].inputLength) % 0x1_0000 == Sum(t[..n + 1]) % 0x1_0000
      ensures Mergeable(t[n]) <==> t[n].inputType == 0 && t[n].inputLength != VARLENGTH
      ensures AllMergeable(t[..n]) && Mergeable(t[n]) ==> AllMergeable(t[..n + 1])
    {
      SumSnoc(t, n);
    }

    lemma RunEnd(t: seq<Sequence>, n: nat)
      requires 0 < n <= |t| && AllMergeable(t[..n])
      requires n < |t| ==> !(t[n].inputType == 0 && t[n].inputLength != VARLENGTH)
      ensures HeadRun(t) == n && Merged(t[..n]) == t[0].(inputLength := Sum(t[..n]) % 0x1_0000)
    {
      HeadRunIs(t, n);
    }

    // Moves the entries from `j` on down to `from`.
    method CloseUp(from: nat, j: nat) returns (k: nat)
      requires from <= j <= numSequences <= sequenceTable.Length
      modifies sequenceTable
      ensures k == from + (numSequences - j)
      ensures sequenceTable[..from] == old(sequenceTable[..from])
      ensures sequenceTable[from..k] == old(sequenceTable[j..numSequences])
    {
      ghost var was := sequenceTable[..];
      var m := j;
      k := from;
      while m < numSequences
        invariant j <= m <= numSequences && k == from + (m - j)
        invariant forall x :: 0 <= x < from || m <= x < sequenceTable.Length ==> sequenceTable[x] == was[x]
        invariant sequenceTable[from..k] == was[j..m]
      {
        assert was[j..m + 1] == was[j..m] + [was[m]];
        sequenceTable[k] := sequenceTable[m];
        assert sequenceTable[from..k + 1] == sequenceTable[from..k] + [was[m]];
        k := k + 1;
        m := m + 1;
      }
    }

    // Replaces the run of mergeable entries at `i` by one entry.
    method MergeAt(i: nat)
      requires i < numSequences <= sequenceTable.Length && Mergeable(sequenceTable[i])
      modifies this`numSequences, sequenceTable
      ensures i < numSequences <= sequenceTable.Length && numSequences <= old(numSequences)
      ensures
        var t := old(sequenceTable[i..numSequences]);
        && sequenceTable[..i] == old(sequenceTable[..i])
        && sequenceTable[i] == Merged(t[..HeadRun(t)])
        && sequenceTable[i + 1..numSequences] == t[HeadRun(t)..]
    {
      ghost var t := sequenceTable[i..numSequences];
      ghost var before := sequenceTable[..i];
      var j := MergeRun(i);
      assert sequenceTable[j..numSequences] == t[HeadRun(t)..];
      ghost var head := sequenceTable[..i + 1];
      assert head == before + [Merged(t[..HeadRun(t)])];
      var k := CloseUp(i + 1, j);
      numSequences := k;
      assert sequenceTable[..i] == sequenceTable[..i + 1][..i] && sequenceTable[i] == sequenceTable[..i + 1][i];
    }

    // One turn of the loop of CompactSequencer: entry `i` is done afterwards.
    method CompactAt(i: nat)
      requires i < numSequences <= sequenceTable.Length
      modifies this`numSequences, sequenceTable
      ensures i < numSequences <= sequenceTable.Length && numSequences <= old(numSequences)
      ensures sequenceTable[..i] == old(sequenceTable[..i])
      ensures [sequenceTable[i]] + Compact(sequenceTable[i + 1..numSequences])
        == Compact(old(sequenceTable[i..numSequences]))
    {
      ghost var rest := sequenceTable[i..numSequences];
      if sequenceTable[i].inputType != 0 || sequenceTable[i].inputLength == VARLENGTH {
        assert rest[1..] == sequenceTable[i + 1..numSequences];
      } else {
        MergeAt(i);
      }
    }

    // CompactSequencer.
    method CompactSequencer()
      requires Valid()
      modifies this`numSequences, sequenceTable
      ensures Valid() && Table() == Compact(old(Table()))
    {
      hide Compact, Ids;
      ghost var t := Table();
      var i := 0;
      assert sequenceTable[0..numSequences] == t && sequenceTable[..0] == [];
      while i < numSequences
        invariant i <= numSequences <= sequenceTable.Length
        invariant sequenceTable[..i] + Compact(sequenceTable[i..numSequences]) == Compact(t)
        decreases numSequences - i
      {
        ghost var done, todo := sequenceTable[..i], Compact(sequenceTable[i..numSequences]);
        CompactAt(i);
        OneMoreDone(done, sequenceTable[i], Compact(sequenceTable[i + 1..numSequences]), todo);
        assert sequenceTable[..i + 1] == done + [sequenceTable[i]];
        i := i + 1;
      }
      assert sequenceTable[i..numSequences] == [];
      NothingToDo(sequenceTable[..i]);
      CompactIds(t);
    }

    lemma OneMoreDone(done: seq<Sequence>, e: Sequence, rest: seq<Sequence>, todo: seq<Sequence>)
      requires todo == [e] + rest
      ensures done + todo == done + [e] + rest
    {
    }

    lemma NothingToDo(done: seq<Sequence>)
      ensures done + Compact([]) == done
    {
    }

    // The parts of a state with one more element; its size and count are 16-bit numbers.
    lemma Added(s: State, id: U16, size: nat)
      ensures var at, n, s' := Get16(s.buf, 2), Get16(s.buf, 4), AddElement(s, id, size);
        && at == Size(s.buf) && n == NumElements(s.buf) && (n + 1) % 0x1_0000 < 0x1_0000 && HEADER == 12
        && ELEMENT_HEADER == 4
        && s'.buf == PutHeader(PutElement(s.buf, at, id, size), (at + size) % 0x1_0000, (n + 1) % 0x1_0000)
        && s'.cache == s.cache[id := at + ELEMENT_HEADER]
    {
      hide PutElement, PutHeader;
    }

    // Appends an element to the record and remembers where its payload is.
    method NewElement(out: array<Byte>, id: U16, size: nat, ghost s: State)
      requires s.buf == out[..] && s.cache == offsetCache && HEADER <= out.Length
      requires ELEMENT_HEADER <= size && Size(s.buf) + size <= out.Length
      modifies this`offsetCache, out
      ensures var s' := AddElement(s, id, size); out[..] == s'.buf && offsetCache == s'.cache
    {
      hide *;
      Added(s, id, size);
      var at: nat, numElements: int := Load16(out, 2), Load16(out, 4);
      StoreElement(out, at, id, size);
      offsetCache := offsetCache[id := at + ELEMENT_HEADER];
      StoreHeader(out, (at + size) % 0x1_0000, (numElements + 1) % 0x1_0000);
    }

    // Copies one field into its element, or to the stack.
    method CopyField(out: array<Byte>, e: Sequence, data: seq<Byte>, outLength: nat, hasStack: bool,
                     stack: map<U16, seq<Byte>>, ghost s: State)
      returns (stack': map<U16, seq<Byte>>)
      requires s.buf == out[..] && s.cache == offsetCache && s.stack == stack
      requires Stored(e, |data|, outLength) == 0
        || (e.extensionID in offsetCache
            && offsetCache[e.extensionID] + e.offsetRel + Stored(e, |data|, outLength) <= out.Length)
      modifies out
      ensures var s' := StoreField(e, data, outLength, hasStack, s); out[..] == s'.buf && stack' == s'.stack
    {
      hide Poke;
      ghost var at := (if e.extensionID in s.cache then s.cache[e.extensionID] else 0) + e.offsetRel;
      PokeNothing(s.buf, at);
      stack' := stack;
      var varLength := e.inputLength == VARLENGTH;
      if varLength || e.copyMode == ByteCopy || |data| > 16 {
        var copyLen := if |data| < outLength then |data| else outLength;
        if copyLen != 0 {
          Memcpy(out, offsetCache[e.extensionID] + e.offsetRel, data[..copyLen]);
        } else {
          assert data[..copyLen] == [];
        }
        assert out[..] == Poke(s.buf, at, data[..copyLen]);
      } else {
        var valBuff := ValBuff(data);
        if e.stackID != 0 && hasStack {
          stack' := stack[e.stackID := valBuff[..8]];
        }
        var n := StoreLength(|data|, outLength);
        if n != 0 {
          Memcpy(out, offsetCache[e.extensionID] + e.offsetRel, valBuff[..n]);
        }
      }
    }

    // The length field of one entry. Of a variable length it is the number that
    // was encoded, in either way, and the place behind its code.
    method DecodeLength(e: Sequence, mem: seq<Byte>, start: nat) returns (inLength: U16, pos: nat)
      ensures (inLength, pos) == FieldLength(e, mem, start)
      ensures e.inputLength != VARLENGTH ==> inLength == e.inputLength && pos == start
      ensures forall n: U16, long: bool :: e.inputLength == VARLENGTH && HasLength(mem, start, n, long) ==>
        inLength == n && pos == start + |EncodeLength(n, long)|
    {
      forall n: U16, long: bool | e.inputLength == VARLENGTH && HasLength(mem, start, n, long)
        ensures FieldLength(e, mem, start) == (n, start + |EncodeLength(n, long)|)
      {
        LengthRoundTrip(e, mem, start, n, long);
      }
      inLength, pos := e.inputLength, start;
      if e.inputLength == VARLENGTH {
        var len := At(mem, pos);
        if len < 255 {
          inLength := len;
          pos := pos + 1;
        } else {
          inLength := 256 * At(mem, pos + 1) + At(mem, pos + 2);
          pos := pos + 3;
        }
      }
    }

    // What opening a field comes to.
    lemma Opened(e: Sequence, ext: seq<U16>, inLength: U16, s: State)
      requires |ext| == MAXEXTENSIONS && e.extensionID < MAXEXTENSIONS && !IsSkip(e)
      requires Fitting(e, ext, s.cache.Keys)
      ensures MAXEXTENSIONS == 43 && HEADER == 12
      ensures IsNew(e, s) <==> e.extensionID != EXnull && e.extensionID !in s.cache
      ensures NoRoom(e, ext, inLength, s) <==> IsNew(e, s) && Size(s.buf) + ElementSize(e, ext, inLength) > |s.buf|
      ensures IsNew(e, s) ==>
        && OpenField(e, ext, inLength, s) == AddElement(s, e.extensionID, ElementSize(e, ext, inLength))
        && ElementSize(e, ext, inLength) == ext[e.extensionID] + (if e.outputLength == VARLENGTH then inLength else 0)
        && ELEMENT_HEADER <= ext[e.extensionID] && Size(s.buf) == Get16(s.buf, 2)
      ensures !IsNew(e, s) ==> OpenField(e, ext, inLength, s) == s
      ensures OutLength(e, inLength, s) == if IsNew(e, s) && e.outputLength == VARLENGTH then inLength
        else e.outputLength
      ensures IsNew(e, s) ==> forall size :: var s' := AddElement(s, e.extensionID, size);
        s'.pos == s.pos && s'.stack == s.stack && s'.produced == s.produced + size
    {
    }

    // Adds the element an entry writes to, if it is not there yet and fits.
    method OpenElement(e: Sequence, inLength: U16, out: array<Byte>, totalOut: nat, ghost s: State)
      returns (ok: bool, outLength: nat, totalOut': nat)
      requires |extSize| == MAXEXTENSIONS && e.extensionID < MAXEXTENSIONS && !IsSkip(e)
      requires Fitting(e, extSize, offsetCache.Keys) && HEADER <= out.Length
      requires s.buf == out[..] && s.cache == offsetCache && s.produced == totalOut
      modifies this`offsetCache, out
      ensures ok == !NoRoom(e, extSize, inLength, s)
      ensures
        var s1 := if ok then OpenField(e, extSize, inLength, s) else s;
        && out[..] == s1.buf && offsetCache == s1.cache && totalOut' == s1.produced
        && s1.pos == s.pos && s1.stack == s.stack
      ensures ok ==> outLength == OutLength(e, inLength, s)
    {
      hide *;
      Opened(e, extSize, inLength, s);
      ok, outLength, totalOut' := true, e.outputLength, totalOut;
      var extID := e.extensionID;
      if extID !in offsetCache && extID != EXnull {
        var elementSize: nat := extSize[extID];
        if e.outputLength == VARLENGTH {
          outLength := inLength;
          elementSize := extSize[extID] + outLength;
        }
        if Load16(out, 2) + elementSize > out.Length {
          ok := false;
          return;
        }
        NewElement(out, extID, elementSize, s);
        totalOut' := totalOut + elementSize;
      }
    }

    // Where a run stands.
    ghost function Now(out: array<Byte>, stack: map<U16, seq<Byte>>, totalIn: nat, totalOut: nat): State
      reads this, out
    {
      State(totalIn, out[..], offsetCache, stack, totalOut)
    }

    // One turn of the loop of SequencerRun. `code` is SEQ_OK to go on.
    method RunOne(e: Sequence, mem: seq<Byte>, inSize: nat, out: array<Byte>, hasStack: bool,
                  stack: map<U16, seq<Byte>>, totalIn: nat, totalOut: nat)
      returns (code: Code, stack': map<U16, seq<Byte>>, totalIn': nat, totalOut': nat)
      requires |extSize| == MAXEXTENSIONS && e.extensionID < MAXEXTENSIONS && HEADER <= out.Length
      requires Fitting(e, extSize, offsetCache.Keys) && Placed(Now(out, stack, totalIn, totalOut), extSize)
      modifies this`offsetCache, out
      ensures
        var r := RunEntry(e, extSize, mem, inSize, hasStack, old(Now(out, stack, totalIn, totalOut)));
        && code == (if r.Fail? then r.code else SEQ_OK) && (r.Fail? <==> code != SEQ_OK)
        && Now(out, stack', totalIn', totalOut') == r.s
    {
      hide OpenField, StoreField, Fitting, Placed, Stored;
      code, stack', totalIn', totalOut' := SEQ_OK, stack, totalIn, totalOut;
      ghost var s := Now(out, stack, totalIn, totalOut);
      var inLength, pos := DecodeLength(e, mem, totalIn);
      if pos + inLength > inSize {
        code := SEQ_ERROR;
        return;
      }
      if e.extensionID == EXnull && e.stackID == 0 {
        totalIn' := pos + inLength;
        return;
      }
      var ok, outLength;
      ok, outLength, totalOut' := OpenElement(e, inLength, out, totalOut, s);
      if !ok {
        code := SEQ_MEM_ERR;
        return;
      }
      if inLength == 0 {
        totalIn' := pos;
        return;
      }
      FieldInBuffer(e, extSize, inLength, s);
      StoreFieldProduces(e, Take(mem, pos, inLength), outLength, hasStack, OpenField(e, extSize, inLength, s));
      stack' := CopyField(out, e, Take(mem, pos, inLength), outLength, hasStack, stack,
        OpenField(e, extSize, inLength, s));
      totalIn' := pos + inLength;
    }

    // The loop of SequencerRun.
    method RunFrom(mem: seq<Byte>, inSize: nat, out: array<Byte>, hasStack: bool, stack: map<U16, seq<Byte>>)
      returns (code: Code, stack': map<U16, seq<Byte>>, totalIn: nat, totalOut: nat)
      requires Valid() && GoodTable(Table(), extSize) && offsetCache == map[] && HEADER <= out.Length
      modifies this`offsetCache, out
      ensures
        var r := RunTable(Table(), extSize, mem, inSize, hasStack, old(Now(out, stack, 0, 0)));
        && code == (if r.Fail? then r.code else SEQ_OK) && (r.Fail? <==> code != SEQ_OK)
        && Now(out, stack', totalIn, totalOut) == r.s
    {
      hide RunEntry, Fitting;
      code, stack', totalIn, totalOut := SEQ_OK, stack, 0, 0;
      ghost var t := Table();
      ghost var s0 := Now(out, stack, 0, 0);
      var i := 0;
      assert t[0..] == t && offsetCache.Keys == {};
      while i < numSequences
        invariant i <= numSequences && t == Table() && code == SEQ_OK
        invariant Placed(Now(out, stack', totalIn, totalOut), extSize)
        invariant GoodFrom(t[i..], extSize, offsetCache.Keys)
        invariant RunTable(t[i..], extSize, mem, inSize, hasStack, Now(out, stack', totalIn, totalOut))
          == RunTable(t, extSize, mem, inSize, hasStack, s0)
      {
        ghost var s, rest := Now(out, stack', totalIn, totalOut), t[i..];
        assert rest[0] == sequenceTable[i] && rest[0] in rest && rest[1..] == t[i + 1..];
        TurnIsPlaced(rest[0], extSize, mem, inSize, hasStack, s);
        code, stack', totalIn, totalOut := RunOne(sequenceTable[i], mem, inSize, out, hasStack, stack', totalIn,
          totalOut);
        if code != SEQ_OK {
          return;
        }
        i := i + 1;
      }
      assert t[i..] == [];
    }

    // SequencerRun. Whatever is in the output buffer, and however large it is,
    // the result is that of RunTable, and nothing outside of it is written. A
    // well-formed record stays one, so that VerifyV3Record accepts it, if its
    // size can count what the run adds; a caller can see to it beforehand.
    method SequencerRun(mem: seq<Byte>, inSize: nat, out: array<Byte>, hasStack: bool, stack: map<U16, seq<Byte>>)
      returns (code: Code, stack': map<U16, seq<Byte>>)
      requires Valid() && GoodTable(Table(), extSize) && Flat(Table()) && HEADER <= out.Length
      modifies this`offsetCache, this`inLength, this`outLength, out
      ensures inSize == 0 ==> code == SEQ_OK && stack' == stack && unchanged(this) && unchanged(out)
      ensures inSize != 0 ==>
        var s := State(0, old(out[..]), map[], stack, 0);
        var r := RunTable(Table(), extSize, mem, inSize, hasStack, s);
        && code == (if r.Fail? then r.code else SEQ_OK)
        && out[..] == r.s.buf && stack' == r.s.stack
        && inLength == (if r.Next? then r.s.pos else old(inLength))
        && outLength == (if r.Next? then r.s.produced else old(outLength))
        && (Wellformed(s.buf) ==>
          && (SafeRun(Table(), extSize, mem, inSize, hasStack, s) <==> Size(s.buf) + r.s.produced < 0x1_0000)
          && (Roomy(Table(), extSize, inSize, s) ==> SafeRun(Table(), extSize, mem, inSize, hasStack, s))
          && (SafeRun(Table(), extSize, mem, inSize, hasStack, s) ==>
            && Wellformed(out[..])
            && (code == SEQ_OK ==> inLength <= inSize && outLength == Size(out[..]) - Size(s.buf))))
    {
      code, stack' := SEQ_OK, stack;
      if inSize == 0 {
        return;
      }
      hide RunTable, SafeRun, Roomy, GoodFrom, Wellformed;
      offsetCache := map[];
      ghost var s0 := Now(out, stack, 0, 0);
      if Wellformed(s0.buf) {
        FromTheStart(Table(), extSize, mem, inSize, hasStack, s0);
      }
      var totalIn, totalOut;
      code, stack', totalIn, totalOut := RunFrom(mem, inSize, out, hasStack, stack);
      if code == SEQ_OK {
        inLength := totalIn;
        outLength := totalOut;
      }
    }
  }

  // A run from its start.
  lemma FromTheStart(t: seq<Sequence>, ext: seq<U16>, mem: seq<Byte>, inSize: nat, hasStack: bool, s: State)
    requires |ext| == MAXEXTENSIONS && GoodTable(t, ext) && Ids(t) && s.pos == s.produced == 0 && s.cache == map[]
      && Wellformed(s.buf)
    ensures var r := RunTable(t, ext, mem, inSize, hasStack, s);
      && (SafeRun(t, ext, mem, inSize, hasStack, s) <==> Size(s.buf) + r.s.produced < 0x1_0000)
      && (Roomy(t, ext, inSize, s) ==> SafeRun(t, ext, mem, inSize, hasStack, s))
      && (SafeRun(t, ext, mem, inSize, hasStack, s) ==>
        Wellformed(r.s.buf) && r.s.produced == Size(r.s.buf) - Size(s.buf) && (r.Next? ==> r.s.pos <= inSize))
  {
    hide RunTable, SafeRun, Roomy, GoodFrom, Wellformed;
    assert s.cache.Keys == {};
    RunTableKeeps(t, ext, mem, inSize, hasStack, s);
    if Roomy(t, ext, inSize, s) {
      RoomyIsSafe(t, ext, mem, inSize, hasStack, s);
    }
  }

  lemma {:induction false} SumSnoc(t: seq<Sequence>, n: nat)
    requires n < |t|
    ensures Sum(t[..n + 1]) == Sum(t[..n]) + t[n].inputLength
  {
    if 0 < n {
      assert t[..n + 1][1..] == t[1..][..n] && t[..n][1..] == t[1..][..n - 1];
      SumSnoc(t[1..], n - 1);
    } else {
      assert t[..1][1..] == [];
    }
  }

  lemma {:induction false} HeadRunIs(t: seq<Sequence>, n: nat)
    requires n <= |t| && AllMergeable(t[..n]) && (n < |t| ==> !Mergeable(t[n]))
    ensures HeadRun(t) == n
  {
    if 0 < n {
      assert t[..n][0] == t[0] && t[0] in t[..n];
      assert forall e :: e in t[1..][..n - 1] ==> e in t[..n];
      HeadRunIs(t[1..], n - 1);
    }
  }
}
