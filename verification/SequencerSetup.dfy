/**
 How a table gets its output lengths and its extensions their sizes, and when
 that makes it a table that the sequencer can be run with.
 */
module SequencerSetup {
  import opened V3Record
  import opened SequencerSpec
  import opened SequencerTable
  import opened SequencerSafety
  import SequencerFields

  // A field of fixed length in the input is one in the output.
  function Fixed(e: Sequence): Sequence {
    if e.outputLength == VARLENGTH && e.inputLength != VARLENGTH then e.(outputLength := e.inputLength) else e
  }

  function FixedAll(t: seq<Sequence>): (r: seq<Sequence>)
    ensures |r| == |t|
  {
    if t == [] then [] else [Fixed(t[0])] + FixedAll(t[1..])
  }

  // The size an entry gives its extension; `base` is that of extensionTable.
  function SizeOf(e: Sequence, base: seq<U16>): U16
    requires e.extensionID < |base|
  {
    var size := base[e.extensionID];
    if e.outputLength == VARLENGTH && e.inputLength != VARLENGTH then (e.inputLength + size) % 0x1_0000 else size
  }

  // The sizes after all entries: the last one of an extension counts.
  function Sizes(t: seq<Sequence>, base: seq<U16>, ext: seq<U16>): (r: seq<U16>)
    requires |base| == |ext| == MAXEXTENSIONS && Ids(t)
    ensures |r| == MAXEXTENSIONS
  {
    if t == [] then ext else
      assert t[0] in t;
      Sizes(t[1..], base, ext[t[0].extensionID := SizeOf(t[0], base)])
  }

  // What the translation maps promise: every field has its place, and an
  // extension has output of variable length only or none.
  predicate Mapped(e: Sequence, base: seq<U16>)
    requires |base| == MAXEXTENSIONS
  {
    && e.extensionID < MAXEXTENSIONS
    && (if e.extensionID == EXnull then e.stackID != 0 ==> e.outputLength == 0
        else
          var n := if e.outputLength == VARLENGTH then 0 else e.outputLength;
          e.offsetRel + n + ELEMENT_HEADER <= base[e.extensionID])
  }

  predicate Uniform(t: seq<Sequence>) {
    forall e, f :: e in t && f in t && e.extensionID == f.extensionID != EXnull ==>
      (e.outputLength == VARLENGTH <==> f.outputLength == VARLENGTH)
  }

  // The last entry of the extension of `e`, which comes before the others.
  function LastOf(t: seq<Sequence>, e: Sequence): (r: Sequence)
    ensures r.extensionID == e.extensionID && (r == e || r in t)
  {
    if t == [] then e else LastOf(t[1..], if t[0].extensionID == e.extensionID then t[0] else e)
  }

  // A field whose output is as long as its input. A variable one has to be the
  // first of its extension; the place of the others, and what comes before a
  // variable one, has to fit the size that the last entry sets.
  predicate SafeField(e: Sequence, last: Sequence, base: seq<U16>, first: bool)
    requires |base| == MAXEXTENSIONS && last.extensionID < MAXEXTENSIONS
  {
    e.extensionID != EXnull && e.outputLength == VARLENGTH ==>
      var size := SizeOf(last, base);
      && (first ==> ELEMENT_HEADER <= size)
      && (if e.inputLength == VARLENGTH then first && e.offsetRel + ELEMENT_HEADER <= size
          else e.inputLength == 0 || e.offsetRel + e.inputLength + ELEMENT_HEADER <= size)
  }

  // So it is for all fields of a template; those of the extensions in `seen`
  // are not the first ones.
  predicate SafeFrom(t: seq<Sequence>, base: seq<U16>, seen: set<U16>)
    requires |base| == MAXEXTENSIONS && Ids(t)
  {
    t == [] || (
      assert t[0] in t;
      && SafeField(t[0], LastOf(t[1..], t[0]), base, t[0].extensionID !in seen)
      && SafeFrom(t[1..], base, seen + Element(t[0])))
  }

  predicate SafeTemplate(t: seq<Sequence>, base: seq<U16>)
    requires |base| == MAXEXTENSIONS && Ids(t)
  {
    SafeFrom(t, base, {})
  }

  // ---- When the result can be run ------------------------------------------

  // The sizes are those of the last entries.
  predicate Sized(t: seq<Sequence>, base: seq<U16>, ext: seq<U16>)
    requires |base| == |ext| == MAXEXTENSIONS && Ids(t)
  {
    t == [] || (
      assert t[0] in t;
      && ext[t[0].extensionID] == SizeOf(LastOf(t[1..], t[0]), base) && Sized(t[1..], base, ext))
  }

  lemma {:induction false} SizeOfLast(t: seq<Sequence>, base: seq<U16>, ext: seq<U16>, e: Sequence)
    requires |base| == |ext| == MAXEXTENSIONS && Ids(t) && e.extensionID < MAXEXTENSIONS
    requires ext[e.extensionID] == SizeOf(e, base)
    ensures Sizes(t, base, ext)[e.extensionID] == SizeOf(LastOf(t, e), base)
  {
    if t != [] {
      assert t[0] in t;
      SizeOfLast(t[1..], base, ext[t[0].extensionID := SizeOf(t[0], base)],
        if t[0].extensionID == e.extensionID then t[0] else e);
    }
  }

  lemma {:induction false} SizesAreSized(t: seq<Sequence>, base: seq<U16>, ext: seq<U16>)
    requires |base| == |ext| == MAXEXTENSIONS && Ids(t)
    ensures Sized(t, base, Sizes(t, base, ext))
  {
    if t != [] {
      assert t[0] in t;
      var ext' := ext[t[0].extensionID := SizeOf(t[0], base)];
      SizeOfLast(t[1..], base, ext', t[0]);
      SizesAreSized(t[1..], base, ext');
    }
  }

  lemma {:induction false} FixedIn(t: seq<Sequence>)
    ensures forall u :: u in t ==> Fixed(u) in FixedAll(t)
    ensures forall v :: v in FixedAll(t) ==> exists u :: u in t && v == Fixed(u)
  {
    if t != [] {
      FixedIn(t[1..]);
      assert t == [t[0]] + t[1..];
    }
  }

  // An entry is set up to fit exactly if its field is safe.
  lemma FixedFits(e: Sequence, last: Sequence, base: seq<U16>, ext: seq<U16>, seen: set<U16>)
    requires |base| == |ext| == MAXEXTENSIONS && Mapped(e, base) && last.extensionID == e.extensionID
    requires ext[e.extensionID] == SizeOf(last, base)
    requires e.extensionID != EXnull ==> (e.outputLength == VARLENGTH <==> last.outputLength == VARLENGTH)
    ensures Fitting(Fixed(e), ext, seen) <==> SafeField(e, last, base, e.extensionID !in seen)
  {
    if e.extensionID == EXnull {
      assert e.stackID != 0 ==> Most(Fixed(e)) == 0;
    } else if e.outputLength != VARLENGTH {
      assert Most(Fixed(e)) <= e.outputLength;
    } else if e.inputLength != VARLENGTH {
      assert Most(Fixed(e)) == e.inputLength;
    }
  }

  // A table that is set up is good exactly if its template is safe.
  lemma {:induction false} SetupIsGood(t: seq<Sequence>, base: seq<U16>, ext: seq<U16>, seen: set<U16>)
    requires |base| == |ext| == MAXEXTENSIONS && Ids(t) && Uniform(t)
    requires (forall e :: e in t ==> Mapped(e, base)) && Sized(t, base, ext)
    ensures GoodFrom(FixedAll(t), ext, seen) <==> SafeFrom(t, base, seen)
  {
    if t != [] {
      hide Fitting, SafeField, Mapped, SizeOf;
      var e, u := t[0], t[1..];
      var last := LastOf(u, e);
      assert e in t && [e] + u == t && last in t && forall f :: f in u ==> f in t;
      FixedFits(e, last, base, ext, seen);
      SetupIsGood(u, base, ext, seen + Element(e));
      assert FixedAll(t)[0] == Fixed(e) && FixedAll(t)[1..] == FixedAll(u) && Element(Fixed(e)) == Element(e);
    }
  }

  // ---- Compaction does not matter to it ------------------------------------

  lemma {:induction false} LastBehindSkips(t: seq<Sequence>, n: nat, e: Sequence)
    requires n <= |t| && e.extensionID != EXnull && forall u :: u in t[..n] ==> u.extensionID == EXnull
    ensures LastOf(t, e) == LastOf(t[n..], e)
  {
    if n == 0 {
      assert t[0..] == t;
    } else {
      assert t[0] == t[..n][0] && t[0] in t[..n] && t[1..][n - 1..] == t[n..] && t == [t[0]] + t[1..];
      assert forall u :: u in t[1..][..n - 1] ==> u in t[..n];
      LastBehindSkips(t[1..], n - 1, e);
    }
  }

  lemma {:induction false} SafeBehindSkips(t: seq<Sequence>, n: nat, base: seq<U16>, seen: set<U16>)
    requires |base| == MAXEXTENSIONS && Ids(t) && n <= |t| && forall u :: u in t[..n] ==> u.extensionID == EXnull
    ensures Ids(t[n..]) && SafeFrom(t, base, seen) == SafeFrom(t[n..], base, seen)
  {
    if n == 0 {
      assert t[0..] == t;
    } else {
      assert t[0] == t[..n][0] && t[0] in t[..n] && t[0] in t && t[1..][n - 1..] == t[n..] && seen + {} == seen;
      assert forall u :: u in t[1..][..n - 1] ==> u in t[..n];
      SafeBehindSkips(t[1..], n - 1, base, seen);
    }
  }

  // How many entries at the head of a table become one.
  function Head(t: seq<Sequence>): (n: nat)
    requires t != []
    ensures 0 < n <= |t|
  {
    if Mergeable(t[0]) then HeadRun(t) else 1
  }

  // The head of a table is one entry of the compacted one.
  lemma CompactHead(t: seq<Sequence>) returns (e: Sequence)
    requires t != [] && PureSkips(t)
    ensures Compact(t) == [e] + Compact(t[Head(t)..]) && PureSkips(t[Head(t)..])
    ensures if Mergeable(t[0]) then IsSkip(e) && forall u :: u in t[..Head(t)] ==> u.extensionID == EXnull
      else e == t[0]
  {
    var n := Head(t);
    e := if Mergeable(t[0]) then Merged(t[..n]) else t[0];
    assert t[0] in t && (forall u :: u in t[..n] ==> u in t) && forall u :: u in t[n..] ==> u in t;
  }

  lemma {:induction false} CompactLast(t: seq<Sequence>, e: Sequence)
    requires PureSkips(t) && e.extensionID != EXnull
    ensures LastOf(Compact(t), e) == LastOf(t, e)
    decreases |t|
  {
    if t != [] {
      hide Compact;
      var n := Head(t);
      var c := CompactHead(t);
      var rest := Compact(t[n..]);
      assert Compact(t)[1..] == rest && (Compact(t) == [c] + rest) && t == t[..1] + t[1..];
      if Mergeable(t[0]) {
        LastBehindSkips(t, n, e);
        CompactLast(t[n..], e);
      } else {
        CompactLast(t[1..], if t[0].extensionID == e.extensionID then t[0] else e);
      }
    }
  }

  lemma {:induction false} CompactSafe(t: seq<Sequence>, base: seq<U16>, seen: set<U16>)
    requires |base| == MAXEXTENSIONS && Ids(t) && PureSkips(t)
    ensures Ids(Compact(t)) && SafeFrom(Compact(t), base, seen) == SafeFrom(t, base, seen)
    decreases |t|
  {
    CompactIds(t);
    if t != [] {
      hide Compact, LastOf;
      var n := Head(t);
      var c := CompactHead(t);
      assert Compact(t)[1..] == Compact(t[n..]) && Compact(t)[0] == c && t[0] in t && c in Compact(t);
      assert forall u :: u in t[n..] ==> u in t;
      CompactSafe(t[n..], base, seen + Element(c));
      if Mergeable(t[0]) {
        assert seen + {} == seen;
        SafeBehindSkips(t, n, base, seen);
      } else if c.extensionID != EXnull {
        CompactLast(t[1..], c);
      }
    }
  }

  lemma CompactMapped(t: seq<Sequence>, base: seq<U16>)
    requires |base| == MAXEXTENSIONS && PureSkips(t) && Uniform(t) && forall e :: e in t ==> Mapped(e, base)
    ensures Uniform(Compact(t)) && forall e :: e in Compact(t) ==> Mapped(e, base)
  {
    CompactMembers(t);
    forall e | e in Compact(t)
      ensures Mapped(e, base) && (e in t || e.extensionID == EXnull)
    {
      if e !in t {
        var u :| u in t && Mergeable(u) && e == u.(inputLength := e.inputLength);
      }
    }
  }

  // ---- SetupSequencer ------------------------------------------------------

  function Zero(): (r: seq<U16>)
    ensures |r| == MAXEXTENSIONS
  {
    seq<U16>(MAXEXTENSIONS, _ => 0)
  }

  predicate AnyVariable(t: seq<Sequence>) {
    exists e :: e in t && e.inputLength == VARLENGTH
  }

  predicate AnyVariableOutput(t: seq<Sequence>) {
    exists e :: e in t && e.inputLength == e.outputLength == VARLENGTH
  }

  function FixedLength(t: seq<Sequence>): nat {
    if t == [] then 0 else
      FixedLength(t[..|t| - 1]) + if t[|t| - 1].inputLength == VARLENGTH then 0 else t[|t| - 1].inputLength
  }

  // The sizes of the extensions in a list, added up.
  function SumOver(ext: seq<U16>, list: seq<nat>): nat
    requires forall i :: 0 <= i < |list| ==> list[i] < |ext|
  {
    if list == [] then 0 else SumOver(ext, list[..|list| - 1]) + ext[list[|list| - 1]]
  }

  // The extensions from `from` to before `to` that have a size, in ascending order.
  ghost predicate Lists(ext: seq<U16>, list: seq<nat>, from: nat, to: nat) {
    && (forall i :: 0 <= i < |list| ==> list[i] < |ext|)
    && (forall i, j :: 0 <= i < j < |list| ==> list[i] < list[j])
    && forall x: nat :: x in list <==> from <= x < to && x < |ext| && ext[x] != 0
  }

  // An extension no entry names has no size.
  lemma {:induction false} SizesElsewhere(t: seq<Sequence>, base: seq<U16>, ext: seq<U16>, id: U16)
    requires |base| == |ext| == MAXEXTENSIONS && Ids(t) && id < MAXEXTENSIONS && forall e :: e in t ==>
      e.extensionID != id
    ensures Sizes(t, base, ext)[id] == ext[id]
  {
    if t != [] {
      assert t[0] in t && forall e :: e in t[1..] ==> e in t;
      SizesElsewhere(t[1..], base, ext[t[0].extensionID := SizeOf(t[0], base)], id);
    }
  }

  lemma {:induction false} FixedAt(t: seq<Sequence>, i: nat)
    requires i < |t|
    ensures FixedAll(t)[i] == Fixed(t[i])
  {
    if 0 < i {
      FixedAt(t[1..], i - 1);
    }
  }

  // What becomes of an entry: fixed output takes as much as its input.
  lemma FixedMeans(t: seq<Sequence>, i: nat)
    requires i < |t|
    ensures FixedAll(t)[i] ==
      if t[i].outputLength == 0xFFFF && t[i].inputLength != 0xFFFF then t[i].(outputLength := t[i].inputLength)
        else t[i]
  {
    FixedAt(t, i);
  }

  // The size of an extension is that of its table, and the input of the last
  // entry that names it, if that has a fixed one for variable output.
  lemma {:induction false} SizesMean(t: seq<Sequence>, base: seq<U16>, ext: seq<U16>, i: nat)
    requires |base| == |ext| == MAXEXTENSIONS && Ids(t) && i < |t|
    requires forall k :: i < k < |t| ==> t[k].extensionID != t[i].extensionID
    ensures
      var id, size := t[i].extensionID, base[t[i].extensionID];
      Sizes(t, base, ext)[id] ==
        if t[i].outputLength == 0xFFFF && t[i].inputLength != 0xFFFF then (t[i].inputLength + size) % 0x1_0000 else size
  {
    assert t[0] in t && t[i] in t && forall e :: e in t[1..] ==> e in t;
    var ext' := ext[t[0].extensionID := SizeOf(t[0], base)];
    if i == 0 {
      SizesElsewhere(t[1..], base, ext', t[0].extensionID);
    } else {
      SizesMean(t[1..], base, ext', i - 1);
    }
  }

  lemma {:induction false} FixedLengthFront(t: seq<Sequence>)
    requires t != []
    ensures FixedLength(t) == (if t[0].inputLength == VARLENGTH then 0 else t[0].inputLength) + FixedLength(t[1..])
  {
    if |t| != 1 {
      assert t[..|t| - 1][1..] == t[1..][..|t| - 2] && t[..|t| - 1][0] == t[0];
      FixedLengthFront(t[..|t| - 1]);
    } else {
      assert t[..0] == [] && t[1..] == [];
    }
  }

  // How much of the input is read: exactly the fixed lengths if there are no
  // others, more otherwise.
  lemma {:induction false} FixedLengthIsRead(t: seq<Sequence>, ext: seq<U16>, mem: seq<Byte>, inSize: nat,
      hasStack: bool, s: State)
    requires |ext| == MAXEXTENSIONS && Ids(t) && RunTable(t, ext, mem, inSize, hasStack, s).Next?
    ensures
      var read := RunTable(t, ext, mem, inSize, hasStack, s).s.pos - s.pos;
      FixedLength(t) <= read && (read == FixedLength(t) <==> !AnyVariable(t))
    decreases |t|
  {
    hide RunEntry, FixedLength;
    if t != [] {
      var e := t[0];
      assert e in t && forall u :: u in t <==> u == e || u in t[1..];
      FixedLengthFront(t);
      SequencerFields.TurnOutcome(e, ext, mem, inSize, hasStack, s);
      FixedLengthIsRead(t[1..], ext, mem, inSize, hasStack, RunEntry(e, ext, mem, inSize, hasStack, s).s);
    } else {
      NoLength();
    }
  }

  lemma NoLength()
    ensures FixedLength([]) == 0
  {
  }

  lemma SizesStep(c: seq<Sequence>, i: nat, base: seq<U16>, ext: seq<U16>)
    requires |base| == |ext| == MAXEXTENSIONS && Ids(c) && i < |c|
    ensures Ids(c[i..]) && Ids(c[i + 1..])
    ensures Sizes(c[i..], base, ext) == Sizes(c[i + 1..], base, ext[c[i].extensionID := SizeOf(c[i], base)])
  {
    assert c[i..][1..] == c[i + 1..] && c[i..][0] == c[i] && c[i] in c;
    assert forall e :: e in c[i..] ==> e in c;
  }

  lemma PrefixStep(c: seq<Sequence>, i: nat)
    requires i < |c|
    ensures AnyVariable(c[..i + 1]) == (AnyVariable(c[..i]) || c[i].inputLength == VARLENGTH)
    ensures AnyVariableOutput(c[..i + 1]) == (AnyVariableOutput(c[..i])
      || c[i].inputLength == c[i].outputLength == VARLENGTH)
    ensures FixedLength(c[..i + 1]) == FixedLength(c[..i]) + if c[i].inputLength == VARLENGTH then 0
      else c[i].inputLength
  {
    assert c[..i + 1] == c[..i] + [c[i]] && c[..i + 1][..i] == c[..i];
  }

  // The loop over the entries.
  method SetSizes(sequencer: Sequencer, base: seq<U16>) returns (hasVarInLength: bool, hasVarOutLength: bool)
    requires sequencer.Valid() && |base| == MAXEXTENSIONS && sequencer.inLength == 0 && sequencer.extSize == Zero()
    modifies sequencer`extSize, sequencer`inLength, sequencer.sequenceTable
    ensures sequencer.Valid() && sequencer.Table() == FixedAll(old(sequencer.Table()))
    ensures sequencer.extSize == Sizes(old(sequencer.Table()), base, Zero())
    ensures hasVarInLength == AnyVariable(old(sequencer.Table()))
      && hasVarOutLength == AnyVariableOutput(old(sequencer.Table()))
    ensures sequencer.inLength == FixedLength(old(sequencer.Table()))
  {
    hide Sizes, AnyVariable, AnyVariableOutput, FixedLength, FixedAll, Fixed, SizeOf;
    ghost var c := sequencer.Table();
    var table, n := sequencer.sequenceTable, sequencer.numSequences;
    NoEntries();
    hasVarInLength, hasVarOutLength := false, false;
    assert c[0..] == c && c[..0] == [];
    for i := 0 to n
      invariant sequencer.numSequences == n == |c| && |sequencer.extSize| == MAXEXTENSIONS && Ids(c) && Ids(c[i..])
      invariant forall k :: 0 <= k < i ==> table[k] == Fixed(c[k])
      invariant forall k :: i <= k < n ==> table[k] == c[k]
      invariant Sizes(c[i..], base, sequencer.extSize) == Sizes(c, base, Zero())
      invariant hasVarInLength == AnyVariable(c[..i]) && hasVarOutLength == AnyVariableOutput(c[..i])
      invariant sequencer.inLength == FixedLength(c[..i])
    {
      var e := table[i];
      assert e == c[i] && e in c;
      SizesStep(c, i, base, sequencer.extSize);
      PrefixStep(c, i);
      EntryStep(e, base);
      if e.inputLength == VARLENGTH {
        hasVarInLength := true;
      } else {
        sequencer.inLength := sequencer.inLength + e.inputLength;
      }
      var size: U16 := base[e.extensionID];
      if e.outputLength == VARLENGTH {
        if e.inputLength != VARLENGTH {
          table[i] := e.(outputLength := e.inputLength);
          size := (e.inputLength + size) % 0x1_0000;
        } else {
          hasVarOutLength := true;
        }
      }
      sequencer.extSize := sequencer.extSize[e.extensionID := size];
    }
    assert c[..n] == c && c[n..] == [];
    AllFixed(table[..n], c);
    FixedIds(c);
    SizesEnd(base, sequencer.extSize);
  }

  lemma NoEntries()
    ensures !AnyVariable([]) && !AnyVariableOutput([]) && FixedLength([]) == 0
  {
  }

  lemma EntryStep(e: Sequence, base: seq<U16>)
    requires e.extensionID < |base|
    ensures Fixed(e) == if e.outputLength == VARLENGTH
      && e.inputLength != VARLENGTH then e.(outputLength := e.inputLength) else e
    ensures SizeOf(e, base) ==
      if e.outputLength == VARLENGTH && e.inputLength != VARLENGTH then (e.inputLength + base[e.extensionID]) % 0x1_0000
        else base[e.extensionID]
  {
  }

  lemma AllFixed(t: seq<Sequence>, c: seq<Sequence>)
    requires |t| == |c| && forall k :: 0 <= k < |c| ==> t[k] == Fixed(c[k])
    ensures t == FixedAll(c)
  {
    forall k | 0 <= k < |c|
      ensures t[k] == FixedAll(c)[k]
    {
      FixedAt(c, k);
    }
  }

  lemma FixedIds(c: seq<Sequence>)
    requires Ids(c)
    ensures Ids(FixedAll(c))
  {
    FixedIn(c);
  }

  lemma SizesEnd(base: seq<U16>, ext: seq<U16>)
    requires |base| == |ext| == MAXEXTENSIONS
    ensures Sizes([], base, ext) == ext
  {
  }

  // SetupSequencer: `base` are the sizes of extensionTable. Afterwards the table
  // is good exactly if the template is safe.
  method SetupSequencer(sequencer: Sequencer, base: seq<U16>) returns (extensionList: seq<nat>)
    requires sequencer.Valid() && |base| == MAXEXTENSIONS
    modifies sequencer`extSize, sequencer`inLength, sequencer`outLength, sequencer`numElements, sequencer`numSequences,
      sequencer.sequenceTable
    ensures sequencer.Valid()
    ensures
      var t, c := old(sequencer.Table()), Compact(old(sequencer.Table()));
      && Ids(c) && sequencer.Table() == FixedAll(c) && sequencer.extSize == Sizes(c, base, Zero())
      && sequencer.inLength == (if AnyVariable(c) then 0 else FixedLength(c))
      && Lists(sequencer.extSize, extensionList, 1, MAXEXTENSIONS) && sequencer.numElements == |extensionList|
      && sequencer.outLength == (if AnyVariableOutput(c) then 0 else SumOver(sequencer.extSize, extensionList))
    ensures
      forall id: U16 :: id < MAXEXTENSIONS && (forall e :: e in old(sequencer.Table()) ==> e.extensionID != id) ==>
        sequencer.extSize[id] == 0
    ensures
      var t := old(sequencer.Table());
      PureSkips(t) && Uniform(t) && (forall e :: e in t ==> Mapped(e, base)) ==>
        (GoodTable(sequencer.Table(), sequencer.extSize) <==> SafeTemplate(t, base))
  {
    hide Compact, Sizes, AnyVariable, AnyVariableOutput, FixedLength, FixedAll, SafeTemplate, Mapped, Uniform,
      PureSkips, Ids, SumOver, Lists, GoodTable;
    ghost var t := sequencer.Table();
    sequencer.extSize := Zero();
    sequencer.inLength := 0;
    sequencer.CompactSequencer();
    ghost var c := sequencer.Table();
    var hasVarInLength, hasVarOutLength := SetSizes(sequencer, base);
    var total;
    total, extensionList := ListExtensions(sequencer.extSize);
    sequencer.outLength := total;
    sequencer.numElements := |extensionList|;
    if hasVarInLength {
      sequencer.inLength := 0;
    }
    if hasVarOutLength {
      sequencer.outLength := 0;
    }
    SetupResult(t, base);
    UnnamedAreEmpty(t, base);
  }

  // The loops over the extensions.
  method ListExtensions(ext: seq<U16>) returns (total: nat, extensionList: seq<nat>)
    requires |ext| == MAXEXTENSIONS
    ensures Lists(ext, extensionList, 1, MAXEXTENSIONS) && total == SumOver(ext, extensionList)
  {
    hide SumOver;
    NothingListed(ext);
    total, extensionList := 0, [];
    for i := 1 to MAXEXTENSIONS
      invariant Lists(ext, extensionList, 1, i) && total == SumOver(ext, extensionList)
    {
      hide Lists;
      ListsStep(ext, extensionList, i);
      if ext[i] != 0 {
        SumOverSnoc(ext, extensionList, i);
        total := total + ext[i];
        extensionList := extensionList + [i];
      }
    }
  }

  lemma NothingListed(ext: seq<U16>)
    ensures SumOver(ext, []) == 0
  {
  }

  lemma ListsStep(ext: seq<U16>, list: seq<nat>, i: nat)
    requires Lists(ext, list, 1, i) && 1 <= i < |ext|
    ensures Lists(ext, if ext[i] != 0 then list + [i] else list, 1, i + 1)
    ensures forall j :: 0 <= j < |list| ==> list[j] < |ext|
  {
    if ext[i] != 0 {
      var list' := list + [i];
      forall j | 0 <= j < |list|
        ensures list[j] < i
      {
        assert list[j] in list;
      }
      forall x: nat
        ensures x in list' <==> x in list || x == i
      {
      }
    }
  }

  lemma SumOverSnoc(ext: seq<U16>, list: seq<nat>, x: nat)
    requires x < |ext| && forall i :: 0 <= i < |list| ==> list[i] < |ext|
    ensures SumOver(ext, list + [x]) == SumOver(ext, list) + ext[x]
  {
    assert (list + [x])[..|list|] == list;
  }

  // Extensions the template does not name have no size.
  lemma UnnamedAreEmpty(t: seq<Sequence>, base: seq<U16>)
    requires |base| == MAXEXTENSIONS && Ids(t) && Ids(Compact(t))
    ensures forall id: U16 :: id < MAXEXTENSIONS && (forall e :: e in t ==> e.extensionID != id) ==>
      Sizes(Compact(t), base, Zero())[id] == 0
  {
    hide Compact, Sizes;
    CompactMembers(t);
    forall id: U16 | id < MAXEXTENSIONS && (forall e :: e in t ==> e.extensionID != id)
      ensures Sizes(Compact(t), base, Zero())[id] == 0
    {
      SizesElsewhere(Compact(t), base, Zero(), id);
    }
  }

  lemma SetupResult(t: seq<Sequence>, base: seq<U16>)
    requires |base| == MAXEXTENSIONS && Ids(t) && Ids(Compact(t))
    ensures PureSkips(t) && Uniform(t) && (forall e :: e in t ==> Mapped(e, base)) ==>
      (GoodTable(FixedAll(Compact(t)), Sizes(Compact(t), base, Zero())) <==> SafeTemplate(t, base))
  {
    hide Compact, Sizes, FixedAll, SafeFrom, GoodFrom, Mapped, Uniform, PureSkips;
    var c := Compact(t);
    SizesAreSized(c, base, Zero());
    if PureSkips(t) && Uniform(t) && forall e :: e in t ==> Mapped(e, base) {
      CompactMapped(t, base);
      SetupIsGood(c, base, Sizes(c, base, Zero()), {});
      CompactSafe(t, base, {});
    }
  }

  // What SetupSequencer makes of a template has only safe runs, whatever the
  // input and the well-formed record, if and only if the template is safe.
  lemma SetupIsSafe(t: seq<Sequence>, base: seq<U16>)
    requires |base| == MAXEXTENSIONS && Ids(t) && PureSkips(t) && Uniform(t) && forall e :: e in t ==> Mapped(e, base)
    ensures Ids(Compact(t)) && Ids(FixedAll(Compact(t)))
    ensures
      var c, ext := FixedAll(Compact(t)), Sizes(Compact(t), base, Zero());
      HEADER + Need(c, ext, {}) < 0xFFFF ==>
        (SafeTemplate(t, base) <==>
          forall mem, inSize, hasStack, s :: Started(s) && |s.buf| < 0x1_0000 ==>
            SafeRun(c, ext, mem, inSize, hasStack, s))
  {
    hide Compact, Sizes, FixedAll, SafeTemplate, GoodTable, Mapped, Uniform, PureSkips, SafeRun, Need, Settled, Started;
    CompactIds(t);
    FixedIds(Compact(t));
    var c, ext := FixedAll(Compact(t)), Sizes(Compact(t), base, Zero());
    SetupResult(t, base);
    FixedSettled(Compact(t));
    if HEADER + Need(c, ext, {}) < 0xFFFF {
      SafeExactly(c, ext);
    }
  }

  lemma FixedSettled(c: seq<Sequence>)
    ensures Settled(FixedAll(c))
  {
    FixedIn(c);
  }

  // ---- What happens otherwise ----------------------------------------------

  const VRF: Sequence := Sequence(234, 4, NumberCopy, 36, 0, 4, 0)
  const INPUT: seq<Byte> := [0, 1, 2, 3, 4, 4, 0, 0, 0, 0]

  // A template with an application ID of variable length, another field, and
  // the application ID again: an empty one, and then one of four bytes, which
  // end up in the header of the element in between.
  lemma RepeatedBreaks(ext: seq<U16>, b: seq<Byte>)
    requires |ext| == MAXEXTENSIONS && ext[27] == 4 && ext[36] == 12
    requires Wellformed(b) && Size(b) == HEADER && NumElements(b) == 0 && 64 <= |b|
    ensures var r := RunTable([NBAR, VRF, NBAR], ext, INPUT, 10, false, State(0, b, map[], map[], 0));
      r.Next? && !Wellformed(r.s.buf)
  {
    hide Wellformed, AddElement, StoreField, RunEntry;
    var s0 := State(0, b, map[], map[], 0);
    var s1 := FirstElement(ext, s0);
    var s2 := SecondElement(ext, s1);
    var s3 := Overwritten(ext, s2);
    ThreeEntries(ext, s0, s1, s2, s3);
    NotTiled(s3.buf);
  }

  lemma ThreeEntries(ext: seq<U16>, s0: State, s1: State, s2: State, s3: State)
    requires |ext| == MAXEXTENSIONS
    requires RunEntry(NBAR, ext, INPUT, 10, false, s0) == Next(s1)
      && RunEntry(VRF, ext, INPUT, 10, false, s1) == Next(s2)
    requires RunEntry(NBAR, ext, INPUT, 10, false, s2) == Next(s3)
    ensures RunTable([NBAR, VRF, NBAR], ext, INPUT, 10, false, s0) == Next(s3)
  {
    hide RunEntry;
    var t := [NBAR, VRF, NBAR];
    assert t[1..] == [VRF, NBAR] && t[1..][1..] == [NBAR] && t[1..][1..][1..] == [];
    assert RunTable([NBAR], ext, INPUT, 10, false, s2) == RunTable([], ext, INPUT, 10, false, s3);
    assert RunTable([VRF, NBAR], ext, INPUT, 10, false, s1) == RunTable([NBAR], ext, INPUT, 10, false, s2);
  }

  // An element without payload at 12.
  lemma FirstElement(ext: seq<U16>, s: State) returns (r: State)
    requires |ext| == MAXEXTENSIONS && ext[27] == 4 && s.pos == 0 && s.cache == map[]
    requires Size(s.buf) == HEADER && NumElements(s.buf) == 0 && 64 <= |s.buf|
    ensures RunEntry(NBAR, ext, INPUT, 10, false, s) == Next(r) && r.pos == 1 && r.cache == map[27 := 16]
      && |r.buf| == |s.buf|
    ensures Size(r.buf) == 16 && NumElements(r.buf) == 1 && Get16(r.buf, 14) == 4
  {
    hide PutElement, PutHeader;
    AddElementBytes(s, 27, 4);
    assert FieldLength(NBAR, INPUT, 0) == (0, 1);
    r := AddElement(s, 27, 4).(pos := 1);
  }

  // An element of 12 bytes at 16.
  lemma SecondElement(ext: seq<U16>, s: State) returns (r: State)
    requires |ext| == MAXEXTENSIONS && ext[36] == 12 && s.pos == 1 && s.cache == map[27 := 16]
    requires Size(s.buf) == 16 && NumElements(s.buf) == 1 && Get16(s.buf, 14) == 4 && 64 <= |s.buf|
    ensures RunEntry(VRF, ext, INPUT, 10, false, s) == Next(r) && r.pos == 5 && 27 in r.cache && r.cache[27] == 16
      && |r.buf| == |s.buf|
    ensures Size(r.buf) == 28 && NumElements(r.buf) == 2 && Get16(r.buf, 14) == 4
  {
    hide PutElement, PutHeader, Poke, ValBuff;
    AddElementBytes(s, 36, 12);
    var s1 := AddElement(s, 36, 12);
    assert FieldLength(VRF, INPUT, 1) == (4, 1);
    var val := ValBuff(Take(INPUT, 1, 4))[..4];
    PokeChanges(s1.buf, 20, val);
    r := s1.(buf := Poke(s1.buf, 20, val), pos := 5);
    SameGet16(s1.buf, r.buf, 20, 4, 2);
    SameGet16(s1.buf, r.buf, 20, 4, 4);
    SameGet16(s1.buf, r.buf, 20, 4, 14);
    assert At(s1.buf, 14) == At(s.buf, 14) && At(s1.buf, 15) == At(s.buf, 15);
  }

  // Four zeros over its header.
  lemma Overwritten(ext: seq<U16>, s: State) returns (r: State)
    requires |ext| == MAXEXTENSIONS && s.pos == 5 && 27 in s.cache && s.cache[27] == 16 && 64 <= |s.buf|
    requires Size(s.buf) == 28 && NumElements(s.buf) == 2 && Get16(s.buf, 14) == 4
    ensures RunEntry(NBAR, ext, INPUT, 10, false, s) == Next(r)
    ensures Size(r.buf) == 28 && NumElements(r.buf) == 2 && Get16(r.buf, 14) == 4 && Get16(r.buf, 18) == 0
  {
    assert FieldLength(NBAR, INPUT, 5) == (4, 6);
    var data := Take(INPUT, 6, 4);
    assert data == [0, 0, 0, 0] && data[..4] == data;
    r := s.(buf := Poke(s.buf, 16, data), pos := 10);
    PokeChanges(s.buf, 16, data);
    SameGet16(s.buf, r.buf, 16, 4, 2);
    SameGet16(s.buf, r.buf, 16, 4, 4);
    SameGet16(s.buf, r.buf, 16, 4, 14);
    assert At(r.buf, 18) == 0 && At(r.buf, 19) == 0;
  }

  lemma NotTiled(b: seq<Byte>)
    requires Size(b) == 28 && NumElements(b) == 2 && Get16(b, 14) == 4 && Get16(b, 18) == 0
    ensures !Wellformed(b)
  {
    assert !Tiled(b, 16, 28, 1);
  }
}
