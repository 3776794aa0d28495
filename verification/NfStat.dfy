/**
 The statistics record of a file, and how nffile.c adds up two of them when
 one file is appended to another.
 */
module NfStat {

  const MAX64: int := 0x1_0000_0000_0000_0000
  const UNSET: int := 0x7FFF_FFFF_FFFF_FFFF
  const COUNTERS := 16

  // What a flow adds to the record: one number for every counter, and when it
  // was first and last seen, in milliseconds.
  datatype Flow = Flow(counts: seq<int>, first: int, last: int)

  predicate GoodFlow(f: Flow) {
    |f.counts| == COUNTERS && (forall i :: 0 <= i < COUNTERS ==> 0 <= f.counts[i]) && 0 <= f.first < UNSET
      && 0 <= f.last < UNSET
  }

  predicate Good(fs: seq<Flow>) {
    forall f :: f in fs ==> GoodFlow(f)
  }

  // numflows, numbytes, ..., sequence_failure: the sum over all flows, in 64
  // bits.
  function Sum(fs: seq<Flow>, i: nat): (n: int)
    requires Good(fs) && i < COUNTERS
    ensures 0 <= n < MAX64
  {
    if fs == [] then 0 else
      assert fs[0] in fs;
      (fs[0].counts[i] + Sum(fs[1..], i)) % MAX64
  }

  function Earliest(fs: seq<Flow>): int {
    if fs == [] then UNSET else
      var e := Earliest(fs[1..]);
      if fs[0].first < e then fs[0].first else e
  }

  function Latest(fs: seq<Flow>): int {
    if fs == [] then 0 else
      var l := Latest(fs[1..]);
      if fs[0].last > l then fs[0].last else l
  }

  // What WriteAppendix stores: without flows the first time seen is 0.
  function StoredFirst(fs: seq<Flow>): int {
    if Earliest(fs) == UNSET then 0 else Earliest(fs)
  }

  class StatRecord {
    const counters: array<int>
    var firstseen: int
    var lastseen: int

    constructor ()
      ensures counters.Length == COUNTERS && fresh(counters)
    {
      counters := new int[COUNTERS];
      firstseen, lastseen := UNSET, 0;
    }

    // The record as it is stored for these flows.
    ghost predicate Holds(fs: seq<Flow>)
      reads this, counters
    {
      && Good(fs) && counters.Length == COUNTERS
      && (forall i :: 0 <= i < COUNTERS ==> counters[i] == Sum(fs, i))
      && firstseen == StoredFirst(fs) && lastseen == Latest(fs)
    }

    // SumStatRecords. All counters and the last time are those of both files
    // together; the first time is when, and only when, either both files have
    // flows or neither has, or the earliest flow is of time 0.
    method SumStatRecords(s2: StatRecord, ghost f1: seq<Flow>, ghost f2: seq<Flow>)
      requires Holds(f1) && s2.Holds(f2) && s2 != this && s2.counters != counters
      modifies this, counters
      ensures forall i :: 0 <= i < COUNTERS ==> counters[i] == Sum(f1 + f2, i)
      ensures lastseen == Latest(f1 + f2)
      ensures Good(f1 + f2)
      ensures Holds(f1 + f2) <==> (f1 == [] <==> f2 == []) || Earliest(f1 + f2) == 0
      ensures s2.Holds(f2)
    {
      GoodBoth(f1, f2);
      for i := 0 to COUNTERS
        invariant forall j :: 0 <= j < i ==> counters[j] == Sum(f1 + f2, j)
        invariant forall j :: i <= j < COUNTERS ==> counters[j] == Sum(f1, j)
        invariant s2.Holds(f2) && firstseen == StoredFirst(f1) && lastseen == Latest(f1)
      {
        SumBoth(f1, f2, i);
        counters[i] := (counters[i] + s2.counters[i]) % MAX64;
      }
      if s2.firstseen < firstseen {
        firstseen := s2.firstseen;
      }
      if s2.lastseen > lastseen {
        lastseen := s2.lastseen;
      }
      Extremes(f1, f2);
      EarliestOfSome(f1);
      EarliestOfSome(f2);
    }
  }

  lemma GoodBoth(f1: seq<Flow>, f2: seq<Flow>)
    requires Good(f1) && Good(f2)
    ensures Good(f1 + f2)
  {
  }

  lemma AddMod(a: int, b: int, c: int)
    requires 0 <= a && 0 <= b < MAX64 && 0 <= c < MAX64
    ensures (a + (b + c) % MAX64) % MAX64 == ((a + b) % MAX64 + c) % MAX64
  {
    var d := if b + c < MAX64 then b + c else b + c - MAX64;
    assert (b + c) % MAX64 == d;
    var q := (a + b) / MAX64;
    assert a + b == q * MAX64 + (a + b) % MAX64;
    Shift((a + b) % MAX64 + c, q);
    Shift(a + d, if b + c < MAX64 then 0 else 1);
  }

  lemma Shift(n: int, k: int)
    ensures (n + k * MAX64) % MAX64 == n % MAX64
  {
    assert n == n / MAX64 * MAX64 + n % MAX64;
    assert n + k * MAX64 == (n / MAX64 + k) * MAX64 + n % MAX64;
  }

  lemma {:induction false} SumBoth(f1: seq<Flow>, f2: seq<Flow>, i: nat)
    requires Good(f1) && Good(f2) && i < COUNTERS
    ensures Good(f1 + f2) && Sum(f1 + f2, i) == (Sum(f1, i) + Sum(f2, i)) % MAX64
  {
    GoodBoth(f1, f2);
    if f1 == [] {
      assert f1 + f2 == f2;
    } else {
      assert f1[0] in f1 && (f1 + f2)[1..] == f1[1..] + f2;
      SumBoth(f1[1..], f2, i);
      AddMod(f1[0].counts[i], Sum(f1[1..], i), Sum(f2, i));
    }
  }

  lemma {:induction false} Extremes(f1: seq<Flow>, f2: seq<Flow>)
    ensures Earliest(f1 + f2) == if Earliest(f2) < Earliest(f1) then Earliest(f2) else Earliest(f1)
    ensures Latest(f1 + f2) == if Latest(f2) > Latest(f1) then Latest(f2) else Latest(f1)
  {
    if f1 == [] {
      assert f1 + f2 == f2;
      Bounds(f2);
    } else {
      assert (f1 + f2)[1..] == f1[1..] + f2;
      Extremes(f1[1..], f2);
    }
  }

  lemma {:induction false} Bounds(fs: seq<Flow>)
    ensures Earliest(fs) <= UNSET && 0 <= Latest(fs)
  {
    if fs != [] {
      Bounds(fs[1..]);
    }
  }

  lemma {:induction false} EarliestOfSome(fs: seq<Flow>)
    requires Good(fs)
    ensures 0 <= Earliest(fs) <= UNSET && (Earliest(fs) == UNSET <==> fs == [])
  {
    if fs != [] {
      assert fs[0] in fs;
      EarliestOfSome(fs[1..]);
    }
  }

  // What the counters and times are made of: with SumBoth and Extremes this says
  // what they are for any flows.
  lemma OneFlow(f: Flow)
    requires GoodFlow(f)
    ensures Good([f]) && forall i :: 0 <= i < COUNTERS ==> Sum([f], i) == f.counts[i] % 0x1_0000_0000_0000_0000
    ensures Earliest([f]) == StoredFirst([f]) == f.first && Latest([f]) == f.last
  {
    forall i | 0 <= i < COUNTERS
      ensures Sum([f], i) == f.counts[i] % MAX64
    {
      assert [f][1..] == [] && Sum([], i) == 0;
    }
  }

  // A night without flows, appended to a file of noon: noon is forgotten.
  lemma EmptyForgetsFirst(noon: Flow)
    requires GoodFlow(noon) && 0 < noon.first
    ensures
      var stored := if StoredFirst([]) < StoredFirst([noon]) then StoredFirst([]) else StoredFirst([noon]);
      stored == 0 != StoredFirst([noon] + [])
  {
    assert [noon] + [] == [noon] && Earliest([noon]) == noon.first;
  }
}
