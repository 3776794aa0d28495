/**
 The keys of a B-tree node and of its subtrees, in order. A node with keys
 k0, k1, ... and subtrees holding f0, f1, ... holds f0, k0, f1, k1, ...
 */
module KbWeave {

  predicate Sorted(s: seq<int>) {
    forall i, j :: 0 <= i < j < |s| ==> s[i] <= s[j]
  }

  // What comes before subtree `i`.
  function Front(ks: seq<int>, fs: seq<seq<int>>, i: nat): seq<int>
    requires i <= |ks| && i <= |fs|
  {
    if i == 0 then [] else Front(ks, fs, i - 1) + fs[i - 1] + [ks[i - 1]]
  }

  // What comes after subtree `i`.
  function Back(ks: seq<int>, fs: seq<seq<int>>, i: nat): seq<int>
    requires i <= |ks| && |fs| == |ks| + 1
    decreases |ks| - i
  {
    if i == |ks| then [] else [ks[i]] + fs[i + 1] + Back(ks, fs, i + 1)
  }

  function Weave(ks: seq<int>, fs: seq<seq<int>>): seq<int>
    requires |fs| == |ks| + 1
  {
    Front(ks, fs, |ks|) + fs[|ks|]
  }

  lemma {:induction false} Around(ks: seq<int>, fs: seq<seq<int>>, i: nat)
    requires i <= |ks| && |fs| == |ks| + 1
    ensures Weave(ks, fs) == Front(ks, fs, i) + fs[i] + Back(ks, fs, i)
    decreases |ks| - i
  {
    if i < |ks| {
      Around(ks, fs, i + 1);
    }
  }

  lemma {:induction false} FrontSame(ks: seq<int>, fs: seq<seq<int>>, ks': seq<int>, fs': seq<seq<int>>, i: nat)
    requires i <= |ks| && i <= |fs| && i <= |ks'| && i <= |fs'|
    requires forall j :: 0 <= j < i ==> ks[j] == ks'[j] && fs[j] == fs'[j]
    ensures Front(ks, fs, i) == Front(ks', fs', i)
  {
    if 0 < i {
      FrontSame(ks, fs, ks', fs', i - 1);
    }
  }

  lemma {:induction false} BackSame(ks: seq<int>, fs: seq<seq<int>>, i: nat, ks': seq<int>, fs': seq<seq<int>>, i': nat)
    requires i <= |ks| && |fs| == |ks| + 1 && i' <= |ks'| && |fs'| == |ks'| + 1
    requires ks[i..] == ks'[i'..] && fs[i + 1..] == fs'[i' + 1..]
    ensures Back(ks, fs, i) == Back(ks', fs', i')
    decreases |ks| - i
  {
    assert |ks[i..]| == |ks'[i'..]|;
    if i < |ks| {
      assert ks[i] == ks[i..][0] && ks'[i'] == ks'[i'..][0];
      assert fs[i + 1] == fs[i + 1..][0] && fs'[i' + 1] == fs'[i' + 1..][0];
      assert ks[i + 1..] == ks[i..][1..] && ks'[i' + 1..] == ks'[i'..][1..];
      assert fs[i + 2..] == fs[i + 1..][1..] && fs'[i' + 2..] == fs'[i' + 1..][1..];
      BackSame(ks, fs, i + 1, ks', fs', i' + 1);
    }
  }

  lemma BackStep(ks: seq<int>, fs: seq<seq<int>>, i: nat)
    requires i < |ks| && |fs| == |ks| + 1
    ensures Back(ks, fs, i) == [ks[i]] + fs[i + 1] + Back(ks, fs, i + 1)
  {
  }

  // One subtree changes.
  lemma Replaced(ks: seq<int>, fs: seq<seq<int>>, i: nat, f: seq<int>)
    requires i <= |ks| && |fs| == |ks| + 1
    ensures Weave(ks, fs[i := f]) == Front(ks, fs, i) + f + Back(ks, fs, i)
  {
    Around(ks, fs[i := f], i);
    FrontSame(ks, fs, ks, fs[i := f], i);
    BackSame(ks, fs, i, ks, fs[i := f], i);
  }

  function JoinedKeys(ks: seq<int>, i: nat): seq<int>
    requires i < |ks|
  {
    ks[..i] + ks[i + 1..]
  }

  function JoinedKids(ks: seq<int>, fs: seq<seq<int>>, i: nat): seq<seq<int>>
    requires i < |ks| && |fs| == |ks| + 1
  {
    fs[..i] + [fs[i] + [ks[i]] + fs[i + 1]] + fs[i + 2..]
  }

  // Two neighbours and the key between them become one subtree.
  lemma Joined(ks: seq<int>, fs: seq<seq<int>>, i: nat)
    requires i < |ks| && |fs| == |ks| + 1
    ensures Weave(JoinedKeys(ks, i), JoinedKids(ks, fs, i)) == Weave(ks, fs)
  {
    var ks', fs' := JoinedKeys(ks, i), JoinedKids(ks, fs, i);
    Around(ks, fs, i);
    Around(ks', fs', i);
    JoinedRest(ks, fs, i);
    Regroup(Front(ks, fs, i), fs[i], ks[i], fs[i + 1], Back(ks, fs, i + 1));
  }

  lemma Regroup(f: seq<int>, a: seq<int>, k: int, b: seq<int>, c: seq<int>)
    ensures f + a + ([k] + b + c) == f + (a + [k] + b) + c
  {
  }

  lemma JoinedRest(ks: seq<int>, fs: seq<seq<int>>, i: nat)
    requires i < |ks| && |fs| == |ks| + 1
    ensures
      var ks', fs' := JoinedKeys(ks, i), JoinedKids(ks, fs, i);
      Front(ks', fs', i) == Front(ks, fs, i) && Back(ks', fs', i) == Back(ks, fs, i + 1)
  {
    var ks', fs' := JoinedKeys(ks, i), JoinedKids(ks, fs, i);
    assert ks'[i..] == ks[i + 1..] && fs'[i + 1..] == fs[i + 2..];
    FrontSame(ks, fs, ks', fs', i);
    BackSame(ks, fs, i + 1, ks', fs', i);
  }

  // A subtree becomes two neighbours with a key between them.
  lemma Parted(ks: seq<int>, fs: seq<seq<int>>, i: nat, f: seq<int>, m: int, g: seq<int>)
    requires i <= |ks| && |fs| == |ks| + 1 && fs[i] == f + [m] + g
    ensures Weave(ks[..i] + [m] + ks[i..], fs[..i] + [f, g] + fs[i + 1..]) == Weave(ks, fs)
  {
    var ks', fs' := ks[..i] + [m] + ks[i..], fs[..i] + [f, g] + fs[i + 1..];
    Joined(ks', fs', i);
    assert JoinedKeys(ks', i) == ks && JoinedKids(ks', fs', i) == fs;
  }

  // A subtree and its neighbour share their keys out anew.
  lemma Rebalanced(ks: seq<int>, fs: seq<seq<int>>, i: nat, a: seq<int>, s: int, b: seq<int>)
    requires i < |ks| && |fs| == |ks| + 1
    requires a + [s] + b == fs[i] + [ks[i]] + fs[i + 1]
    ensures Weave(ks[i := s], fs[i := a][i + 1 := b]) == Weave(ks, fs)
  {
    var ks', fs' := ks[i := s], fs[i := a][i + 1 := b];
    Joined(ks, fs, i);
    Joined(ks', fs', i);
    assert JoinedKeys(ks', i) == JoinedKeys(ks, i) && JoinedKids(ks', fs', i) == JoinedKids(ks, fs, i);
  }

  lemma {:induction false} WeaveConcat(ks: seq<int>, fs: seq<seq<int>>, s: int, ks': seq<int>, fs': seq<seq<int>>)
    requires |fs| == |ks| + 1 && |fs'| == |ks'| + 1
    ensures Weave(ks + [s] + ks', fs + fs') == Weave(ks, fs) + [s] + Weave(ks', fs')
    decreases |ks'|
  {
    var n := |ks|;
    Around(ks + [s] + ks', fs + fs', n);
    FrontSame(ks, fs, ks + [s] + ks', fs + fs', n);
    Around(ks', fs', 0);
    BackSame(ks + [s] + ks', fs + fs', n + 1, ks', fs', 0);
  }

  // The keys of one node: a leaf has only its own.
  function Keys(internal: bool, ks: seq<int>, fs: seq<seq<int>>): seq<int> {
    if !internal then ks else if |fs| == |ks| + 1 then Weave(ks, fs) else []
  }

  predicate Fits(internal: bool, ks: seq<int>, fs: seq<seq<int>>) {
    |fs| == if internal then |ks| + 1 else 0
  }

  lemma KeysConcat(internal: bool, ks: seq<int>, fs: seq<seq<int>>, s: int, ks': seq<int>, fs': seq<seq<int>>)
    requires Fits(internal, ks, fs) && Fits(internal, ks', fs')
    ensures Keys(internal, ks + [s] + ks', fs + fs') == Keys(internal, ks, fs) + [s] + Keys(internal, ks', fs')
  {
    if internal {
      WeaveConcat(ks, fs, s, ks', fs');
    }
  }

  // A node falls apart at key `p`.
  lemma KeysSplit(internal: bool, ks: seq<int>, fs: seq<seq<int>>, p: nat)
    requires Fits(internal, ks, fs) && p < |ks|
    ensures
      var q := if internal then p + 1 else 0;
      && Fits(internal, ks[..p], fs[..q]) && Fits(internal, ks[p + 1..], fs[q..])
      && Keys(internal, ks[..p], fs[..q]) + [ks[p]] + Keys(internal, ks[p + 1..], fs[q..]) == Keys(internal, ks, fs)
  {
    var q := if internal then p + 1 else 0;
    assert ks[..p] + [ks[p]] + ks[p + 1..] == ks && fs[..q] + fs[q..] == fs;
    KeysConcat(internal, ks[..p], fs[..q], ks[p], ks[p + 1..], fs[q..]);
  }

  // ---- What order means for a node ----------------------------------------

  lemma SortedParts(a: seq<int>, b: seq<int>, c: seq<int>)
    requires Sorted(a + b + c)
    ensures Sorted(a) && Sorted(b) && Sorted(c)
    ensures forall x, y :: x in a && y in b ==> x <= y
    ensures forall x, y :: x in b && y in c ==> x <= y
    ensures forall x, y :: x in a && y in c ==> x <= y
  {
    var s := a + b + c;
    assert forall i :: 0 <= i < |a| ==> s[i] == a[i];
    assert forall i :: 0 <= i < |b| ==> s[|a| + i] == b[i];
    assert forall i :: 0 <= i < |c| ==> s[|a| + |b| + i] == c[i];
  }

  // A key stands in order between what is on its left and on its right.
  lemma {:induction false} FrontHas(ks: seq<int>, fs: seq<seq<int>>, i: nat, j: nat)
    requires j < i <= |ks| && |ks| < |fs|
    ensures ks[j] in Front(ks, fs, i)
  {
    if j < i - 1 {
      FrontHas(ks, fs, i - 1, j);
    }
  }

  lemma {:induction false} BackHas(ks: seq<int>, fs: seq<seq<int>>, i: nat, j: nat)
    requires i <= j < |ks| && |fs| == |ks| + 1
    ensures ks[j] in Back(ks, fs, i)
    decreases j - i
  {
    if i < j {
      BackHas(ks, fs, i + 1, j);
    }
  }

  // Subtree `i` of a sorted node is sorted, between the keys around it.
  lemma KidInOrder(ks: seq<int>, fs: seq<seq<int>>, i: nat)
    requires i <= |ks| && |fs| == |ks| + 1 && Sorted(Weave(ks, fs))
    ensures Sorted(fs[i])
    ensures forall j, x :: 0 <= j < i && x in fs[i] ==> ks[j] <= x
    ensures forall j, x :: i <= j < |ks| && x in fs[i] ==> x <= ks[j]
  {
    Around(ks, fs, i);
    SortedParts(Front(ks, fs, i), fs[i], Back(ks, fs, i));
    forall j, x | 0 <= j < i && x in fs[i]
      ensures ks[j] <= x
    {
      FrontHas(ks, fs, i, j);
    }
    forall j, x | i <= j < |ks| && x in fs[i]
      ensures x <= ks[j]
    {
      BackHas(ks, fs, i, j);
    }
  }

  lemma KeysInOrder(internal: bool, ks: seq<int>, fs: seq<seq<int>>)
    requires Fits(internal, ks, fs) && Sorted(Keys(internal, ks, fs))
    ensures Sorted(ks)
  {
    if internal {
      forall i, j | 0 <= i < j < |ks|
        ensures ks[i] <= ks[j]
      {
        Around(ks, fs, j);
        FrontHas(ks, fs, j, i);
        BackHas(ks, fs, j, j);
        SortedParts(Front(ks, fs, j), fs[j], Back(ks, fs, j));
      }
    }
  }

  // Where a key is that is neither in nor beside a subtree.
  lemma {:induction false} FrontIsBelow(ks: seq<int>, fs: seq<seq<int>>, i: nat, k: int)
    requires i <= |ks| && |fs| == |ks| + 1 && Sorted(Weave(ks, fs))
    requires 0 < i ==> ks[i - 1] <= k
    ensures forall x :: x in Front(ks, fs, i) ==> x <= k
  {
    if 0 < i {
      Around(ks, fs, i);
      var f, rest := Front(ks, fs, i), fs[i] + Back(ks, fs, i);
      assert Weave(ks, fs) == [] + f + rest;
      SortedParts([], f, rest);
      assert f[|f| - 1] == ks[i - 1];
    }
  }

  lemma BackIsAbove(ks: seq<int>, fs: seq<seq<int>>, i: nat, k: int)
    requires i <= |ks| && |fs| == |ks| + 1 && Sorted(Weave(ks, fs))
    requires i < |ks| ==> k <= ks[i]
    ensures forall x :: x in Back(ks, fs, i) ==> k <= x
  {
    if i < |ks| {
      Around(ks, fs, i);
      var b, rest := Back(ks, fs, i), Front(ks, fs, i) + fs[i];
      assert Weave(ks, fs) == [] + rest + b;
      SortedParts([], rest, b);
      assert b[0] == ks[i];
    }
  }

  // ---- One key more, one key less -----------------------------------------

  // A sorted sequence is known by how often each key is in it.
  lemma {:induction false} SortedIsUnique(a: seq<int>, b: seq<int>)
    requires Sorted(a) && Sorted(b) && multiset(a) == multiset(b)
    ensures a == b
  {
    assert |a| == |multiset(a)| == |multiset(b)| == |b|;
    if a != [] {
      var n := |a| - 1;
      LastIsMax(a, b);
      LastIsMax(b, a);
      ButLast(a);
      ButLast(b);
      SortedIsUnique(a[..n], b[..n]);
    }
  }

  lemma LastIsMax(a: seq<int>, b: seq<int>)
    requires Sorted(a) && multiset(a) == multiset(b) && a != [] && b != []
    ensures b[|b| - 1] <= a[|a| - 1]
  {
    assert b[|b| - 1] in multiset(a);
  }

  lemma ButLast(a: seq<int>)
    requires a != []
    ensures a == a[..|a| - 1] + [a[|a| - 1]] && multiset(a[..|a| - 1]) == multiset(a) - multiset{a[|a| - 1]}
  {
    assert a == a[..|a| - 1] + [a[|a| - 1]];
  }

  // `s` with one more `k`, in order.
  function With(s: seq<int>, k: int): (r: seq<int>)
    ensures multiset(r) == multiset(s) + multiset{k} && |r| == |s| + 1
  {
    if s == [] || s[|s| - 1] <= k then s + [k] else
      assert s == s[..|s| - 1] + [s[|s| - 1]];
      With(s[..|s| - 1], k) + [s[|s| - 1]]
  }

  // `s` without one `k`.
  function Without(s: seq<int>, k: int): (r: seq<int>)
    ensures multiset(r) == multiset(s) - multiset{k} && (k in s ==> |r| == |s| - 1)
  {
    if s == [] then [] else
      assert s == s[..|s| - 1] + [s[|s| - 1]];
      if s[|s| - 1] == k then s[..|s| - 1] else Without(s[..|s| - 1], k) + [s[|s| - 1]]
  }

  lemma SortedSnoc(s: seq<int>, m: int)
    requires Sorted(s) && forall x :: x in s ==> x <= m
    ensures Sorted(s + [m])
  {
    forall i | 0 <= i < |s|
      ensures s[i] <= m
    {
      assert s[i] in s;
    }
  }

  lemma WithHas(s: seq<int>, k: int)
    ensures forall x :: x in With(s, k) <==> x in s || x == k
  {
    forall x
      ensures x in With(s, k) <==> x in s || x == k
    {
      assert x in With(s, k) <==> x in multiset(With(s, k));
      assert x in s <==> x in multiset(s);
    }
  }

  lemma WithoutHas(s: seq<int>, k: int)
    ensures forall x :: x in Without(s, k) ==> x in s
  {
    forall x | x in Without(s, k)
      ensures x in s
    {
      assert x in multiset(Without(s, k));
    }
  }

  lemma {:induction false} WithIsSorted(s: seq<int>, k: int)
    requires Sorted(s)
    ensures Sorted(With(s, k))
  {
    if s != [] && k < s[|s| - 1] {
      var u := s[..|s| - 1];
      WithIsSorted(u, k);
      WithHas(u, k);
      SortedSnoc(With(u, k), s[|s| - 1]);
    }
  }

  lemma {:induction false} WithoutIsSorted(s: seq<int>, k: int)
    requires Sorted(s)
    ensures Sorted(Without(s, k))
  {
    if s != [] && k != s[|s| - 1] {
      var u := s[..|s| - 1];
      WithoutIsSorted(u, k);
      WithoutHas(u, k);
      SortedSnoc(Without(u, k), s[|s| - 1]);
    }
  }

  lemma SortedBetween(a: seq<int>, s: seq<int>, b: seq<int>)
    requires Sorted(a) && Sorted(s) && Sorted(b)
    requires forall x, y :: x in a && y in s ==> x <= y
    requires forall x, y :: x in s && y in b ==> x <= y
    requires forall x, y :: x in a && y in b ==> x <= y
    ensures Sorted(a + s + b)
  {
    var t := a + s + b;
    forall i, j | 0 <= i < j < |t|
      ensures t[i] <= t[j]
    {
      assert t[i] in (if i < |a| then a else if i < |a| + |s| then s else b);
      assert t[j] in (if j < |a| then a else if j < |a| + |s| then s else b);
    }
  }

  // A key more, or less, inside a longer sequence.
  lemma WithBetween(a: seq<int>, s: seq<int>, b: seq<int>, k: int)
    requires Sorted(a + s + b)
    requires (forall x :: x in a ==> x <= k) && (forall x :: x in b ==> k <= x)
    ensures a + With(s, k) + b == With(a + s + b, k)
  {
    SortedParts(a, s, b);
    WithIsSorted(s, k);
    WithHas(s, k);
    SortedBetween(a, With(s, k), b);
    WithIsSorted(a + s + b, k);
    SortedIsUnique(a + With(s, k) + b, With(a + s + b, k));
  }

  lemma WithoutBetween(a: seq<int>, s: seq<int>, b: seq<int>, k: int)
    requires Sorted(a + s + b) && k in s
    ensures a + Without(s, k) + b == Without(a + s + b, k)
  {
    SortedParts(a, s, b);
    WithoutIsSorted(s, k);
    WithoutHas(s, k);
    SortedBetween(a, Without(s, k), b);
    WithoutIsSorted(a + s + b, k);
    SortedIsUnique(a + Without(s, k) + b, Without(a + s + b, k));
  }

  // Every place where `k` fits leads to the same sequence.
  lemma WithAt(s: seq<int>, p: nat, k: int)
    requires Sorted(s) && p <= |s|
    requires (forall j :: 0 <= j < p ==> s[j] <= k) && forall j :: p <= j < |s| ==> k <= s[j]
    ensures s[..p] + [k] + s[p..] == With(s, k)
  {
    assert s == s[..p] + [] + s[p..] && With([], k) == [k];
    WithBetween(s[..p], [], s[p..], k);
  }

  // Any `k` may be the one that goes.
  lemma WithoutAt(s: seq<int>, p: nat)
    requires Sorted(s) && p < |s|
    ensures s[..p] + s[p + 1..] == Without(s, s[p])
  {
    hide Without, Sorted;
    var a, k, b := s[..p], s[p], s[p + 1..];
    assert a + [k] + b == s && a + b == a + [] + b;
    RemoveBetween(a, k, b);
  }

  lemma RemoveBetween(a: seq<int>, k: int, b: seq<int>)
    requires Sorted(a + [k] + b)
    ensures a + [] + b == Without(a + [k] + b, k)
  {
    WithoutBetween(a, [k], b, k);
    assert Without([k], k) == [];
  }

  // A key more, or less, in one subtree.
  lemma KidWith(ks: seq<int>, fs: seq<seq<int>>, i: nat, k: int)
    requires i <= |ks| && |fs| == |ks| + 1 && Sorted(Weave(ks, fs))
    requires (0 < i ==> ks[i - 1] <= k) && (i < |ks| ==> k <= ks[i])
    ensures Sorted(fs[i]) && Weave(ks, fs[i := With(fs[i], k)]) == With(Weave(ks, fs), k)
  {
    Around(ks, fs, i);
    KidInOrder(ks, fs, i);
    FrontIsBelow(ks, fs, i, k);
    BackIsAbove(ks, fs, i, k);
    WithBetween(Front(ks, fs, i), fs[i], Back(ks, fs, i), k);
    Replaced(ks, fs, i, With(fs[i], k));
  }

  lemma KidWithout(ks: seq<int>, fs: seq<seq<int>>, i: nat, k: int)
    requires i <= |ks| && |fs| == |ks| + 1 && Sorted(Weave(ks, fs)) && k in fs[i]
    ensures Sorted(fs[i]) && Weave(ks, fs[i := Without(fs[i], k)]) == Without(Weave(ks, fs), k)
  {
    Around(ks, fs, i);
    KidInOrder(ks, fs, i);
    WithoutBetween(Front(ks, fs, i), fs[i], Back(ks, fs, i), k);
    Replaced(ks, fs, i, Without(fs[i], k));
  }

  // ---- Keys that move between neighbours ----------------------------------

  lemma Reshare<T>(a: seq<T>, b: seq<T>, q: nat)
    requires q <= |b|
    ensures (a + b[..q]) + b[q..] == a + b
  {
    assert b == b[..q] + b[q..];
  }

  // How many kids go along with the last, or first, key of a node.
  function OneKid(internal: bool): nat {
    if internal then 1 else 0
  }

  lemma ShiftUp(internal: bool, ks: seq<int>, fs: seq<seq<int>>, s: int, ks': seq<int>, fs': seq<seq<int>>)
    requires Fits(internal, ks, fs) && Fits(internal, ks', fs') && ks != []
    ensures
      var p, q := |ks| - 1, |fs| - OneKid(internal);
      && Fits(internal, ks[..p], fs[..q]) && Fits(internal, [s] + ks', fs[q..] + fs')
      && Keys(internal, ks[..p], fs[..q]) + [ks[p]] + Keys(internal, [s] + ks', fs[q..] + fs')
         == Keys(internal, ks, fs) + [s] + Keys(internal, ks', fs')
  {
    var p, q := |ks| - 1, |fs| - OneKid(internal);
    hide Keys;
    KeysSplit(internal, ks, fs, p);
    KeysConcat(internal, [], fs[q..], s, ks', fs');
    assert [] + [s] + ks' == [s] + ks' && ks[p + 1..] == [];
    Regroup(Keys(internal, ks[..p], fs[..q]), [], ks[p], Keys(internal, [], fs[q..]), [s] + Keys(internal, ks', fs'));
  }

  lemma ShiftDown(internal: bool, ks: seq<int>, fs: seq<seq<int>>, s: int, ks': seq<int>, fs': seq<seq<int>>)
    requires Fits(internal, ks, fs) && Fits(internal, ks', fs') && ks' != []
    ensures
      var q := OneKid(internal);
      && Fits(internal, ks + [s], fs + fs'[..q]) && Fits(internal, ks'[1..], fs'[q..])
      && Keys(internal, ks + [s], fs + fs'[..q]) + [ks'[0]] + Keys(internal, ks'[1..], fs'[q..])
         == Keys(internal, ks, fs) + [s] + Keys(internal, ks', fs')
  {
    var q := OneKid(internal);
    KeysSplit(internal, ks', fs', 0);
    KeysConcat(internal, ks, fs, s, [], fs'[..q]);
    assert ks + [s] + [] == ks + [s] && ks'[..0] == [];
    Regroup(Keys(internal, ks, fs), [], s, Keys(internal, [], fs'[..q]), [ks'[0]] + Keys(internal, ks'[1..], fs'[q..]));
  }

  // A key gives way to the last key before it, or the first behind.
  lemma LastTakesOver(a: seq<int>, f: seq<int>, k: int, g: seq<int>, b: seq<int>)
    requires Sorted(a + f + ([k] + g + b)) && f != []
    ensures var v := f[|f| - 1]; a + Without(f, v) + ([v] + g + b) == Without(a + f + ([k] + g + b), k)
  {
    hide Sorted;
    var u, v := f[..|f| - 1], f[|f| - 1];
    ButLast(f);
    assert Without(f, v) == u;
    assert a + f + ([k] + g + b) == (a + f) + [k] + (g + b);
    RemoveBetween(a + f, k, g + b);
    assert a + u + ([v] + g + b) == (a + f) + [] + (g + b);
  }

  lemma FirstTakesOver(a: seq<int>, f: seq<int>, k: int, g: seq<int>, b: seq<int>)
    requires Sorted(a + f + ([k] + g + b)) && Sorted(g) && g != []
    ensures a + f + ([g[0]] + Without(g, g[0]) + b) == Without(a + f + ([k] + g + b), k)
  {
    hide Sorted, Without;
    WithoutFirst(g);
    assert a + f + ([k] + g + b) == (a + f) + [k] + (g + b);
    RemoveBetween(a + f, k, g + b);
    assert a + f + (g + b) == (a + f) + [] + (g + b);
  }

  lemma WithoutFirst(g: seq<int>)
    requires Sorted(g) && g != []
    ensures [g[0]] + Without(g, g[0]) == g
  {
    hide Sorted, Without;
    WithoutAt(g, 0);
    assert g[..0] + g[1..] == g[1..];
  }

  lemma KeyByLast(ks: seq<int>, fs: seq<seq<int>>, i: nat)
    requires i < |ks| && |fs| == |ks| + 1 && Sorted(Weave(ks, fs)) && fs[i] != []
    ensures
      var v := fs[i][|fs[i]| - 1];
      Weave(ks[i := v], fs[i := Without(fs[i], v)]) == Without(Weave(ks, fs), ks[i])
  {
    hide Sorted, Without, Weave, Front, Back;
    var v := fs[i][|fs[i]| - 1];
    Around(ks, fs, i);
    BackStep(ks, fs, i);
    LastTakesOver(Front(ks, fs, i), fs[i], ks[i], fs[i + 1], Back(ks, fs, i + 1));
    Exchanged(ks, fs, i, v, Without(fs[i], v), fs[i + 1]);
    assert fs[i := Without(fs[i], v)] == fs[i := Without(fs[i], v)][i + 1 := fs[i + 1]];
  }

  lemma KeyByFirst(ks: seq<int>, fs: seq<seq<int>>, i: nat)
    requires i < |ks| && |fs| == |ks| + 1 && Sorted(Weave(ks, fs)) && fs[i + 1] != []
    ensures
      var v := fs[i + 1][0];
      Weave(ks[i := v], fs[i + 1 := Without(fs[i + 1], v)]) == Without(Weave(ks, fs), ks[i])
  {
    hide Sorted, Without, Weave, Front, Back;
    var v := fs[i + 1][0];
    Around(ks, fs, i);
    KidInOrder(ks, fs, i + 1);
    BackStep(ks, fs, i);
    FirstTakesOver(Front(ks, fs, i), fs[i], ks[i], fs[i + 1], Back(ks, fs, i + 1));
    Exchanged(ks, fs, i, v, fs[i], Without(fs[i + 1], v));
    assert fs[i + 1 := Without(fs[i + 1], v)] == fs[i := fs[i]][i + 1 := Without(fs[i + 1], v)];
  }

  lemma Exchanged(ks: seq<int>, fs: seq<seq<int>>, i: nat, v: int, f: seq<int>, g: seq<int>)
    requires i < |ks| && |fs| == |ks| + 1
    ensures Weave(ks[i := v], fs[i := f][i + 1 := g]) == Front(ks, fs, i) + f + ([v] + g + Back(ks, fs, i + 1))
  {
    hide Weave, Front, Back;
    var ks', fs' := ks[i := v], fs[i := f][i + 1 := g];
    Around(ks', fs', i);
    BackStep(ks', fs', i);
    FrontSame(ks, fs, ks', fs', i);
    BackSame(ks, fs, i + 1, ks', fs', i + 1);
  }

  // ---- Which subtree holds a key ------------------------------------------

  lemma HoldsKeys(internal: bool, ks: seq<int>, fs: seq<seq<int>>)
    requires Fits(internal, ks, fs) && ks != []
    ensures Keys(internal, ks, fs) != []
  {
    if internal {
      Around(ks, fs, 0);
    }
  }

  // A key strictly between those around a subtree is in the subtree.
  lemma KidHolds(ks: seq<int>, fs: seq<seq<int>>, i: nat, k: int)
    requires i <= |ks| && |fs| == |ks| + 1 && Sorted(Weave(ks, fs)) && k in Weave(ks, fs)
    requires (0 < i ==> ks[i - 1] < k) && (i < |ks| ==> k < ks[i])
    ensures k in fs[i]
  {
    Around(ks, fs, i);
    if 0 < i {
      FrontIsBelow(ks, fs, i, ks[i - 1]);
    }
    if i < |ks| {
      BackIsAbove(ks, fs, i, ks[i]);
    }
  }

  lemma LastIsInLast(ks: seq<int>, fs: seq<seq<int>>)
    requires |fs| == |ks| + 1 && fs[|ks|] != []
    ensures Weave(ks, fs) != [] && Weave(ks, fs)[|Weave(ks, fs)| - 1] == fs[|ks|][|fs[|ks|]| - 1]
  {
  }

  lemma FirstIsInFirst(ks: seq<int>, fs: seq<seq<int>>)
    requires |fs| == |ks| + 1 && fs[0] != []
    ensures Weave(ks, fs) != [] && Weave(ks, fs)[0] == fs[0][0]
  {
    Around(ks, fs, 0);
    assert Front(ks, fs, 0) + fs[0] + Back(ks, fs, 0) == fs[0] + Back(ks, fs, 0);
  }

  // ---- How many keys there are --------------------------------------------

  lemma {:induction false} FrontGrows(ks: seq<int>, fs: seq<seq<int>>, i: nat, m: nat)
    requires i <= |ks| && |fs| == |ks| + 1 && forall j :: 0 <= j < |fs| ==> m <= |fs[j]| + 1
    ensures i * m <= |Front(ks, fs, i)|
  {
    if 0 < i {
      FrontGrows(ks, fs, i - 1, m);
      assert i * m == (i - 1) * m + m;
    }
  }

  // Subtrees of at least m - 1 keys make at least n * m - 1 keys.
  lemma WeaveGrows(ks: seq<int>, fs: seq<seq<int>>, m: nat)
    requires |fs| == |ks| + 1 && forall j :: 0 <= j < |fs| ==> m <= |fs[j]| + 1
    ensures |fs| * m <= |Weave(ks, fs)| + 1
  {
    FrontGrows(ks, fs, |ks|, m);
    assert |fs| * m == |ks| * m + m;
  }
}
