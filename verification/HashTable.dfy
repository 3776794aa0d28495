/**
 The open-addressing table of khash.h. The table refines a finite map from
 keys to values; rehashing happens inside the very arrays that hold the
 entries, by kicking out whatever is in the way.
 */
module HashTable {
  import opened Probing

  // The two bits of one bucket: never used, used and deleted, in use.
  datatype Flag = Empty | Deleted | Live

  // (khint_t)(n * 0.77 + 0.5), which is exact for the powers of two in use.
  function Upper(n: nat): nat {
    (77 * n + 50) / 100
  }

  // 77 % of the buckets, rounded.
  lemma UpperMeans(n: nat)
    ensures
      var exact, u := 0.77 * n as real, Upper(n) as real;
      exact - 0.5 < u <= exact + 0.5
  {
    var a := 77 * n + 50;
    assert 100 * (a / 100) <= a < 100 * (a / 100) + 100;
  }

  // The number of buckets kh_resize settles on. Requests that no power of two
  // among the 32-bit words can meet count as 0, see Probing.RoundUp32IsLeast.
  function NewSize(requested: nat): nat {
    var r := if 1 <= requested <= 0x8000_0000 then LeastPow2(requested) else 0;
    if r < 4 then 16 else r
  }

  lemma NewSizeIsPow2(requested: nat)
    ensures IsPow2(NewSize(requested)) && 4 <= NewSize(requested) <= 0x8000_0000
    ensures requested < 3 || 0x8000_0000 < requested ==> NewSize(requested) == 16
    ensures 3 <= requested <= 0x8000_0000 ==> NewSize(requested) / 2 < requested <= NewSize(requested)
  {
    assert IsPow2(16);
    if 1 <= requested <= 0x8000_0000 {
      LeastPow2IsLeast(requested, 1);
      TopPowers();
      if LeastPow2(requested) > 0x8000_0000 {
        NoPow2Between(LeastPow2(requested), 0x8000_0000);
      }
    }
  }

  // Asking for one bucket less keeps the size; asking for one more doubles it,
  // while that is possible.
  lemma RoomAfter(n: nat, size: nat)
    requires n == 0 ==> size == 0
    requires n != 0 ==> size < n && IsPow2(n) && 4 <= n <= 0x8000_0000
    ensures
      var r := NewSize(if n > 2 * size then n - 1 else n + 1);
      if size >= Upper(r) then n == 0x8000_0000 && n <= 2 * size else size + 1 < r
  {
    if n > 2 * size {
      NewSizeIsPow2(n - 1);
      Pow2Sandwich(n - 1, n, NewSize(n - 1));
    } else {
      NewSizeIsPow2(n + 1);
      if 0 < n < 0x8000_0000 {
        NoPow2Between(NewSize(n + 1), n);
      }
    }
  }

  // An injective map into `s` is no larger than `s`.
  lemma {:induction false} LiveAreOccupied<K>(m: map<K, nat>, s: set<nat>)
    requires forall k :: k in m ==> m[k] in s
    requires forall k, l :: k in m && l in m && m[k] == m[l] ==> k == l
    ensures |m| <= |s|
  {
    if m != map[] {
      var k :| k in m;
      LiveAreOccupied(m - {k}, s - {m[k]});
      assert m == (m - {k})[k := m[k]];
    }
  }

  ghost function Occupied(flags: seq<Flag>): set<nat> {
    set i: nat | i < |flags| && flags[i] != Empty
  }

  lemma FreeBucket(flags: seq<Flag>) returns (b: nat)
    requires |Occupied(flags)| < |flags|
    ensures b < |flags| && flags[b] == Empty
  {
    BucketsSize(|flags|);
    if forall i: nat :: i < |flags| ==> flags[i] != Empty {
      SubsetSize(Buckets(|flags|), Occupied(flags));
    }
    b :| b < |flags| && flags[b] == Empty;
  }

  lemma Occupy(flags: seq<Flag>, i: nat)
    requires i < |flags|
    ensures Occupied(flags[i := Live]) == Occupied(flags) + {i}
    ensures flags[i] == Empty ==> |Occupied(flags[i := Live])| == |Occupied(flags)| + 1
    ensures flags[i] != Empty ==> |Occupied(flags[i := Live])| == |Occupied(flags)|
  {
    assert Occupied(flags[i := Live]) == Occupied(flags) + {i};
    if flags[i] != Empty {
      assert Occupied(flags) + {i} == Occupied(flags);
    }
  }

  // The first `s` probes for hash `h` all meet used buckets.
  ghost predicate Busy(flags: seq<Flag>, h: nat, s: nat)
    requires 0 < |flags|
  {
    forall t: nat :: t < s ==> flags[Probe(h, t, |flags|)] != Empty
  }

  // A search for hash `h` passes bucket `b` before it meets an empty one.
  ghost predicate OnPath(flags: seq<Flag>, h: nat, b: nat) {
    0 < |flags| && exists s: nat :: s < |flags| && Probe(h, s, |flags|) == b && Busy(flags, h, s)
  }

  // Probing meets an empty bucket within the first |flags| probes.
  lemma BusyEnds(flags: seq<Flag>, h: nat, s: nat)
    requires IsPow2(|flags|) && |Occupied(flags)| < |flags| && Busy(flags, h, s)
    ensures s < |flags|
  {
    var b := FreeBucket(flags);
    var t := ProbesCover(h, |flags|, b);
  }

  // Probing does not come back to the first bucket in that many steps.
  lemma NoReturn(h: nat, s: nat, n: nat)
    requires IsPow2(n) && 0 < s < n
    ensures Probe(h, s, n) != Probe(h, 0, n)
  {
    ProbesDiffer(h, 0, s, n);
  }

  // `at` files every key of the table, and nothing else, under its bucket.
  ghost predicate Filed<K>(flags: seq<Flag>, keys: seq<K>, at: map<K, nat>, hash: K -> nat) {
    && |keys| == |flags|
    && (forall i {:trigger flags[i]} :: 0 <= i < |flags| && flags[i] == Live ==> keys[i] in at && at[keys[i]] == i)
    && (forall k {:trigger at[k]} {:trigger k in at} :: k in at ==>
      at[k] < |flags| && flags[at[k]] == Live && keys[at[k]] == k && OnPath(flags, hash(k), at[k]))
  }

  // The entries: what each key's bucket holds.
  ghost function Stored<K, V>(at: map<K, nat>, vals: seq<V>): (c: map<K, V>)
    requires forall k :: k in at ==> at[k] < |vals|
    ensures c.Keys == at.Keys && |c| == |at|
  {
    var c := map k | k in at :: vals[at[k]];
    assert c.Keys == at.Keys;
    assert |c| == |c.Keys| && |at| == |at.Keys|;
    c
  }

  lemma StoredMore<K, V>(at: map<K, nat>, vals: seq<V>, key: K, x: nat)
    requires (forall k :: k in at ==> at[k] < |vals|) && x < |vals|
    ensures Stored(at[key := x], vals) == Stored(at, vals)[key := vals[x]]
  {
  }

  lemma StoredLess<K, V>(at: map<K, nat>, vals: seq<V>, key: K)
    requires forall k :: k in at ==> at[k] < |vals|
    ensures Stored(at - {key}, vals) == Stored(at, vals) - {key}
  {
  }

  lemma FreeStart(flags: seq<Flag>, h: nat)
    requires IsPow2(|flags|)
    ensures 0 < |flags| && Busy(flags, h, 0) && Probe(h, 0, |flags|) == Mask(h, |flags|)
  {
    MaskIsModulo(h, |flags|);
  }

  // One more used bucket, and there are fewer than |flags|.
  lemma FreeStep(flags: seq<Flag>, h: nat, s: nat)
    requires IsPow2(|flags|) && |Occupied(flags)| < |flags| && Busy(flags, h, s) && flags[Probe(h, s, |flags|)] != Empty
    ensures s + 1 < |flags| && Busy(flags, h, s + 1)
    ensures Mask(Probe(h, s, |flags|) + (s + 1), |flags|) == Probe(h, s + 1, |flags|)
  {
    hide Probe, Occupied;
    MaskIsModulo(Probe(h, s, |flags|) + (s + 1), |flags|);
    ProbeStep(h, s, |flags|);
    BusyEnds(flags, h, s + 1);
  }

  // The first `s` probes for `key` met used buckets that do not have it.
  ghost predicate Searched<K>(flags: seq<Flag>, at: map<K, nat>, h: nat, key: K, s: nat)
    requires 0 < |flags|
  {
    Busy(flags, h, s) && (key in at ==> forall t: nat :: t < s ==> at[key] != Probe(h, t, |flags|))
  }

  lemma SearchStart<K>(flags: seq<Flag>, at: map<K, nat>, h: nat, key: K)
    requires IsPow2(|flags|)
    ensures Searched(flags, at, h, key, 0) && Probe(h, 0, |flags|) == Mask(h, |flags|)
  {
    MaskIsModulo(h, |flags|);
  }

  // A bucket that is used and does not have the key is passed; there are fewer
  // than |flags| of them, and they do not include the first one again.
  lemma SearchOn<K>(flags: seq<Flag>, keys: seq<K>, at: map<K, nat>, hash: K -> nat, key: K, s: nat)
    requires Filed(flags, keys, at, hash) && IsPow2(|flags|) && |Occupied(flags)| < |flags|
    requires s < |flags| && Searched(flags, at, hash(key), key, s)
    requires var i := Probe(hash(key), s, |flags|); flags[i] != Empty && (flags[i] == Deleted || keys[i] != key)
    ensures Searched(flags, at, hash(key), key, s + 1) && s + 1 < |flags|
    ensures OnPath(flags, hash(key), Probe(hash(key), s, |flags|))
    ensures Mask(Probe(hash(key), s, |flags|) + (s + 1), |flags|) == Probe(hash(key), s + 1, |flags|)
    ensures Probe(hash(key), s + 1, |flags|) != Probe(hash(key), 0, |flags|)
  {
    MaskIsModulo(Probe(hash(key), s, |flags|) + (s + 1), |flags|);
    ProbeStep(hash(key), s, |flags|);
    BusyEnds(flags, hash(key), s + 1);
    NoReturn(hash(key), s + 1, |flags|);
  }

  // Where the search stops, the key is, or it is nowhere.
  lemma SearchEnd<K>(flags: seq<Flag>, keys: seq<K>, at: map<K, nat>, hash: K -> nat, key: K, s: nat)
    requires Filed(flags, keys, at, hash)
    requires s < |flags| && Searched(flags, at, hash(key), key, s)
    requires var i := Probe(hash(key), s, |flags|); flags[i] == Empty || (flags[i] == Live && keys[i] == key)
    ensures var i := Probe(hash(key), s, |flags|);
      if flags[i] == Empty then key !in at && OnPath(flags, hash(key), i) else key in at && at[key] == i
  {
    if key in at {
      var t: nat :| t < |flags| && Probe(hash(key), t, |flags|) == at[key] && Busy(flags, hash(key), t);
    }
  }

  lemma FileKey<K>(flags: seq<Flag>, keys: seq<K>, at: map<K, nat>, hash: K -> nat, key: K, x: nat)
    requires Filed(flags, keys, at, hash)
    requires key !in at && x < |flags| && flags[x] != Live && OnPath(flags, hash(key), x)
    ensures Filed(flags[x := Live], keys[x := key], at[key := x], hash)
  {
    var flags' := flags[x := Live];
    forall k | k in at || k == key
      ensures OnPath(flags', hash(k), if k == key then x else at[k])
    {
      var b := if k == key then x else at[k];
      var s: nat :| s < |flags| && Probe(hash(k), s, |flags|) == b && Busy(flags, hash(k), s);
      assert Busy(flags', hash(k), s);
    }
  }

  lemma Unfile<K>(flags: seq<Flag>, keys: seq<K>, at: map<K, nat>, hash: K -> nat, x: nat)
    requires Filed(flags, keys, at, hash)
    requires x < |flags| && flags[x] == Live
    ensures Filed(flags[x := Deleted], keys, at - {keys[x]}, hash)
    ensures |at - {keys[x]}| == |at| - 1
    ensures Occupied(flags[x := Deleted]) == Occupied(flags)
  {
    var flags' := flags[x := Deleted];
    assert at == (at - {keys[x]})[keys[x] := x];
    forall k | k in at
      ensures OnPath(flags', hash(k), at[k])
    {
      var s: nat :| s < |flags| && Probe(hash(k), s, |flags|) == at[k] && Busy(flags, hash(k), s);
      assert Busy(flags', hash(k), s);
    }
  }

  lemma FiledWithin<K>(flags: seq<Flag>, keys: seq<K>, at: map<K, nat>, hash: K -> nat)
    requires Filed(flags, keys, at, hash)
    ensures forall k :: k in at ==> at[k] < |flags|
  {
  }

  // Half-way through a rehash: every entry of `c` but at most one in hand is
  // either still under its old flag, as `pend` says, or under its new one, as
  // `placed` says, and all of them share the arrays.
  ghost predicate Moving<K, V>(flags: seq<Flag>, newFlags: seq<Flag>, keys: seq<K>, vals: seq<V>,
                               pend: map<K, nat>, placed: map<K, nat>, c: map<K, V>, hash: K -> nat)
  {
    && |flags| <= |keys| == |vals| && |newFlags| <= |keys|
    && (forall k :: k in pend ==> k in c && k !in placed)
    && (forall k :: k in placed ==> k in c)
    && (forall i {:trigger flags[i]} :: 0 <= i < |flags| && flags[i] == Live ==> keys[i] in pend && pend[keys[i]] == i)
    && (forall k {:trigger pend[k]} {:trigger k in pend} :: k in pend ==>
      pend[k] < |flags| && flags[pend[k]] == Live && keys[pend[k]] == k && vals[pend[k]] == c[k])
    && (forall i {:trigger newFlags[i]} :: 0 <= i < |newFlags| && newFlags[i] != Empty ==>
      newFlags[i] == Live && keys[i] in placed && placed[keys[i]] == i)
    && (forall k {:trigger placed[k]} :: k in placed ==>
      && placed[k] < |newFlags| && newFlags[placed[k]] == Live && keys[placed[k]] == k && vals[placed[k]] == c[k]
      && OnPath(newFlags, hash(k), placed[k]))
  }

  lemma TakeOut<K, V>(flags: seq<Flag>, newFlags: seq<Flag>, keys: seq<K>, vals: seq<V>,
                      pend: map<K, nat>, placed: map<K, nat>, c: map<K, V>, hash: K -> nat, j: nat)
    requires Moving(flags, newFlags, keys, vals, pend, placed, c, hash)
    requires j < |flags| && flags[j] == Live
    ensures Moving(flags[j := Deleted], newFlags, keys, vals, pend - {keys[j]}, placed, c, hash)
    ensures |newFlags| <= |keys| == |vals| && j < |keys|
    ensures keys[j] in pend && keys[j] in c && keys[j] !in placed && vals[j] == c[keys[j]]
  {
    hide OnPath;
  }

  lemma PlaceAt<K, V>(flags: seq<Flag>, newFlags: seq<Flag>, keys: seq<K>, vals: seq<V>,
                      pend: map<K, nat>, placed: map<K, nat>, c: map<K, V>, hash: K -> nat, key: K, s: nat)
    requires Moving(flags, newFlags, keys, vals, pend, placed, c, hash)
    requires key in c && key !in pend && key !in placed
    requires s < |newFlags| && Busy(newFlags, hash(key), s)
    requires var i := Probe(hash(key), s, |newFlags|); newFlags[i] == Empty && (i < |flags| ==> flags[i] != Live)
    ensures var i := Probe(hash(key), s, |newFlags|);
      Moving(flags, newFlags[i := Live], keys[i := key], vals[i := c[key]], pend, placed[key := i], c, hash)
  {
    var i := Probe(hash(key), s, |newFlags|);
    var newFlags' := newFlags[i := Live];
    assert Busy(newFlags', hash(key), s);
    forall k | k in placed
      ensures OnPath(newFlags', hash(k), placed[k])
    {
      var t: nat :| t < |newFlags| && Probe(hash(k), t, |newFlags|) == placed[k] && Busy(newFlags, hash(k), t);
      assert Busy(newFlags', hash(k), t);
    }
  }

  // All entries of `c` but the one of `key`, which is in hand, are accounted
  // for; when `key` is None, all entries are.
  ghost predicate Accounted<K, V>(flags: seq<Flag>, newFlags: seq<Flag>, keys: seq<K>, vals: seq<V>,
                                  pend: map<K, nat>, placed: map<K, nat>, c: map<K, V>, hash: K -> nat, hand: set<K>)
  {
    && Moving(flags, newFlags, keys, vals, pend, placed, c, hash)
    && (forall k :: k in c ==> k in pend || k in placed || k in hand)
    && (forall k :: k in hand ==> k in c && k !in pend && k !in placed)
    && |Occupied(newFlags)| == |placed|
  }

  // Taking the entry of old bucket `j` in hand.
  lemma PickUp<K, V>(flags: seq<Flag>, newFlags: seq<Flag>, keys: seq<K>, vals: seq<V>,
                     pend: map<K, nat>, placed: map<K, nat>, c: map<K, V>, hash: K -> nat, j: nat)
    requires Accounted(flags, newFlags, keys, vals, pend, placed, c, hash, {})
    requires j < |flags| && flags[j] == Live
    ensures j < |keys| == |vals|
    ensures Accounted(flags[j := Deleted], newFlags, keys, vals, pend - {keys[j]}, placed, c, hash, {keys[j]})
    ensures vals[j] == c[keys[j]]
  {
    TakeOut(flags, newFlags, keys, vals, pend, placed, c, hash, j);
  }

  // One round of kicking out: `key` moves in under `i`, and the entry that
  // was still to be moved from there comes in hand.
  lemma PlaceAndKick<K, V>(flags: seq<Flag>, newFlags: seq<Flag>, keys: seq<K>, vals: seq<V>,
                           pend: map<K, nat>, placed: map<K, nat>, c: map<K, V>, hash: K -> nat, key: K, s: nat, i: nat)
    requires Accounted(flags, newFlags, keys, vals, pend, placed, c, hash, {key})
    requires s < |newFlags| && Busy(newFlags, hash(key), s)
    requires i == Probe(hash(key), s, |newFlags|) && newFlags[i] == Empty
    requires i < |flags| && flags[i] == Live
    ensures keys[i] in pend && vals[i] == c[keys[i]] && |pend - {keys[i]}| < |pend|
    ensures Accounted(flags[i := Deleted], newFlags[i := Live], keys[i := key], vals[i := c[key]],
                      pend - {keys[i]}, placed[key := i], c, hash, {keys[i]})
  {
    hide Moving, OnPath, Busy, Occupied, Probe;
    Occupy(newFlags, i);
    TakeOut(flags, newFlags, keys, vals, pend, placed, c, hash, i);
    OneLess(pend, keys[i]);
    PlaceAt(flags[i := Deleted], newFlags, keys, vals, pend - {keys[i]}, placed, c, hash, key, s);
  }

  // The last round: `key` moves in where there is nothing left to be moved.
  lemma PlaceLast<K, V>(flags: seq<Flag>, newFlags: seq<Flag>, keys: seq<K>, vals: seq<V>,
                        pend: map<K, nat>, placed: map<K, nat>, c: map<K, V>, hash: K -> nat, key: K, s: nat, i: nat)
    requires Accounted(flags, newFlags, keys, vals, pend, placed, c, hash, {key})
    requires s < |newFlags| && Busy(newFlags, hash(key), s)
    requires i == Probe(hash(key), s, |newFlags|) && newFlags[i] == Empty
    requires i < |flags| ==> flags[i] != Live
    ensures Accounted(flags, newFlags[i := Live], keys[i := key], vals[i := c[key]], pend, placed[key := i], c, hash,
      {})
  {
    hide Moving, OnPath, Busy, Occupied, Probe;
    Occupy(newFlags, i);
    PlaceAt(flags, newFlags, keys, vals, pend, placed, c, hash, key, s);
  }

  lemma OneLess<K>(pend: map<K, nat>, k: K)
    requires k in pend
    ensures |pend - {k}| < |pend|
  {
    assert pend == (pend - {k})[k := pend[k]];
  }

  lemma FewPlaced<K, V>(placed: map<K, nat>, c: map<K, V>, key: K)
    requires (forall k :: k in placed ==> k in c) && key in c && key !in placed
    ensures |placed| + 1 <= |c|
  {
    var rest := c.Keys - placed.Keys - {key};
    assert c.Keys == placed.Keys + {key} + rest;
    assert |placed.Keys| == |placed| && |c.Keys| == |c|;
  }

  // Nothing is pending when no old flag is live.
  lemma NonePending<K, V>(flags: seq<Flag>, newFlags: seq<Flag>, keys: seq<K>, vals: seq<V>,
                          pend: map<K, nat>, placed: map<K, nat>, c: map<K, V>, hash: K -> nat)
    requires Accounted(flags, newFlags, keys, vals, pend, placed, c, hash, {}) && Dead(flags, |flags|)
    ensures Accounted([], newFlags, keys, vals, map[], placed, c, hash, {})
  {
  }

  // None of the first `j` flags is live.
  ghost predicate Dead(flags: seq<Flag>, j: nat) {
    j <= |flags| && forall i :: 0 <= i < j ==> flags[i] != Live
  }

  // No flag comes to life.
  ghost predicate Fades(before: seq<Flag>, after: seq<Flag>) {
    |before| == |after| && forall i {:trigger after[i]} :: 0 <= i < |after| && before[i] != Live ==> after[i] != Live
  }

  lemma FadesDead(before: seq<Flag>, after: seq<Flag>, j: nat)
    requires Dead(before, j) && Fades(before, after) && j < |after| && after[j] != Live
    ensures Dead(after, j + 1)
  {
  }

  // The start of a rehash: nothing is placed yet.
  lemma StartMoving<K, V>(flags: seq<Flag>, newFlags: seq<Flag>, keys0: seq<K>, vals0: seq<V>, keys: seq<K>,
      vals: seq<V>,
                          at: map<K, nat>, c: map<K, V>, hash: K -> nat)
    requires Filed(flags, keys0, at, hash)
    requires |flags| == |keys0| == |vals0| <= |keys| == |vals| && |newFlags| <= |keys|
    requires keys[..|flags|] == keys0 && vals[..|flags|] == vals0
    requires forall i :: 0 <= i < |newFlags| ==> newFlags[i] == Empty
    requires c == Stored(at, vals0)
    ensures Accounted(flags, newFlags, keys, vals, at, map[], c, hash, {})
  {
    assert Occupied(newFlags) == {};
    assert forall i :: 0 <= i < |flags| ==> keys[i] == keys0[i] && vals[i] == vals0[i];
  }

  // The end of a rehash: everything is placed, also after cutting the arrays
  // to the new size.
  lemma DoneMoving<K, V>(newFlags: seq<Flag>, keys0: seq<K>, vals0: seq<V>, keys: seq<K>, vals: seq<V>,
                         placed: map<K, nat>, c: map<K, V>, hash: K -> nat)
    requires Accounted([], newFlags, keys0, vals0, map[], placed, c, hash, {})
    requires keys == keys0[..|newFlags|] && vals == vals0[..|newFlags|]
    ensures Filed(newFlags, keys, placed, hash) && |Occupied(newFlags)| == |placed|
    ensures |placed| == |c| && c == Stored(placed, vals)
  {
    assert forall i :: 0 <= i < |newFlags| ==> keys[i] == keys0[i] && vals[i] == vals0[i];
    assert placed.Keys == c.Keys;
    assert |placed| == |placed.Keys| && |c| == |c.Keys|;
  }

  // realloc: a new array that starts with what fits of the old one.
  method Realloc<T(0)>(a: array<T>, n: nat) returns (b: array<T>)
    ensures fresh(b) && b.Length == n
    ensures forall i :: 0 <= i < n && i < a.Length ==> b[i] == a[i]
  {
    b := new T[n];
    for i := 0 to if n < a.Length then n else a.Length
      invariant forall k :: 0 <= k < i ==> b[k] == a[k]
    {
      b[i] := a[i];
    }
  }

  class Table<K(==, 0), V(0)> {
    const hash: K -> nat
    var nBuckets: nat
    var size: nat
    var nOccupied: nat
    var upperBound: nat
    var flags: array<Flag>
    var keys: array<K>
    var vals: array<V>
    ghost var at: map<K, nat>

    ghost predicate Sound()
      reads this, flags, keys, vals
    {
      && flags as object != keys && flags as object != vals && keys as object != vals
      && flags.Length == keys.Length == vals.Length == nBuckets
      && (nBuckets == 0 ==> upperBound == 0)
      && (nBuckets != 0 ==>
        IsPow2(nBuckets) && 4 <= nBuckets <= 0x8000_0000 && upperBound == Upper(nBuckets))
      && Filed(flags[..], keys[..], at, hash)
      && size == |at| && nOccupied == |Occupied(flags[..])|
    }

    // An empty bucket ends every search.
    ghost predicate Valid()
      reads this, flags, keys, vals
    {
      Sound() && (nBuckets != 0 ==> nOccupied < nBuckets)
    }

    // The arrays of the table.
    ghost function Arrays(): set<object>
      reads this
    {
      {flags as object, keys as object, vals as object}
    }

    // The map the table stands for.
    ghost function Contents(): map<K, V>
      requires Sound()
      reads this, flags, keys, vals
    {
      Stored(at, vals[..])
    }

    constructor (h: K -> nat)
      ensures Valid() && Contents() == map[] && hash == h
      ensures fresh(flags) && fresh(keys) && fresh(vals)
    {
      hash := h;
      nBuckets, size, nOccupied, upperBound := 0, 0, 0, 0;
      flags, keys, vals := new Flag[0], new K[0], new V[0];
      at := map[];
    }

    // The bucket of `key`, or nBuckets when the table does not have it.
    method Get(key: K) returns (x: nat)
      requires Valid()
      ensures x == if key in Contents() then at[key] else nBuckets
    {
      if nBuckets == 0 {
        return 0;
      }
      hide Filed, Searched, Probe, Occupied, IsPow2, OnPath, Busy, Mask, Stored;
      var k := hash(key);
      SearchStart(flags[..], at, k, key);
      var i, step := Mask(k, nBuckets), 0;
      var last := i;
      while flags[i] != Empty && (flags[i] == Deleted || keys[i] != key)
        invariant step < nBuckets && i == Probe(k, step, nBuckets)
        invariant Searched(flags[..], at, k, key, step)
        decreases nBuckets - step
      {
        SearchOn(flags[..], keys[..], at, hash, key, step);
        step := step + 1;
        i := Mask(i + step, nBuckets);
        if i == last {
          // The original gives up here; it never happens.
          assert false;
        }
      }
      SearchEnd(flags[..], keys[..], at, hash, key, step);
      return if flags[i] != Live then nBuckets else i;
    }

    // The first bucket on the probe path of hash `h` that is free.
    method FindFree(newFlags: array<Flag>, h: nat) returns (i: nat, ghost s: nat)
      requires IsPow2(newFlags.Length) && |Occupied(newFlags[..])| < newFlags.Length
      ensures s < newFlags.Length && i == Probe(h, s, newFlags.Length) && newFlags[i] == Empty
      ensures Busy(newFlags[..], h, s)
    {
      hide Busy, Probe, Occupied, IsPow2, Mask;
      var step := 0;
      FreeStart(newFlags[..], h);
      i := Mask(h, newFlags.Length);
      while newFlags[i] != Empty
        invariant step < newFlags.Length && i == Probe(h, step, newFlags.Length)
        invariant Busy(newFlags[..], h, step)
        decreases newFlags.Length - step
      {
        FreeStep(newFlags[..], h, step);
        step := step + 1;
        i := Mask(i + step, newFlags.Length);
      }
      s := step;
    }

    // The arrays of a rehash are distinct objects of the right sizes.
    ghost predicate Apart(newFlags: array<Flag>)
      reads this
    {
      && flags as object != keys && flags as object != vals && keys as object != vals
      && newFlags != flags && newFlags as object != keys && newFlags as object != vals
      && flags.Length == nBuckets && IsPow2(newFlags.Length)
    }

    // Finds a new bucket for the entry in hand and files it there; `more` says
    // that another entry was kicked out and is now in hand.
    method KickRound(newFlags: array<Flag>, key: K, val: V,
                     ghost pend: map<K, nat>, ghost placed: map<K, nat>, ghost c: map<K, V>)
      returns (more: bool, key': K, val': V, ghost pend': map<K, nat>, ghost placed': map<K, nat>)
      requires Apart(newFlags) && |c| < newFlags.Length
      requires Accounted(flags[..], newFlags[..], keys[..], vals[..], pend, placed, c, hash, {key})
      requires key in c && val == c[key]
      modifies flags, newFlags, keys, vals
      ensures Accounted(flags[..], newFlags[..], keys[..], vals[..], pend', placed', c, hash,
        if more then {key'} else {})
      ensures more ==> key' in c && val' == c[key'] && |pend'| < |pend|
      ensures Fades(old(flags[..]), flags[..])
    {
      FewPlaced(placed, c, key);
      ghost var s;
      var i;
      i, s := FindFree(newFlags, hash(key));
      more := i < nBuckets && flags[i] == Live;
      pend', placed' := pend, placed[key := i];
      if more {
        PlaceAndKick(flags[..], newFlags[..], keys[..], vals[..], pend, placed, c, hash, key, s, i);
        pend' := pend - {keys[i]};
        key', val' := Swap(newFlags, i, key, val);
      } else {
        PlaceLast(flags[..], newFlags[..], keys[..], vals[..], pend, placed, c, hash, key, s, i);
        key', val' := key, val;
        Store(newFlags, i, key, val);
      }
    }

    // Moves the entry of old bucket `j` to its new bucket, the entry it finds
    // there to that one's new bucket, and so on.
    method KickOut(newFlags: array<Flag>, j: nat, ghost pend0: map<K, nat>, ghost placed0: map<K, nat>,
        ghost c: map<K, V>)
      returns (ghost pend: map<K, nat>, ghost placed: map<K, nat>)
      requires Apart(newFlags) && |c| < newFlags.Length
      requires Accounted(flags[..], newFlags[..], keys[..], vals[..], pend0, placed0, c, hash, {})
      requires j < nBuckets && flags[j] == Live
      modifies flags, newFlags, keys, vals
      ensures Accounted(flags[..], newFlags[..], keys[..], vals[..], pend, placed, c, hash, {})
      ensures flags[j] != Live
      ensures Fades(old(flags[..]), flags[..])
    {
      hide Accounted, Moving, Occupied, OnPath;
      PickUp(flags[..], newFlags[..], keys[..], vals[..], pend0, placed0, c, hash, j);
      var key, val := keys[j], vals[j];
      flags[j] := Deleted;
      pend, placed := pend0 - {key}, placed0;
      assert flags[..] == old(flags[..])[j := Deleted];
      var more := true;
      while more
        invariant Accounted(flags[..], newFlags[..], keys[..], vals[..], pend, placed, c, hash,
          if more then {key} else {})
        invariant more ==> key in c && val == c[key]
        invariant flags[j] != Live
        invariant Fades(old(flags[..]), flags[..])
        decreases if more then 1 + |pend| else 0
      {
        more, key, val, pend, placed := KickRound(newFlags, key, val, pend, placed, c);
      }
    }

    // Files `key` under bucket `i` and hands back the entry that was there.
    method Swap(newFlags: array<Flag>, i: nat, key: K, val: V) returns (key': K, val': V)
      requires flags as object != keys && flags as object != vals && keys as object != vals
      requires newFlags != flags && newFlags as object != keys && newFlags as object != vals
      requires i < newFlags.Length && i < flags.Length <= keys.Length == vals.Length
      modifies flags, newFlags, keys, vals
      ensures newFlags[..] == old(newFlags[..])[i := Live] && flags[..] == old(flags[..])[i := Deleted]
      ensures keys[..] == old(keys[..])[i := key] && vals[..] == old(vals[..])[i := val]
      ensures key' == old(keys[i]) && val' == old(vals[i])
    {
      newFlags[i] := Live;
      key', keys[i] := keys[i], key;
      val', vals[i] := vals[i], val;
      flags[i] := Deleted;
    }

    // Files `key` under the free bucket `i`.
    method Store(newFlags: array<Flag>, i: nat, key: K, val: V)
      requires keys as object != vals && newFlags as object != keys && newFlags as object != vals
      requires i < newFlags.Length <= keys.Length == vals.Length
      modifies newFlags, keys, vals
      ensures newFlags[..] == old(newFlags[..])[i := Live]
      ensures keys[..] == old(keys[..])[i := key] && vals[..] == old(vals[..])[i := val]
    {
      newFlags[i] := Live;
      keys[i] := key;
      vals[i] := val;
    }

    // Moves every entry to its bucket under the new flags.
    method Rehash(newFlags: array<Flag>, ghost c: map<K, V>) returns (ghost placed: map<K, nat>)
      requires Apart(newFlags) && |c| < newFlags.Length
      requires Accounted(flags[..], newFlags[..], keys[..], vals[..], at, map[], c, hash, {})
      modifies flags, newFlags, keys, vals
      ensures Accounted([], newFlags[..], keys[..], vals[..], map[], placed, c, hash, {})
    {
      ghost var pend := at;
      placed := map[];
      var j := 0;
      while j != nBuckets
        invariant j <= nBuckets && Dead(flags[..], j)
        invariant Accounted(flags[..], newFlags[..], keys[..], vals[..], pend, placed, c, hash, {})
      {
        ghost var before := flags[..];
        if flags[j] == Live {
          pend, placed := KickOut(newFlags, j, pend, placed, c);
        }
        FadesDead(before, flags[..], j);
        j := j + 1;
      }
      NonePending(flags[..], newFlags[..], keys[..], vals[..], pend, placed, c, hash);
    }

    // Makes room in the arrays when the table is to grow.
    method Widen(newN: nat)
      requires keys as object != vals && keys.Length == vals.Length == nBuckets
      modifies this`keys, this`vals
      ensures keys as object != vals && keys.Length == vals.Length == (if nBuckets < newN then newN else nBuckets)
      ensures keys[..nBuckets] == old(keys[..]) && vals[..nBuckets] == old(vals[..])
      ensures fresh(keys) || keys == old(keys)
      ensures fresh(vals) || vals == old(vals)
    {
      if nBuckets < newN {
        keys := Realloc(keys, newN);
        vals := Realloc(vals, newN);
      }
    }

    // Cuts the arrays when the table shrank.
    method Cut(newN: nat)
      requires keys as object != vals && keys.Length == vals.Length && newN <= keys.Length
      requires nBuckets <= newN ==> keys.Length == newN
      modifies this`keys, this`vals
      ensures keys as object != vals && keys.Length == vals.Length == newN
      ensures keys[..] == old(keys[..newN]) && vals[..] == old(vals[..newN])
      ensures fresh(keys) || keys == old(keys)
      ensures fresh(vals) || vals == old(vals)
    {
      if nBuckets > newN {
        keys := Realloc(keys, newN);
        vals := Realloc(vals, newN);
      }
    }

    // The first part of a rehash: allocates, then moves every entry.
    method MoveAll(newN: nat) returns (newFlags: array<Flag>, ghost placed: map<K, nat>)
      requires Valid() && IsPow2(newN) && size < newN
      modifies this`keys, this`vals, flags, keys, vals
      ensures fresh(newFlags) && newFlags.Length == newN
      ensures newFlags as object != keys && newFlags as object != vals && keys as object != vals
      ensures keys.Length == vals.Length == (if nBuckets < newN then newN else nBuckets)
      ensures Accounted([], newFlags[..], keys[..], vals[..], map[], placed, old(Contents()), hash, {})
      ensures fresh(keys) || keys == old(keys)
      ensures fresh(vals) || vals == old(vals)
    {
      ghost var c := Contents();
      ghost var keys0, vals0 := keys[..], vals[..];
      newFlags := new Flag[newN](_ => Empty);
      Widen(newN);
      StartMoving(flags[..], newFlags[..], keys0, vals0, keys[..], vals[..], at, c, hash);
      placed := Rehash(newFlags, c);
    }

    // The last part of a rehash: the new flags replace the old.
    method Adopt(newFlags: array<Flag>, ghost placed: map<K, nat>, ghost c: map<K, V>)
      requires newFlags as object != keys && newFlags as object != vals && keys as object != vals
      requires keys.Length == vals.Length == (if nBuckets < newFlags.Length then newFlags.Length else nBuckets)
      requires Accounted([], newFlags[..], keys[..], vals[..], map[], placed, c, hash, {})
      requires IsPow2(newFlags.Length) && 4 <= newFlags.Length <= 0x8000_0000
      requires |c| == size < Upper(newFlags.Length)
      modifies this
      ensures Valid() && Contents() == c && flags == newFlags
      ensures nBuckets == newFlags.Length && nOccupied == size == old(size)
      ensures fresh(keys) || keys == old(keys)
      ensures fresh(vals) || vals == old(vals)
    {
      hide Accounted, Moving, OnPath, Busy, Probe, IsPow2, Stored, Filed;
      var newN := newFlags.Length;
      ghost var keys1, vals1 := keys[..], vals[..];
      Cut(newN);
      DoneMoving(newFlags[..], keys1, vals1, keys[..], vals[..], placed, c, hash);
      flags := newFlags;
      nBuckets := newN;
      nOccupied := size;
      upperBound := Upper(newN);
      at := placed;
    }

    // The rehash proper: same entries, new number of buckets.
    method RehashInto(newN: nat)
      requires Valid() && IsPow2(newN) && 4 <= newN <= 0x8000_0000 && size < Upper(newN)
      modifies this, flags, keys, vals
      ensures Valid() && Contents() == old(Contents())
      ensures nBuckets == newN && nOccupied == size == old(size) && fresh(flags)
      ensures fresh(Arrays() - old(Arrays()))
    {
      ghost var c := Contents();
      var newFlags;
      ghost var placed;
      newFlags, placed := MoveAll(newN);
      Adopt(newFlags, placed, c);
    }

    // kh_resize: rehashes into NewSize(requested) buckets, unless the entries
    // would not fit there.
    method Resize(requested: nat)
      requires Valid()
      modifies this, flags, keys, vals
      ensures Valid() && Contents() == old(Contents()) && size == old(size)
      ensures
        if old(size) >= Upper(NewSize(requested))
        then unchanged(this) && unchanged(flags) && unchanged(keys) && unchanged(vals)
        else nBuckets == NewSize(requested) && nOccupied == size && fresh(flags)
      ensures fresh(Arrays() - old(Arrays()))
    {
      NewSizeIsPow2(requested);
      var newN := NewSize(requested);
      if size < Upper(newN) {
        RehashInto(newN);
      }
    }

    lemma SizeBelowOccupied()
      requires Valid()
      ensures size <= nOccupied
    {
      LiveAreOccupied(at, Occupied(flags[..]));
    }

    // No room and no way to make some: one empty bucket, not half of the others
    // deleted, and 2^31 buckets already.
    ghost predicate Exhausted()
      reads this
    {
      nBuckets == 0x8000_0000 && nOccupied + 1 == nBuckets <= 2 * size
    }

    // When the table is full to its bound: clears out deleted entries if these
    // are many, and grows otherwise.
    method MakeRoom()
      requires Valid()
      modifies this, flags, keys, vals
      ensures Valid() && Contents() == old(Contents()) && size == old(size)
      ensures (if old(Exhausted()) then nOccupied + 1 == nBuckets else nOccupied + 1 < nBuckets)
      ensures fresh(Arrays() - old(Arrays()))
    {
      if nOccupied >= upperBound {
        SizeBelowOccupied();
        RoomAfter(nBuckets, size);
        var requested := if nBuckets > 2 * size then nBuckets - 1 else nBuckets + 1;
        ghost var r := NewSize(requested);
        assert size >= Upper(r) && !Exhausted() ==> nOccupied + 1 < nBuckets;
        Resize(requested);
      }
    }

    // Puts `key` into the table, if it is not there yet, and returns its
    // bucket. A new key's value is whatever the bucket last held: callers
    // store the value themselves. Only an exhausted table loses its last empty
    // bucket, to a key that is new to it and not put into a deleted bucket.
    method Put(key: K) returns (x: nat, ret: int)
      requires Valid()
      modifies this, flags, keys, vals
      ensures Sound() && key in at && x == at[key] && x < vals.Length
      ensures Valid() <==> !(old(Exhausted()) && ret == 1)
      ensures Contents() == if ret == 0 then old(Contents()) else old(Contents())[key := vals[x]]
      ensures ret == 0 <==> key in old(Contents())
      ensures 0 <= ret <= 2 && size == old(size) + (if ret == 0 then 0 else 1)
      ensures fresh(Arrays() - old(Arrays()))
    {
      MakeRoom();
      x := FindSite(key);
      ret := StoreKey(key, x);
    }

    // The bucket that has `key`; else a deleted bucket on its probe path; else
    // the empty one at the end of the path.
    method FindSite(key: K) returns (x: nat)
      requires Valid() && 0 < nBuckets
      ensures x < nBuckets
      ensures key in at ==> x == at[key]
      ensures key !in at ==> flags[x] != Live && OnPath(flags[..], hash(key), x)
    {
      hide Filed, Searched, Probe, Occupied, IsPow2, OnPath, Busy, Mask, Stored;
      var k := hash(key);
      SearchStart(flags[..], at, k, key);
      var i, step := Mask(k, nBuckets), 0;
      x := nBuckets;
      var site: nat := nBuckets;
      if flags[i] == Empty {
        SearchEnd(flags[..], keys[..], at, hash, key, 0);
        return i;
      }
      var last := i;
      while flags[i] != Empty && (flags[i] == Deleted || keys[i] != key)
        invariant step < nBuckets && i == Probe(k, step, nBuckets)
        invariant Searched(flags[..], at, k, key, step)
        invariant site != nBuckets ==> site < nBuckets && flags[site] == Deleted && OnPath(flags[..], k, site)
        decreases nBuckets - step
      {
        SearchOn(flags[..], keys[..], at, hash, key, step);
        if flags[i] == Deleted {
          site := i;
        }
        step := step + 1;
        i := Mask(i + step, nBuckets);
        if i == last {
          // The original settles for the site found so far; it never happens.
          assert false;
        }
      }
      SearchEnd(flags[..], keys[..], at, hash, key, step);
      if x == nBuckets {
        if flags[i] == Empty && site != nBuckets {
          x := site;
        } else {
          x := i;
        }
      }
    }

    // Takes bucket `x`, which is not in use, for `key`.
    method TakeBucket(key: K, x: nat)
      requires Valid() && x < nBuckets
      requires key !in at && flags[x] != Live && OnPath(flags[..], hash(key), x)
      modifies this`size, this`nOccupied, this`at, flags, keys
      ensures Sound() && nOccupied == old(nOccupied) + (if old(flags[x]) == Empty then 1 else 0)
        && at == old(at)[key := x] && size == old(size) + 1 && vals[..] == old(vals[..])
    {
      FileKey(flags[..], keys[..], at, hash, key, x);
      Occupy(flags[..], x);
      if flags[x] == Empty {
        nOccupied := nOccupied + 1;
      }
      keys[x] := key;
      flags[x] := Live;
      size := size + 1;
      at := at[key := x];
      assert flags[..] == old(flags[..])[x := Live] && keys[..] == old(keys[..])[x := key];
    }

    // Stores `key` under bucket `x`, unless the key is there already; the
    // result tells an unused bucket (1) from a deleted one (2).
    method StoreKey(key: K, x: nat) returns (ret: int)
      requires Valid() && x < nBuckets
      requires key in at ==> x == at[key]
      requires key !in at ==> flags[x] != Live && OnPath(flags[..], hash(key), x)
      modifies this`size, this`nOccupied, this`at, flags, keys
      ensures Sound() && nOccupied == old(nOccupied) + (if ret == 1 then 1 else 0) && nBuckets == old(nBuckets)
        && key in at && x == at[key] && x < vals.Length
      ensures Contents() == if ret == 0 then old(Contents()) else old(Contents())[key := vals[x]]
      ensures ret == if key in old(Contents()) then 0 else if old(flags[x]) == Empty then 1 else 2
      ensures size == old(size) + (if ret == 0 then 0 else 1)
    {
      ret := if flags[x] == Empty then 1 else if flags[x] == Deleted then 2 else 0;
      if ret != 0 {
        StoredMore(at, vals[..], key, x);
        TakeBucket(key, x);
      }
    }

    // Deletes the entry of bucket `x`, if it is one.
    method Del(x: nat)
      requires Valid() && x <= nBuckets
      modifies this`size, this`at, flags
      ensures Valid() && nBuckets == old(nBuckets)
      ensures Contents() == if x < nBuckets && old(flags[x]) == Live then old(Contents()) - {keys[x]}
        else old(Contents())
    {
      hide Filed, Stored, OnPath, Busy, Occupied, IsPow2;
      if x != nBuckets && flags[x] == Live {
        Unfile(flags[..], keys[..], at, hash, x);
        FiledWithin(flags[..], keys[..], at, hash);
        StoredLess(at, vals[..], keys[x]);
        flags[x] := Deleted;
        size := size - 1;
        at := at - {keys[x]};
        assert flags[..] == old(flags[..])[x := Deleted];
      }
    }
  }
}
