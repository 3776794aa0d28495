/**
 What expiring a profile means: the files of several channels, each in the
 order of its walk, are tried as one list in the order of their names.
 */
module ExpireSpec {
  import opened FtsSpec

  // What a walk shows: a file, with its blocks and whether it can be removed,
  // or anything else.
  datatype Item = File(name: string, blocks: nat, removable: bool) | Other

  // A file that was tried, and its channel.
  datatype Try = Try(k: nat, f: Item)

  const PREFIX := "nfcapd."

  predicate IsData(i: Item) {
    i.File? && (|i.name| == 19 || |i.name| == 21) && i.name[..7] == PREFIX
  }

  // The data files of a walk.
  function Data(walk: seq<Item>): (r: seq<Item>)
    ensures forall i :: i in r ==> IsData(i)
  {
    if walk == [] then [] else (if IsData(walk[0]) then [walk[0]] else []) + Data(walk[1..])
  }

  predicate Digits(s: string) {
    forall i :: 0 <= i < |s| ==> '0' <= s[i] <= '9'
  }

  // Those whose time is made of digits only.
  function Dated(walk: seq<Item>): (r: seq<Item>)
    ensures forall i :: i in r ==> IsData(i)
  {
    if walk == [] then [] else (if IsData(walk[0]) && Digits(Stamp(walk[0])) then [walk[0]] else []) + Dated(walk[1..])
  }

  function Bytes(fs: seq<Item>): nat {
    if fs == [] then 0 else (if fs[0].File? then 512 * fs[0].blocks else 0) + Bytes(fs[1..])
  }

  lemma {:induction false} BytesConcat(a: seq<Item>, b: seq<Item>)
    ensures Bytes(a + b) == Bytes(a) + Bytes(b)
  {
    if a == [] {
      assert a + b == b;
    } else {
      assert (a + b)[0] == a[0] && (a + b)[1..] == a[1..] + b;
      BytesConcat(a[1..], b);
    }
  }

  // The files of channel `k` among those tried, and those that could not be removed.
  function Of(log: seq<Try>, k: nat): seq<Item> {
    if log == [] then [] else Of(log[..|log| - 1], k) + if log[|log| - 1].k == k then [log[|log| - 1].f] else []
  }

  function Stuck(fs: seq<Item>): seq<Item> {
    if fs == [] then [] else Stuck(fs[..|fs| - 1]) + if Removed(fs[|fs| - 1]) then [] else [fs[|fs| - 1]]
  }

  predicate Removed(f: Item) {
    f.File? && f.removable
  }

  // Bytes that were freed.
  function Freed(log: seq<Try>): nat {
    if log == [] then 0 else Freed(log[..|log| - 1]) + if Removed(log[|log| - 1].f) then 512 * log[|log| - 1].f.blocks
      else 0
  }

  lemma LogStep(log: seq<Try>, t: Try)
    ensures forall k :: Of(log + [t], k) == if t.k == k then Of(log, k) + [t.f] else Of(log, k)
    ensures Freed(log + [t]) == Freed(log) + if Removed(t.f) then 512 * t.f.blocks else 0
  {
    assert (log + [t])[..|log|] == log;
  }

  lemma StuckStep(fs: seq<Item>, f: Item)
    ensures Stuck(fs + [f]) == if Removed(f) then Stuck(fs) else Stuck(fs) + [f]
  {
    assert (fs + [f])[..|fs|] == fs;
  }

  function Sum(s: seq<nat>): nat {
    if s == [] then 0 else s[0] + Sum(s[1..])
  }

  lemma {:induction false} SumUpdate(s: seq<nat>, k: nat, v: nat)
    requires k < |s|
    ensures Sum(s[k := v]) == Sum(s) - s[k] + v && s[k] <= Sum(s)
  {
    if 0 < k {
      assert s[k := v][1..] == s[1..][k - 1 := v];
      SumUpdate(s[1..], k - 1, v);
    } else {
      assert s[k := v][1..] == s[1..];
    }
  }

  // The files of a channel that are still on disk.
  function Disk(log: seq<Try>, left: seq<seq<Item>>, k: nat): seq<Item>
    requires k < |left|
  {
    Stuck(Of(log, k)) + left[k]
  }

  function Sizes(log: seq<Try>, left: seq<seq<Item>>): (r: seq<nat>)
    ensures |r| == |left|
  {
    seq(|left|, k requires 0 <= k < |left| => Bytes(Disk(log, left, k)))
  }

  function Counts(log: seq<Try>, left: seq<seq<Item>>): (r: seq<nat>)
    ensures |r| == |left|
  {
    seq(|left|, k requires 0 <= k < |left| => |Disk(log, left, k)|)
  }

  predicate Sorted(fs: seq<Item>) {
    forall i, j :: 0 <= i < j < |fs| ==> Before(fs[i], fs[j])
  }

  predicate Before(a: Item, b: Item) {
    a.File? && b.File? && Leq(a.name, b.name)
  }

  predicate FirstOf(f: Item, left: seq<seq<Item>>) {
    forall k, x :: 0 <= k < |left| && x in left[k] ==> Before(f, x)
  }

  // The files tried and the files left make up the channels, and the names of
  // those tried are in order and before the names of those left.
  predicate Merged(lists: seq<seq<Item>>, log: seq<Try>, left: seq<seq<Item>>) {
    && |left| == |lists| && (forall k :: 0 <= k < |lists| ==> lists[k] == Of(log, k) + left[k])
    && (forall i, j :: 0 <= i < j < |log| ==> Before(log[i].f, log[j].f))
    && (forall i :: 0 <= i < |log| ==> log[i].k < |lists| && FirstOf(log[i].f, left))
  }

  // Before all others: the first of channel `k`.
  predicate Oldest(left: seq<seq<Item>>, k: nat) {
    k < |left| && left[k] != [] && IsData(left[k][0])
    && forall j :: 0 <= j < |left| && left[j] != [] ==> Before(left[k][0], left[j][0])
  }

  // `first` is the time of the oldest file left.
  ghost predicate OldestTime(left: seq<seq<Item>>, first: nat, iso: string -> nat) {
    exists k: nat :: Oldest(left, k) && first == iso(Stamp(left[k][0]))
  }

  lemma OldestIsFirst(left: seq<seq<Item>>, k: nat)
    requires Oldest(left, k) && forall j :: 0 <= j < |left| ==> Sorted(left[j])
    ensures FirstOf(left[k][0], left)
  {
    forall j, x | 0 <= j < |left| && x in left[j]
      ensures Before(left[k][0], x)
    {
      var i :| 0 <= i < |left[j]| && left[j][i] == x;
      if 0 < i {
        assert Before(left[j][0], left[j][i]);
        LeqTransitive(left[k][0].name, left[j][0].name, x.name);
      }
    }
  }

  function Without(left: seq<seq<Item>>, k: nat): (r: seq<seq<Item>>)
    requires k < |left| && left[k] != []
    ensures |r| == |left|
  {
    left[k := left[k][1..]]
  }

  // One more file is tried.
  lemma MergeStep(lists: seq<seq<Item>>, log: seq<Try>, left: seq<seq<Item>>, k: nat)
    requires Merged(lists, log, left) && Oldest(left, k) && forall j :: 0 <= j < |left| ==> Sorted(left[j])
    ensures Merged(lists, log + [Try(k, left[k][0])], Without(left, k))
    ensures forall j :: 0 <= j < |left| ==> Sorted(Without(left, k)[j])
  {
    hide Before, Sorted, FirstOf, Of, Without;
    var t, left' := Try(k, left[k][0]), Without(left, k);
    ListsStep(lists, log, left, k);
    OldestIsFirst(left, k);
    NoneNew(left, k);
    OrderStep(log, t, left, left');
  }

  // The lists are made up of the same files, and nothing comes into the rest.
  lemma ListsStep(lists: seq<seq<Item>>, log: seq<Try>, left: seq<seq<Item>>, k: nat)
    requires |left| == |lists| && (forall j :: 0 <= j < |lists| ==> lists[j] == Of(log, j) + left[j])
    requires k < |left| && left[k] != []
    ensures forall j :: 0 <= j < |lists| ==> lists[j] == Of(log + [Try(k, left[k][0])], j) + Without(left, k)[j]
  {
    hide Of;
    LogStep(log, Try(k, left[k][0]));
    assert left[k] == [left[k][0]] + left[k][1..];
  }

  lemma NoneNew(left: seq<seq<Item>>, k: nat)
    requires k < |left| && left[k] != [] && forall j :: 0 <= j < |left| ==> Sorted(left[j])
    ensures forall j, x :: 0 <= j < |left| && x in Without(left, k)[j] ==> x in left[j]
    ensures forall j :: 0 <= j < |left| ==> Sorted(Without(left, k)[j])
  {
    hide Sorted;
    SortedTail(left[k]);
  }

  // The file comes behind those tried, and before those left.
  lemma OrderStep(log: seq<Try>, t: Try, left: seq<seq<Item>>, left': seq<seq<Item>>)
    requires |left| == |left'| && t.k < |left| && t.f in left[t.k] && FirstOf(t.f, left)
    requires forall i, j :: 0 <= i < j < |log| ==> Before(log[i].f, log[j].f)
    requires forall i :: 0 <= i < |log| ==> log[i].k < |left| && FirstOf(log[i].f, left)
    requires forall j, x :: 0 <= j < |left| && x in left'[j] ==> x in left[j]
    ensures var log' := log + [t];
      && (forall i, j :: 0 <= i < j < |log'| ==> Before(log'[i].f, log'[j].f))
      && (forall i :: 0 <= i < |log'| ==> log'[i].k < |left'| && FirstOf(log'[i].f, left'))
  {
    hide Before;
    var log' := log + [t];
    forall i | 0 <= i < |log'|
      ensures log'[i].k < |left'| && FirstOf(log'[i].f, left')
    {
      assert FirstOf(log'[i].f, left);
    }
    forall i, j | 0 <= i < j < |log'|
      ensures Before(log'[i].f, log'[j].f)
    {
      if j == |log| {
        assert FirstOf(log[i].f, left);
      }
    }
  }

  lemma SortedTail(fs: seq<Item>)
    requires Sorted(fs) && fs != []
    ensures Sorted(fs[1..])
  {
  }

  // What trying a file does to what is on disk.
  lemma DiskStep(log: seq<Try>, left: seq<seq<Item>>, k: nat)
    requires k < |left| && left[k] != [] && left[k][0].File?
    ensures var f, log', left' := left[k][0], log + [Try(k, left[k][0])], Without(left, k);
      && Bytes(Disk(log, left, k)) == Bytes(Disk(log', left', k)) + (if Removed(f) then 512 * f.blocks else 0)
      && |Disk(log, left, k)| == |Disk(log', left', k)| + (if Removed(f) then 1 else 0)
      && 512 * f.blocks <= Bytes(Disk(log, left, k)) && 1 <= |Disk(log, left, k)|
      && forall j :: 0 <= j < |left| && j != k ==> Disk(log', left', j) == Disk(log, left, j)
  {
    hide Of, Stuck;
    var f, log', left' := left[k][0], log + [Try(k, left[k][0])], Without(left, k);
    LogStep(log, Try(k, f));
    StuckStep(Of(log, k), f);
    BytesConcat(Stuck(Of(log, k)), left[k]);
    if Removed(f) {
      BytesConcat(Stuck(Of(log, k)), left'[k]);
    } else {
      assert left[k] == [f] + left'[k];
      assert Disk(log', left', k) == Disk(log, left, k);
    }
  }

  lemma AccountStep(log: seq<Try>, left: seq<seq<Item>>, k: nat)
    requires k < |left| && left[k] != [] && left[k][0].File?
    ensures var log', left' := log + [Try(k, left[k][0])], Without(left, k);
      && Sizes(log', left') == Sizes(log, left)[k := Bytes(Disk(log', left', k))]
      && Counts(log', left') == Counts(log, left)[k := |Disk(log', left', k)|]
  {
    hide Disk;
    DiskStep(log, left, k);
  }

  // The totals follow.
  lemma TotalStep(log: seq<Try>, left: seq<seq<Item>>, k: nat)
    requires k < |left| && left[k] != [] && left[k][0].File?
    ensures var f, log', left' := left[k][0], log + [Try(k, left[k][0])], Without(left, k);
      && Sum(Sizes(log', left')) == Sum(Sizes(log, left)) - (if Removed(f) then 512 * f.blocks else 0)
      && Sum(Counts(log', left')) == Sum(Counts(log, left)) - (if Removed(f) then 1 else 0)
      && Sizes(log, left)[k] <= Sum(Sizes(log, left)) && Counts(log, left)[k] <= Sum(Counts(log, left))
  {
    hide Sizes, Counts, Sum, Disk, Bytes;
    var f, log', left' := left[k][0], log + [Try(k, left[k][0])], Without(left, k);
    DiskStep(log, left, k);
    AccountStep(log, left, k);
    SizesAt(log, left, k);
    SumUpdate(Sizes(log, left), k, Bytes(Disk(log', left', k)));
    SumUpdate(Counts(log, left), k, |Disk(log', left', k)|);
  }

  lemma SizesAt(log: seq<Try>, left: seq<seq<Item>>, k: nat)
    requires k < |left|
    ensures Sizes(log, left)[k] == Bytes(Disk(log, left, k)) && Counts(log, left)[k] == |Disk(log, left, k)|
  {
  }

  function Total(left: seq<seq<Item>>): nat {
    if left == [] then 0 else |left[0]| + Total(left[1..])
  }

  lemma {:induction false} TotalDrops(left: seq<seq<Item>>, k: nat)
    requires k < |left| && left[k] != []
    ensures Total(Without(left, k)) == Total(left) - 1
  {
    if 0 < k {
      assert Without(left, k)[1..] == Without(left[1..], k - 1);
      TotalDrops(left[1..], k - 1);
    } else {
      assert Without(left, k)[1..] == left[1..];
    }
  }

  // What stands behind the prefix of a name: the time.
  function Stamp(f: Item): string {
    if f.File? && 7 <= |f.name| then f.name[7..] else ""
  }

  // What data files are called: the prefix, and a time of 12 or 14 characters.
  lemma DataNames(f: Item)
    ensures IsData(f) <==> f.File? && exists t :: (|t| == 12 || |t| == 14) && f.name == "nfcapd." + t
    ensures IsData(f) ==> "nfcapd." + Stamp(f) == f.name
  {
    if IsData(f) {
      assert f.name == f.name[..7] + f.name[7..];
    } else if f.File? {
      forall t: string | |t| == 12 || |t| == 14
        ensures f.name != "nfcapd." + t
      {
        assert ("nfcapd." + t)[..7] == PREFIX;
      }
    }
  }

  // Those that expire takes on by their names alone have digits there.
  lemma {:induction false} DatedNames(walk: seq<Item>)
    ensures forall f :: f in Dated(walk) <==>
      f in walk && IsData(f) && forall c :: c in f.name[7..] ==> c in "0123456789"
  {
    if walk != [] {
      DatedNames(walk[1..]);
      assert forall f :: f in walk <==> f == walk[0] || f in walk[1..];
      if IsData(walk[0]) {
        DigitsMean(Stamp(walk[0]));
      }
    }
  }

  lemma DigitsMean(s: string)
    ensures Digits(s) <==> forall c :: c in s ==> c in "0123456789"
  {
    if Digits(s) {
      forall c | c in s
        ensures c in "0123456789"
      {
        var i :| 0 <= i < |s| && s[i] == c;
        DigitOf(c);
      }
    } else {
      var i :| 0 <= i < |s| && !('0' <= s[i] <= '9');
      assert s[i] in s;
    }
  }

  lemma DigitOf(c: char)
    requires '0' <= c <= '9'
    ensures c in "0123456789"
  {
    assert "0123456789"[c as int - 48] == c;
  }

  // The time of a file is below the limit exactly if its name is below that of
  // a file of that time.
  lemma AgeByName(f: Item, limit: string)
    requires IsData(f)
    ensures f.File? && (Leq(limit, Stamp(f)) <==> AtMost("nfcapd." + limit, f.name))
  {
    hide Leq, AtMost;
    DataNames(f);
    SamePrefix("nfcapd.", limit, Stamp(f));
    LeqMeans("nfcapd." + limit, f.name);
  }

  lemma {:induction false} InOf(log: seq<Try>, i: nat)
    requires i < |log|
    ensures log[i].f in Of(log, log[i].k)
  {
    if i < |log| - 1 {
      InOf(log[..|log| - 1], i);
    }
  }

  // Those tried for their age have names below the limit, and when that is
  // reached none of those left has.
  lemma AgesByName(lists: seq<seq<Item>>, g: Goal, log: seq<Try>, left: seq<seq<Item>>, n: nat)
    requires Merged(lists, log, left) && ForAge(g, log, n)
    requires forall k, x :: 0 <= k < |lists| && x in lists[k] ==> IsData(x)
    ensures TriedAreOld(g, log, n)
    ensures AgeReached(g, left) && !g.lifedone ==> LeftAreYoung(g, left)
  {
    hide Leq, AtMost, Of, FirstOf, Before;
    forall i | n <= i < |log|
      ensures log[i].f.File? && !AtMost("nfcapd." + g.limit, log[i].f.name)
    {
      InOf(log, i);
      assert log[i].f in lists[log[i].k];
      AgeByName(log[i].f, g.limit);
    }
    if AgeReached(g, left) && !g.lifedone {
      forall j, x | 0 <= j < |left| && x in left[j]
        ensures x.File? && AtMost("nfcapd." + g.limit, x.name)
      {
        assert x in lists[j];
        AgeByName(x, g.limit);
      }
    }
  }

  ghost predicate TriedAreOld(g: Goal, log: seq<Try>, n: nat) {
    forall i :: n <= i < |log| ==> log[i].f.File? && !AtMost("nfcapd." + g.limit, log[i].f.name)
  }

  ghost predicate LeftAreYoung(g: Goal, left: seq<seq<Item>>) {
    forall j, x :: 0 <= j < |left| && x in left[j] ==> x.File? && AtMost("nfcapd." + g.limit, x.name)
  }

  lemma {:induction false} SamePrefix(p: string, a: string, b: string)
    ensures Leq(p + a, p + b) == Leq(a, b)
  {
    if p == "" {
      assert p + a == a && p + b == b;
    } else {
      assert (p + a)[1..] == p[1..] + a && (p + b)[1..] == p[1..] + b;
      SamePrefix(p[1..], a, b);
    }
  }

  // When the oldest file is young enough, so are all.
  lemma AllYoung(left: seq<seq<Item>>, k: nat, limit: string)
    requires Oldest(left, k) && (forall j :: 0 <= j < |left| ==> Sorted(left[j])) && Leq(limit, Stamp(left[k][0]))
    requires forall j, x :: 0 <= j < |left| && x in left[j] ==> IsData(x)
    ensures forall j, x :: 0 <= j < |left| && x in left[j] ==> Leq(limit, Stamp(x))
  {
    hide Leq;
    var f := left[k][0];
    OldestIsFirst(left, k);
    forall j, x | 0 <= j < |left| && x in left[j]
      ensures Leq(limit, Stamp(x))
    {
      assert IsData(f) && IsData(x) && Before(f, x);
      assert f.name == PREFIX + Stamp(f) && x.name == PREFIX + Stamp(x);
      SamePrefix(PREFIX, Stamp(f), Stamp(x));
      LeqTransitive(limit, Stamp(f), Stamp(x));
    }
  }

  const TWO64: nat := 0x1_0000_0000_0000_0000

  // Subtraction of 64-bit numbers.
  function Minus(a: nat, b: nat): nat {
    (a - b) % TWO64
  }

  lemma MinusOnce(a: nat, b: nat)
    requires b <= a < TWO64
    ensures Minus(a, b) == a - b
  {
  }

  lemma MinusTwice(a: nat, b: nat, c: nat)
    ensures Minus(Minus(a, b), c) == Minus(a, b + c)
  {
  }

  // What an expire run is after: a size, an age, and which of them holds from the start.
  datatype Goal = Goal(total: nat, sizelimit: nat, limit: string, sizedone: bool, lifedone: bool)

  datatype End = Limits | Empty | Interrupted

  // The first `n` files were tried for size: there was too much before each of them.
  predicate ForSize(g: Goal, log: seq<Try>, n: nat) {
    && n <= |log| && (g.sizedone ==> n == 0)
    && forall i {:trigger log[..i]} :: 0 <= i < n ==> Minus(g.total, Freed(log[..i])) > g.sizelimit
  }

  // The others were tried for their age: all are too old.
  predicate ForAge(g: Goal, log: seq<Try>, n: nat) {
    forall i :: n <= i < |log| ==> !g.lifedone && !Leq(g.limit, Stamp(log[i].f))
  }

  predicate SizeReached(g: Goal, log: seq<Try>, n: nat) {
    g.sizedone || (n <= |log| && Minus(g.total, Freed(log[..n])) <= g.sizelimit)
  }

  predicate AgeReached(g: Goal, left: seq<seq<Item>>) {
    g.lifedone || forall j, x :: 0 <= j < |left| && x in left[j] ==> Leq(g.limit, Stamp(x))
  }

  lemma TriedForSize(g: Goal, log: seq<Try>, t: Try)
    requires ForSize(g, log, |log|) && !g.sizedone && Minus(g.total, Freed(log)) > g.sizelimit
    ensures ForSize(g, log + [t], |log| + 1) && ForAge(g, log + [t], |log| + 1)
  {
    var log' := log + [t];
    forall i {:trigger log'[..i]} | 0 <= i < |log'|
      ensures Minus(g.total, Freed(log'[..i])) > g.sizelimit
    {
      assert log'[..i] == log[..i];
      assert i == |log| ==> log[..i] == log;
    }
  }

  lemma TriedForAge(g: Goal, log: seq<Try>, n: nat, t: Try)
    requires ForSize(g, log, n) && ForAge(g, log, n) && SizeReached(g, log, n) && !g.lifedone
      && !Leq(g.limit, Stamp(t.f))
    ensures ForSize(g, log + [t], n) && ForAge(g, log + [t], n) && SizeReached(g, log + [t], n)
  {
    hide Leq;
    var log' := log + [t];
    assert log'[..n] == log[..n];
    forall i {:trigger log'[..i]} | 0 <= i < n
      ensures Minus(g.total, Freed(log'[..i])) > g.sizelimit
    {
      assert log'[..i] == log[..i];
    }
  }

  lemma {:induction false} SumLess(a: seq<nat>, b: seq<nat>)
    requires |a| == |b| && forall k :: 0 <= k < |a| ==> a[k] <= b[k]
    ensures Sum(a) <= Sum(b) && (Sum(a) == Sum(b) <==> a == b)
  {
    if a != [] {
      SumLess(a[1..], b[1..]);
      assert a == [a[0]] + a[1..] && b == [b[0]] + b[1..];
    }
  }

  // A run over one list that has reached its end.
  ghost predicate Complete(g: Goal, fs: seq<Item>, log: seq<Try>, left: seq<Item>, n: nat) {
    && Merged([fs], log, [left]) && ForSize(g, log, n) && ForAge(g, log, n)
    && ((SizeReached(g, log, n) && AgeReached(g, [left])) || left == [])
  }

  lemma {:induction false} OfOne(log: seq<Try>, fs: seq<Item>)
    requires (forall i :: 0 <= i < |log| ==> log[i].k == 0) && Of(log, 0) == fs
    ensures |log| == |fs| && forall i :: 0 <= i < |log| ==> log[i] == Try(0, fs[i])
  {
    if log != [] {
      OfOne(log[..|log| - 1], fs[..|fs| - 1]);
    }
  }

  lemma OfComplete(g: Goal, fs: seq<Item>, log: seq<Try>, left: seq<Item>, n: nat)
    requires Complete(g, fs, log, left, n)
    ensures |log| + |left| == |fs| && left == fs[|log|..] && forall i :: 0 <= i < |log| ==> log[i] == Try(0, fs[i])
  {
    assert [fs][0] == Of(log, 0) + [left][0];
    OfOne(log, Of(log, 0));
  }

  lemma Prefixes(fs: seq<Item>, log1: seq<Try>, left1: seq<Item>, log2: seq<Try>, n: nat)
    requires n <= |log1| < |log2| && |log1| + |left1| == |fs| && left1 == fs[|log1|..] && |log2| <= |fs|
    requires forall i :: 0 <= i < |log1| ==> log1[i] == Try(0, fs[i])
    requires forall i :: 0 <= i < |log2| ==> log2[i] == Try(0, fs[i])
    ensures log2[..n] == log1[..n] && left1 != [] && log2[|log1|].f == left1[0]
  {
  }

  lemma FirstIsYoung(g: Goal, left: seq<Item>)
    requires left != [] && AgeReached(g, [left])
    ensures g.lifedone || Leq(g.limit, Stamp(left[0]))
  {
    assert left[0] in [left][0];
  }

  // What is tried is determined by the goal and the list.
  lemma NotShorter(g: Goal, fs: seq<Item>, log1: seq<Try>, left1: seq<Item>, n1: nat, log2: seq<Try>, left2: seq<Item>,
      n2: nat)
    requires Complete(g, fs, log1, left1, n1) && Complete(g, fs, log2, left2, n2)
    ensures |log2| <= |log1|
  {
    OfComplete(g, fs, log1, left1, n1);
    OfComplete(g, fs, log2, left2, n2);
    if |log1| < |log2| {
      hide Leq, Freed, Merged, Minus;
      Prefixes(fs, log1, left1, log2, n1);
      FirstIsYoung(g, left1);
    }
  }

  lemma OneOutcome(g: Goal, fs: seq<Item>, log1: seq<Try>, left1: seq<Item>, n1: nat, log2: seq<Try>, left2: seq<Item>,
      n2: nat)
    requires Complete(g, fs, log1, left1, n1) && Complete(g, fs, log2, left2, n2)
    ensures log1 == log2 && left1 == left2
  {
    hide Complete;
    OfComplete(g, fs, log1, left1, n1);
    OfComplete(g, fs, log2, left2, n2);
    NotShorter(g, fs, log1, left1, n1, log2, left2, n2);
    NotShorter(g, fs, log2, left2, n2, log1, left1, n1);
  }

  // Files of which `tried` were removed.
  function Unlinked(log: seq<Try>): (r: nat)
    ensures r <= |log|
  {
    if log == [] then 0 else Unlinked(log[..|log| - 1]) + if Removed(log[|log| - 1].f) then 1 else 0
  }

  lemma BytesOfOne(f: Item)
    requires f.File?
    ensures Bytes([f]) == 512 * f.blocks
  {
    assert [f][1..] == [];
  }

  // What is not freed of the files tried is still there.
  lemma {:induction false} FreedOfList(fs: seq<Item>, log: seq<Try>)
    requires |log| == |fs| && forall i :: 0 <= i < |fs| ==> log[i] == Try(0, fs[i]) && fs[i].File?
    ensures Freed(log) + Bytes(Stuck(fs)) == Bytes(fs) && Unlinked(log) + |Stuck(fs)| == |fs|
  {
    if fs != [] {
      var n := |fs| - 1;
      hide Bytes;
      FreedOfList(fs[..n], log[..n]);
      assert fs == fs[..n] + [fs[n]];
      BytesConcat(fs[..n], [fs[n]]);
      BytesConcat(Stuck(fs[..n]), [fs[n]]);
      BytesOfOne(fs[n]);
      StuckStep(fs[..n], fs[n]);
    }
  }

  lemma {:induction false} NoneFreed(log: seq<Try>)
    requires forall t :: t in log ==> !Removed(t.f)
    ensures Freed(log) == 0
  {
    if log != [] {
      assert log[|log| - 1] in log;
      NoneFreed(log[..|log| - 1]);
    }
  }

  // The only file cannot be removed: however much of it is tried, nothing is freed.
  lemma OneStuck(f: Item, log: seq<Try>, left: seq<seq<Item>>, n: nat)
    requires Merged([[f]], log, left) && f.File? && !f.removable && n <= |log|
    ensures Freed(log[..n]) == 0 && |left| == 1 && (left[0] == [] ==> Stuck(Of(log, 0)) == [f])
  {
    assert [[f]][0] == Of(log, 0) + left[0];
    OfOne(log, Of(log, 0));
    forall t | t in log[..n]
      ensures !Removed(t.f)
    {
      assert t in log;
    }
    NoneFreed(log[..n]);
    if left[0] == [] {
      assert Of(log, 0) == [f];
      StuckStep([], f);
      assert [] + [f] == [f];
    }
  }
}
