/**
 Expiring the files of a profile, as ExpireProfile does: size-wise down to the
 low water mark, then time-wise.
 */
module Expire {
  import opened FtsSpec
  import opened ExpireSpec

  // dirstat_t.
  class DirStat {
    var first: nat
    var last: nat
    var numfiles: nat
    var filesize: nat
    var low_water: nat
    var rebuild: bool
  }

  // channel_t; the walk is what fts_read is still to return, its current entry first.
  class Channel {
    var walk: seq<Item>
    const dirstat: DirStat

    constructor (walk: seq<Item>, dirstat: DirStat)
      ensures this.walk == walk && this.dirstat == dirstat
    {
      this.walk, this.dirstat := walk, dirstat;
    }

    // The walk stands at a data file or at its end.
    predicate Ready()
      reads this`walk
    {
      walk == [] || IsData(walk[0])
    }
  }

  ghost function Books(chs: seq<Channel>): set<DirStat> {
    set c | c in chs :: c.dirstat
  }

  // The state of one channel: the files that are left, and its books.
  ghost predicate Booked(c: Channel, files: seq<Item>, disk: seq<Item>)
    reads c`walk, c.dirstat`filesize, c.dirstat`numfiles
  {
    && c.Ready() && Data(c.walk) == files
    && c.dirstat.filesize == Bytes(disk) < TWO64 && c.dirstat.numfiles == (if files == [] then 0 else |disk|) < TWO64
  }

  ghost predicate Coupled(chs: seq<Channel>, log: seq<Try>, left: seq<seq<Item>>)
    reads chs`walk, Books(chs)`filesize, Books(chs)`numfiles
  {
    |chs| == |left| && forall k {:trigger chs[k]} :: 0 <= k < |chs| ==> Booked(chs[k], left[k], Disk(log, left, k))
  }

  ghost predicate Separate(chs: seq<Channel>, stat: DirStat) {
    && (forall j, k :: 0 <= j < k < |chs| ==> chs[j] != chs[k] && chs[j].dirstat != chs[k].dirstat)
    && forall k :: 0 <= k < |chs| ==> chs[k].dirstat != stat
  }

  // The search for the channel with the oldest file; the last one of several.
  method Pick(chs: seq<Channel>, ghost left: seq<seq<Item>>) returns (e: nat)
    requires chs != [] && |chs| == |left|
    requires forall k {:trigger chs[k]} :: 0 <= k < |chs| ==> chs[k].Ready() && Data(chs[k].walk) == left[k]
    ensures e < |chs|
    ensures left[e] == [] ==> forall j :: 0 <= j < |left| ==> left[j] == []
    ensures left[e] != [] ==> Oldest(left, e) && forall j :: e < j < |left| && left[j] != [] ==>
      !Leq(left[j][0].name, left[e][0].name)
  {
    Heads(chs, left);
    e := 0;
    var c := 1;
    while c < |chs|
      invariant e < c <= |chs|
      invariant left[e] == [] ==> forall j :: 0 <= j < c ==> left[j] == []
      invariant left[e] != [] ==> forall j :: 0 <= j < c && left[j] != [] ==> Before(left[e][0], left[j][0])
      invariant left[e] != [] ==> forall j :: e < j < c && left[j] != [] ==> !Leq(left[j][0].name, left[e][0].name)
    {
      hide Leq;
      if chs[e].walk == [] {
        e := c;
      }
      if chs[c].walk == [] {
        c := c + 1;
        continue;
      }
      LeqTotal(chs[e].walk[0].name, chs[c].walk[0].name);
      if Leq(chs[c].walk[0].name, chs[e].walk[0].name) {
        Lower(left, c, e);
        e := c;
      }
      c := c + 1;
    }
    assert left[e] != [] ==> IsData(left[e][0]);
  }

  lemma Heads(chs: seq<Channel>, left: seq<seq<Item>>)
    requires |chs| == |left|
    requires forall k {:trigger chs[k]} :: 0 <= k < |chs| ==> chs[k].Ready() && Data(chs[k].walk) == left[k]
    ensures forall j :: 0 <= j < |left| && left[j] != [] ==>
      IsData(left[j][0]) && left[j][0].File? && Before(left[j][0], left[j][0])
  {
    forall j | 0 <= j < |left| && left[j] != []
      ensures IsData(left[j][0]) && left[j][0].File? && Before(left[j][0], left[j][0])
    {
      assert chs[j].Ready() && left[j][0] == chs[j].walk[0];
      LeqTotal(left[j][0].name, left[j][0].name);
    }
  }

  lemma Lower(left: seq<seq<Item>>, c: nat, e: nat)
    requires c < |left| && e < |left| && left[e] != [] && left[c] != [] && Before(left[c][0], left[e][0])
    ensures forall j :: 0 <= j < |left| && left[j] != [] && Before(left[e][0], left[j][0]) ==>
      Before(left[c][0], left[j][0])
  {
    forall j | 0 <= j < |left| && left[j] != [] && Before(left[e][0], left[j][0])
      ensures Before(left[c][0], left[j][0])
    {
      LeqTransitive(left[c][0].name, left[e][0].name, left[j][0].name);
    }
  }

  // The current file is removed, if it can be.
  method Unlink(c: Channel, stat: DirStat)
    requires c.walk != [] && IsData(c.walk[0]) && c.dirstat != stat
    requires 512 * c.walk[0].blocks <= c.dirstat.filesize < TWO64 && 1 <= c.dirstat.numfiles < TWO64
    requires 512 * c.walk[0].blocks <= stat.filesize < TWO64 && 1 <= stat.numfiles < TWO64
    modifies c.dirstat`filesize, c.dirstat`numfiles, stat`filesize, stat`numfiles
    ensures var f := c.walk[0];
      && c.dirstat.filesize == old(c.dirstat.filesize) - (if Removed(f) then 512 * f.blocks else 0)
      && stat.filesize == old(stat.filesize) - (if Removed(f) then 512 * f.blocks else 0)
      && c.dirstat.numfiles == old(c.dirstat.numfiles) - (if Removed(f) then 1 else 0)
      && stat.numfiles == old(stat.numfiles) - (if Removed(f) then 1 else 0)
  {
    var f := c.walk[0];
    if f.removable {
      stat.filesize := Minus(stat.filesize, 512 * f.blocks);
      stat.numfiles := Minus(stat.numfiles, 1);
      c.dirstat.filesize := Minus(c.dirstat.filesize, 512 * f.blocks);
      c.dirstat.numfiles := Minus(c.dirstat.numfiles, 1);
    }
  }

  // fts_read until there is a data file.
  method SkipToData(c: Channel)
    modifies c`walk
    ensures c.Ready() && Data(c.walk) == Data(old(c.walk))
  {
    while c.walk != [] && !IsData(c.walk[0])
      invariant Data(c.walk) == Data(old(c.walk))
    {
      c.walk := c.walk[1..];
    }
  }

  // The books of a channel of which a file was tried: the time of its next
  // file, or for a channel without further files, a call for a rebuild.
  ghost predicate Marked(c: Channel, tried: bool, iso: string -> nat)
    reads c`walk, c.dirstat`first, c.dirstat`last, c.dirstat`rebuild
  {
    tried ==> if c.walk == [] then c.dirstat.rebuild && c.dirstat.first == c.dirstat.last
      else c.dirstat.first == iso(Stamp(c.walk[0]))
  }

  ghost predicate AllMarked(chs: seq<Channel>, log: seq<Try>, iso: string -> nat)
    reads chs`walk, Books(chs)`first, Books(chs)`last, Books(chs)`rebuild
  {
    forall k {:trigger chs[k]} :: 0 <= k < |chs| ==> Marked(chs[k], Of(log, k) != [], iso)
  }

  // On to the next data file, whose time becomes the first of channel and profile.
  method Advance(c: Channel, stat: DirStat, iso: string -> nat)
    requires c.walk != [] && c.dirstat != stat
    modifies c`walk, c.dirstat`first, stat`first
    ensures c.Ready() && Data(c.walk) == Data(old(c.walk)[1..])
    ensures c.walk != [] ==> stat.first == c.dirstat.first == iso(Stamp(c.walk[0]))
    ensures c.walk == [] ==> stat.first == old(stat.first) && c.dirstat.first == old(c.dirstat.first)
  {
    c.walk := c.walk[1..];
    SkipToData(c);
    if c.walk != [] {
      stat.first := iso(Stamp(c.walk[0]));
      c.dirstat.first := iso(Stamp(c.walk[0]));
    }
  }

  // A channel without further files.
  method Exhaust(c: Channel)
    modifies c.dirstat`first, c.dirstat`numfiles, c.dirstat`rebuild
    ensures c.dirstat.numfiles == if c.walk == [] then 0 else old(c.dirstat.numfiles)
    ensures c.dirstat.rebuild == (old(c.dirstat.rebuild) || c.walk == [])
    ensures c.dirstat.first == if c.walk == [] then c.dirstat.last else old(c.dirstat.first)
  {
    if c.walk == [] {
      c.dirstat.first := c.dirstat.last;
      c.dirstat.numfiles := 0;
      c.dirstat.rebuild := true;
    }
  }

  // The first data file of every channel.
  method PrepareDirLists(chs: seq<Channel>)
    requires forall i, j :: 0 <= i < j < |chs| ==> chs[i] != chs[j]
    modifies chs`walk
    ensures forall k {:trigger chs[k]} :: 0 <= k < |chs| ==>
      chs[k].Ready() && Data(chs[k].walk) == Data(old(chs[k].walk))
  {
    for i := 0 to |chs|
      invariant forall k {:trigger chs[k]} :: 0 <= k < i ==>
        chs[k].Ready() && Data(chs[k].walk) == Data(old(chs[k].walk))
      invariant forall k {:trigger chs[k]} :: i <= k < |chs| ==> chs[k].walk == old(chs[k].walk)
    {
      SkipToData(chs[i]);
    }
  }

  lemma OfBooked(c: Channel, files: seq<Item>, disk: seq<Item>)
    requires Booked(c, files, disk) && files != []
    ensures c.walk != [] && IsData(c.walk[0]) && c.walk[0] == files[0] && files[0].File?
      && Data(c.walk[1..]) == files[1..]
    ensures c.dirstat.filesize == Bytes(disk) < TWO64 && c.dirstat.numfiles == |disk| < TWO64
  {
  }

  lemma IsBooked(c: Channel, files: seq<Item>, disk: seq<Item>)
    requires c.Ready() && Data(c.walk) == files
    requires c.dirstat.filesize == Bytes(disk) < TWO64 && c.dirstat.numfiles == (if c.walk == [] then 0 else |disk|)
      && |disk| < TWO64
    ensures Booked(c, files, disk)
  {
  }

  lemma IsMarked(c: Channel, iso: string -> nat)
    requires if c.walk == [] then c.dirstat.rebuild && c.dirstat.first == c.dirstat.last
      else c.dirstat.first == iso(Stamp(c.walk[0]))
    ensures forall tried :: Marked(c, tried, iso)
  {
  }

  // One file is tried: the current one of a channel.
  method TryFile(c: Channel, stat: DirStat, iso: string -> nat, ghost files: seq<Item>, ghost disk: seq<Item>,
      ghost disk': seq<Item>)
    requires Booked(c, files, disk) && files != [] && c.dirstat != stat
    requires Bytes(disk) <= stat.filesize < TWO64 && |disk| <= stat.numfiles < TWO64
      && 512 * files[0].blocks <= Bytes(disk) && 1 <= |disk|
    requires Bytes(disk) == Bytes(disk') + if Removed(files[0]) then 512 * files[0].blocks else 0
    requires |disk| == |disk'| + if Removed(files[0]) then 1 else 0
    modifies c`walk, c.dirstat`filesize, c.dirstat`numfiles, c.dirstat`first, c.dirstat`rebuild
    modifies stat`filesize, stat`numfiles, stat`first
    ensures Booked(c, files[1..], disk') && Marked(c, true, iso)
    ensures stat.filesize == old(stat.filesize) - (if Removed(files[0]) then 512 * files[0].blocks else 0)
    ensures stat.numfiles == old(stat.numfiles) - (if Removed(files[0]) then 1 else 0)
  {
    hide *;
    OfBooked(c, files, disk);
    Unlink(c, stat);
    Advance(c, stat, iso);
    Exhaust(c);
    IsBooked(c, files[1..], disk');
    IsMarked(c, iso);
  }

  method TryOne(chs: seq<Channel>, e: nat, stat: DirStat, iso: string -> nat, ghost log: seq<Try>,
      ghost left: seq<seq<Item>>)
    requires Separate(chs, stat) && Coupled(chs, log, left) && AllMarked(chs, log, iso) && e < |chs| && left[e] != []
    requires stat.filesize == Sum(Sizes(log, left)) < TWO64 && stat.numfiles == Sum(Counts(log, left)) < TWO64
    modifies chs, Books(chs)`first, Books(chs)`filesize, Books(chs)`numfiles, Books(chs)`rebuild, stat`filesize,
      stat`numfiles, stat`first
    ensures Coupled(chs, log + [Try(e, left[e][0])], Without(left, e))
      && AllMarked(chs, log + [Try(e, left[e][0])], iso)
    ensures stat.filesize == Sum(Sizes(log + [Try(e, left[e][0])], Without(left, e)))
    ensures stat.numfiles == Sum(Counts(log + [Try(e, left[e][0])], Without(left, e)))
  {
    hide Sizes, Counts, Sum, Disk, Bytes, Booked, Without, Of, Marked;
    ghost var log', left' := log + [Try(e, left[e][0])], Without(left, e);
    assert Booked(chs[e], left[e], Disk(log, left, e));
    OfBooked(chs[e], left[e], Disk(log, left, e));
    DiskStep(log, left, e);
    SizesAt(log, left, e);
    TotalStep(log, left, e);
    OthersLeft(left, e);
    LogStep(log, Try(e, left[e][0]));
    TryFile(chs[e], stat, iso, left[e], Disk(log, left, e), Disk(log', left', e));
    forall k {:trigger chs[k]} | 0 <= k < |chs|
      ensures Booked(chs[k], left'[k], Disk(log', left', k)) && Marked(chs[k], Of(log', k) != [], iso)
    {
      assert k != e ==> old(Booked(chs[k], left[k], Disk(log, left, k)));
      assert k != e ==> old(Marked(chs[k], Of(log, k) != [], iso));
    }
  }

  lemma OthersLeft(left: seq<seq<Item>>, e: nat)
    requires e < |left| && left[e] != []
    ensures var left' := Without(left, e);
      |left'| == |left| && left'[e] == left[e][1..] && forall k :: 0 <= k < |left| && k != e ==> left'[k] == left[k]
  {
  }

  // The books of one channel, of the files of its walk.
  ghost predicate Right(c: Channel, files: seq<Item>)
    reads c`walk, c.dirstat`filesize, c.dirstat`numfiles
  {
    && files == Data(c.walk) && Sorted(files)
    && c.dirstat.filesize == Bytes(files) < TWO64 && c.dirstat.numfiles == |files| < TWO64
  }

  // The books are right before the run.
  ghost predicate Accurate(chs: seq<Channel>, stat: DirStat, lists: seq<seq<Item>>)
    reads chs`walk, Books(chs)`filesize, Books(chs)`numfiles, stat`filesize, stat`numfiles
  {
    && |chs| == |lists| && Separate(chs, stat)
    && (forall k {:trigger chs[k]} :: 0 <= k < |chs| ==> Right(chs[k], lists[k]))
    && stat.filesize == Sum(Sizes([], lists)) < TWO64 && stat.numfiles == Sum(Counts([], lists)) < TWO64
  }

  // Everything that holds between two rounds.
  ghost predicate Running(chs: seq<Channel>, stat: DirStat, lists: seq<seq<Item>>, g: Goal, log: seq<Try>,
      left: seq<seq<Item>>, n: nat)
    reads chs`walk, Books(chs)`filesize, Books(chs)`numfiles, stat`filesize, stat`numfiles
  {
    && Separate(chs, stat) && Coupled(chs, log, left) && Merged(lists, log, left)
    && (forall j :: 0 <= j < |left| ==> Sorted(left[j]))
    && stat.filesize == Sum(Sizes(log, left)) < TWO64 && stat.numfiles == Sum(Counts(log, left)) < TWO64
    && stat.filesize + Freed(log) == g.total < TWO64
    && ForSize(g, log, n) && ForAge(g, log, n)
  }

  method Round(chs: seq<Channel>, e: nat, stat: DirStat, iso: string -> nat,
    ghost lists: seq<seq<Item>>, ghost g: Goal, ghost log: seq<Try>, ghost left: seq<seq<Item>>, ghost n: nat,
        ghost n': nat)
    requires Running(chs, stat, lists, g, log, left, n) && AllMarked(chs, log, iso) && e < |chs| && |chs| == |left|
      && Oldest(left, e)
    requires if n' == n + 1 then n == |log| && !g.sizedone && stat.filesize > g.sizelimit
      else n' == n && SizeReached(g, log, n) && !g.lifedone && !Leq(g.limit, Stamp(left[e][0]))
    modifies chs, Books(chs)`first, Books(chs)`filesize, Books(chs)`numfiles, Books(chs)`rebuild, stat`filesize,
      stat`numfiles, stat`first
    ensures Running(chs, stat, lists, g, log + [Try(e, left[e][0])], Without(left, e), n')
      && AllMarked(chs, log + [Try(e, left[e][0])], iso)
    ensures n' == n ==> SizeReached(g, log + [Try(e, left[e][0])], n')
    ensures Total(Without(left, e)) == Total(left) - 1
  {
    hide Sizes, Counts, Sum, Disk, Bytes, Coupled, Sorted, ForSize, ForAge, SizeReached, Leq, Freed, Total, Separate,
      Of, AllMarked, Minus;
    var t := Try(e, left[e][0]);
    MergeStep(lists, log, left, e);
    TotalStep(log, left, e);
    LogStep(log, t);
    TotalDrops(left, e);
    if n' == n {
      TriedForAge(g, log, n, t);
    } else {
      MinusOnce(g.total, Freed(log));
      TriedForSize(g, log, t);
    }
    TryOne(chs, e, stat, iso, log, left);
  }

  // How a run ends.
  ghost predicate Ended(end: End, g: Goal, log: seq<Try>, left: seq<seq<Item>>, n: nat, first: nat,
      iso: string -> nat) {
    match end
    case Limits =>
      && SizeReached(g, log, n) && AgeReached(g, left)
      && ((g.sizedone && g.lifedone) || OldestTime(left, first, iso))
    case Empty =>
      (forall j :: 0 <= j < |left| ==> left[j] == []) && (n == |log| || SizeReached(g, log, n))
    case Interrupted => true
  }

  lemma Begin(chs: seq<Channel>, stat: DirStat, lists: seq<seq<Item>>, g: Goal)
    requires Accurate(chs, stat, lists) && g.total == stat.filesize
    requires forall k {:trigger chs[k]} :: 0 <= k < |chs| ==> chs[k].Ready()
    ensures Running(chs, stat, lists, g, [], lists, 0)
  {
    hide Sizes, Counts, Sum, Bytes, Data, Separate, Sorted;
    forall k | 0 <= k < |lists|
      ensures Disk([], lists, k) == lists[k] && lists[k] == Of([], k) + lists[k] && Sorted(lists[k])
    {
      assert chs[k].Ready() && Right(chs[k], lists[k]);
    }
    forall k | 0 <= k < |lists|
      ensures Booked(chs[k], lists[k], Disk([], lists, k))
    {
      assert chs[k].Ready() && Right(chs[k], lists[k]);
    }
  }

  lemma Datas(chs: seq<Channel>, left: seq<seq<Item>>, log: seq<Try>)
    requires Coupled(chs, log, left)
    ensures |chs| == |left| && forall k {:trigger chs[k]} :: 0 <= k < |chs| ==>
      chs[k].Ready() && Data(chs[k].walk) == left[k]
    ensures forall j, x :: 0 <= j < |left| && x in left[j] ==> IsData(x)
    ensures forall k {:trigger chs[k]} :: 0 <= k < |chs| && left[k] != [] ==>
      chs[k].walk != [] && chs[k].walk[0] == left[k][0]
    ensures forall k {:trigger chs[k]} :: 0 <= k < |chs| && left[k] == [] ==> chs[k].walk == []
  {
    forall k {:trigger chs[k]} | 0 <= k < |chs|
      ensures chs[k].Ready() && Data(chs[k].walk) == left[k]
    {
      assert Booked(chs[k], left[k], Disk(log, left, k));
    }
    forall j, x | 0 <= j < |left| && x in left[j]
      ensures IsData(x)
    {
      assert Data(chs[j].walk) == left[j];
    }
  }

  // The loop of ExpireProfile.
  method Loop(chs: seq<Channel>, stat: DirStat, sizelimit: nat, limit: string, sizedone: bool, lifedone: bool,
    iso: string -> nat, interrupted: nat -> bool, ghost lists: seq<seq<Item>>, ghost total: nat)
    returns (ghost log: seq<Try>, ghost left: seq<seq<Item>>, ghost n: nat, ghost end: End)
    requires chs != [] && Running(chs, stat, lists, Goal(total, sizelimit, limit, sizedone, lifedone), [], lists, 0)
    requires AllMarked(chs, [], iso)
    modifies chs, Books(chs)`first, Books(chs)`filesize, Books(chs)`numfiles, Books(chs)`rebuild, stat`filesize,
      stat`numfiles, stat`first
    ensures Running(chs, stat, lists, Goal(total, sizelimit, limit, sizedone, lifedone), log, left, n)
      && AllMarked(chs, log, iso)
    ensures Ended(end, Goal(total, sizelimit, limit, sizedone, lifedone), log, left, n, stat.first, iso)
    ensures end.Interrupted? ==> exists r :: interrupted(r)
  {
    hide Sizes, Counts, Sum, Disk, Bytes, Sorted, ForSize, ForAge, Leq, Freed, Total, Separate, Of, Merged, Oldest,
      Coupled, AllMarked;
    ghost var g := Goal(total, sizelimit, limit, sizedone, lifedone);
    var size_done, lifetime_done, done, round := sizedone, lifedone, false, 0;
    log, left, n, end := [], lists, 0, Interrupted;
    while !done
      invariant Running(chs, stat, lists, g, log, left, n) && AllMarked(chs, log, iso)
      invariant if size_done then SizeReached(g, log, n) else n == |log| && !sizedone
      invariant (sizedone ==> size_done) && (lifedone ==> lifetime_done)
      invariant lifetime_done ==> lifedone || (size_done && AgeReached(g, left))
      invariant size_done && lifetime_done && !(sizedone && lifedone) ==> OldestTime(left, stat.first, iso)
      invariant done ==> Ended(end, g, log, left, n, stat.first, iso) && (end.Interrupted? ==>
        exists r :: interrupted(r))
      decreases !done, Total(left), !size_done, !lifetime_done
    {
      Datas(chs, left, log);
      var e := Pick(chs, left);
      if chs[e].walk == [] {
        done := true;
        end := Empty;
        continue;
      }
      var p := Stamp(chs[e].walk[0]);
      if !size_done {
        if stat.filesize > sizelimit {
          Round(chs, e, stat, iso, lists, g, log, left, n, n + 1);
          log, left, n := log + [Try(e, left[e][0])], Without(left, e), n + 1;
        } else {
          SetFirst(chs, e, stat, iso, log);
          MinusOnce(total, Freed(log));
          Reached(g, log, stat.filesize);
          size_done := true;
        }
      } else if !lifetime_done {
        if !Leq(limit, p) {
          Round(chs, e, stat, iso, lists, g, log, left, n, n);
          log, left := log + [Try(e, left[e][0])], Without(left, e);
        } else {
          SetFirst(chs, e, stat, iso, log);
          AllYoung(left, e, limit);
          lifetime_done := true;
        }
      } else {
        done := true;
        end := Limits;
      }
      if interrupted(round) {
        end := if done then end else Interrupted;
        done := true;
      }
      round := round + 1;
    }
  }

  // The time of the file at hand becomes the first of its channel and of the profile.
  method SetFirst(chs: seq<Channel>, e: nat, stat: DirStat, iso: string -> nat, ghost log: seq<Try>)
    requires Separate(chs, stat) && AllMarked(chs, log, iso) && e < |chs| && chs[e].walk != []
    modifies chs[e].dirstat`first, stat`first
    ensures stat.first == chs[e].dirstat.first == iso(Stamp(chs[e].walk[0]))
    ensures AllMarked(chs, log, iso)
  {
    hide Of, Stamp;
    stat.first := iso(Stamp(chs[e].walk[0]));
    chs[e].dirstat.first := iso(Stamp(chs[e].walk[0]));
    forall k {:trigger chs[k]} | 0 <= k < |chs|
      ensures Marked(chs[k], Of(log, k) != [], iso)
    {
      assert old(Marked(chs[k], Of(log, k) != [], iso));
    }
  }

  lemma Reached(g: Goal, log: seq<Try>, filesize: nat)
    requires filesize == Minus(g.total, Freed(log)) && filesize <= g.sizelimit
    ensures SizeReached(g, log, |log|)
  {
    assert log[..|log|] == log;
  }

  // ExpireProfile; `limit` is the calendar form of the age limit, and
  // `interrupted` whether the alarm has been raised by the end of a round.
  method ExpireProfile(chs: seq<Channel>, stat: DirStat, maxsize: nat, maxlife: nat, now: nat, limit: string,
    iso: string -> nat, interrupted: nat -> bool, ghost lists: seq<seq<Item>>)
    returns (ghost g: Goal, ghost log: seq<Try>, ghost left: seq<seq<Item>>, ghost n: nat, ghost end: End)
    requires Accurate(chs, stat, lists)
    modifies chs, Books(chs)`first, Books(chs)`filesize, Books(chs)`numfiles, Books(chs)`rebuild, stat`filesize,
      stat`numfiles, stat`first
    ensures g == Goal(old(stat.filesize), (old(stat.low_water) * maxsize % TWO64) / 100, limit,
      maxsize == 0 || old(stat.filesize) < maxsize, maxlife == 0 || Minus(now, old(stat.first)) < maxlife)
    ensures chs != [] ==> Running(chs, stat, lists, g, log, left, n) && Ended(end, g, log, left, n, stat.first, iso)
    ensures AllMarked(chs, log, iso)
    ensures TriedAreOld(g, log, n)
    ensures chs != [] && !end.Interrupted? && !g.lifedone ==> LeftAreYoung(g, left)
    ensures end.Interrupted? && chs != [] ==> exists r :: interrupted(r)
  {
    hide Sorted, Data, Bytes, Sum, Sizes, Counts, Minus, Running, Ended, AllMarked, Of;
    var size_done := maxsize == 0 || stat.filesize < maxsize;
    var sizelimit := (stat.low_water * maxsize % TWO64) / 100;
    var lifetime_done := maxlife == 0 || Minus(now, stat.first) < maxlife;
    g := Goal(stat.filesize, sizelimit, limit, size_done, lifetime_done);
    log, left, n, end := [], lists, 0, Empty;
    NoneMarked(chs, iso);
    if chs == [] {
      return;
    }
    PrepareDirLists(chs);
    NoneMarked(chs, iso);
    forall k {:trigger chs[k]} | 0 <= k < |chs|
      ensures Right(chs[k], lists[k])
    {
      assert old(Right(chs[k], lists[k]));
    }
    forall k, x | 0 <= k < |lists| && x in lists[k]
      ensures IsData(x)
    {
      assert lists[k] == Data(chs[k].walk);
    }
    Begin(chs, stat, lists, g);
    log, left, n, end := Loop(chs, stat, sizelimit, limit, size_done, lifetime_done, iso, interrupted, lists,
      stat.filesize);
    ProfileAges(chs, stat, lists, g, log, left, n, end, iso);
  }

  lemma ProfileAges(chs: seq<Channel>, stat: DirStat, lists: seq<seq<Item>>, g: Goal, log: seq<Try>,
      left: seq<seq<Item>>, n: nat, end: End, iso: string -> nat)
    requires Running(chs, stat, lists, g, log, left, n) && Ended(end, g, log, left, n, stat.first, iso)
    requires forall k, x :: 0 <= k < |lists| && x in lists[k] ==> IsData(x)
    ensures TriedAreOld(g, log, n) && (!end.Interrupted? && !g.lifedone ==> LeftAreYoung(g, left))
  {
    hide Coupled, ForSize, Sorted, Sizes, Counts, Sum, Freed, Separate, OldestTime, SizeReached, AgeReached, ForAge;
    AgesByName(lists, g, log, left, n);
  }

  lemma NoneMarked(chs: seq<Channel>, iso: string -> nat)
    ensures AllMarked(chs, [], iso)
  {
  }

  ghost function FileSizes(chs: seq<Channel>): seq<nat>
    reads Books(chs)
  {
    seq(|chs|, k requires 0 <= k < |chs| reads Books(chs) => chs[k].dirstat.filesize)
  }

  ghost function NumFiles(chs: seq<Channel>): seq<nat>
    reads Books(chs)
  {
    seq(|chs|, k requires 0 <= k < |chs| reads Books(chs) => chs[k].dirstat.numfiles)
  }

  // The size of the profile is that of its channels.
  lemma ProfileSize(chs: seq<Channel>, stat: DirStat, lists: seq<seq<Item>>, g: Goal, log: seq<Try>,
      left: seq<seq<Item>>, n: nat)
    requires Running(chs, stat, lists, g, log, left, n)
    ensures stat.filesize == Sum(FileSizes(chs))
  {
    hide Sum, Disk, Bytes, Merged, ForSize, ForAge, Sorted;
    forall k | 0 <= k < |chs|
      ensures FileSizes(chs)[k] == Sizes(log, left)[k]
    {
      assert Booked(chs[k], left[k], Disk(log, left, k));
    }
    assert FileSizes(chs) == Sizes(log, left);
  }

  // So is its number of files, unless a channel ran out of files some of which
  // could not be removed.
  lemma ProfileCount(chs: seq<Channel>, stat: DirStat, lists: seq<seq<Item>>, g: Goal, log: seq<Try>,
      left: seq<seq<Item>>, n: nat)
    requires Running(chs, stat, lists, g, log, left, n)
    ensures stat.numfiles == Sum(NumFiles(chs)) <==>
      forall k :: 0 <= k < |left| && left[k] == [] ==> Stuck(Of(log, k)) == []
  {
    hide Sum, Bytes, Merged, ForSize, ForAge, Sorted, Of, Stuck;
    forall k | 0 <= k < |chs|
      ensures Counts(log, left)[k] == |Stuck(Of(log, k))| + |left[k]|
      ensures NumFiles(chs)[k] == if left[k] == [] then 0 else Counts(log, left)[k]
    {
      assert Booked(chs[k], left[k], Disk(log, left, k));
    }
    SumLess(NumFiles(chs), Counts(log, left));
    assert NumFiles(chs) == Counts(log, left) <==>
      forall k :: 0 <= k < |chs| ==> NumFiles(chs)[k] == Counts(log, left)[k];
  }

  // Such a profile: of one channel with one file, which cannot be removed.
  method StuckFile() returns (c: Channel, stat: DirStat)
    ensures c.walk == [] && stat.filesize == c.dirstat.filesize == 512
    ensures stat.numfiles == 1 && c.dirstat.numfiles == 0
  {
    hide *;
    var f := File("nfcapd.202001010000", 1, false);
    var books := new DirStat;
    books.filesize, books.numfiles := 512, 1;
    stat := new DirStat;
    stat.filesize, stat.numfiles, stat.low_water := 512, 1, 0;
    c := new Channel([f], books);
    OneFile(c, stat, f);
    OneBook(c);
    ghost var g, log, left, n, end;
    g, log, left, n, end := ExpireProfile([c], stat, 1, 0, 0, "", _ => 0, _ => false, [[f]]);
    NotReached(c, stat, f, g, log, left, n, end, _ => 0);
  }

  lemma OneFile(c: Channel, stat: DirStat, f: Item)
    requires f == File("nfcapd.202001010000", 1, false) && c.walk == [f] && c.dirstat != stat
    requires c.dirstat.filesize == stat.filesize == 512 && c.dirstat.numfiles == stat.numfiles == 1
    ensures Accurate([c], stat, [[f]]) && 512 < TWO64
  {
    hide IsData, Sizes, Counts, Sum, Data, Bytes;
    DataOfOne(f);
    BytesOfOne(f);
    BooksOfOne([], [[f]], f);
    assert TWO64 == 0x1_0000_0000_0000_0000 && Right(c, [f]);
    assert forall k {:trigger [c][k]} :: 0 <= k < 1 ==> Right([c][k], [[f]][k]);
  }

  lemma DataOfOne(f: Item)
    requires f == File("nfcapd.202001010000", 1, false)
    ensures IsData(f) && Data([f]) == [f]
  {
    assert Data([f]) == [f] + Data([]);
  }

  lemma BooksOfOne(log: seq<Try>, left: seq<seq<Item>>, f: Item)
    requires |left| == 1 && Disk(log, left, 0) == [f] && f.File? && f.blocks == 1
    ensures Sum(Sizes(log, left)) == 512 && Sum(Counts(log, left)) == 1
  {
    BytesOfOne(f);
    assert Sizes(log, left) == [512] && Counts(log, left) == [1];
    assert Sum([512]) == 512 + Sum([]) && Sum([1]) == 1 + Sum([]);
  }

  lemma OneBook(c: Channel)
    ensures Books([c]) == {c.dirstat}
  {
    assert c in [c];
  }

  lemma NotReached(c: Channel, stat: DirStat, f: Item, g: Goal, log: seq<Try>, left: seq<seq<Item>>, n: nat, end: End,
      iso: string -> nat)
    requires f == File("nfcapd.202001010000", 1, false) && Running([c], stat, [[f]], g, log, left, n)
    requires g.total == 512 && g.sizelimit == 0 && !g.sizedone
    requires Ended(end, g, log, left, n, stat.first, iso) && !end.Interrupted?
    ensures c.walk == [] && stat.filesize == c.dirstat.filesize == 512 && stat.numfiles == 1 && c.dirstat.numfiles == 0
  {
    hide Data, ForAge, Sorted;
    OneStuck(f, log, left, n);
    assert left == [[]] && Disk(log, left, 0) == [f] + [] == [f];
    assert Booked([c][0], left[0], Disk(log, left, 0));
    assert Bytes([f]) == 512 + Bytes([]);
    assert Sizes(log, left) == [512] && Counts(log, left) == [1];
    assert Sum([512]) == 512 + Sum([]) && Sum([1]) == 1 + Sum([]);
    Emptied(c);
  }

  lemma Emptied(c: Channel)
    requires c.Ready() && Data(c.walk) == []
    ensures c.walk == []
  {
  }

  // What holds while one directory is expired: `left` are the dated files from
  // the current entry on.
  ghost predicate RunningDir(fs: seq<Item>, g: Goal, filesize: nat, removed: int, log: seq<Try>, left: seq<Item>,
      n: nat) {
    && Merged([fs], log, [left]) && Sorted(left) && (forall f :: f in left ==> IsData(f))
    && filesize == Minus(g.total, Freed(log)) && removed == Unlinked(log)
    && ForSize(g, log, n) && ForAge(g, log, n)
  }

  // The file at hand is tried.
  method TryDated(f: Item, filesize: nat, removed: nat,
    ghost fs: seq<Item>, ghost g: Goal, ghost log: seq<Try>, ghost left: seq<Item>, ghost n: nat, ghost n': nat)
    returns (filesize': nat, removed': nat)
    requires RunningDir(fs, g, filesize, removed, log, left, n) && left != [] && f == left[0]
    requires if n' == n + 1 then n == |log| && !g.sizedone && filesize > g.sizelimit
      else n' == n && SizeReached(g, log, n) && !g.lifedone && !Leq(g.limit, Stamp(f))
    ensures RunningDir(fs, g, filesize', removed', log + [Try(0, f)], left[1..], n')
    ensures n' == n ==> SizeReached(g, log + [Try(0, f)], n')
  {
    hide Sorted, ForSize, ForAge, SizeReached, Leq, Freed, Of, Merged, Minus;
    FirstAlone(left);
    SortedTail(left);
    MergeStep([fs], log, [left], 0);
    assert Without([left], 0) == [left[1..]];
    ghost var t := Try(0, f);
    LogStep(log, t);
    assert (log + [t])[..|log|] == log;
    if n' == n {
      TriedForAge(g, log, n, t);
    } else {
      TriedForSize(g, log, t);
    }
    MinusTwice(g.total, Freed(log), 512 * f.blocks);
    filesize', removed' := filesize, removed;
    if f.removable {
      filesize' := Minus(filesize, 512 * f.blocks);
      removed' := removed + 1;
    }
  }

  lemma FirstAlone(left: seq<Item>)
    requires Sorted(left) && left != [] && IsData(left[0])
    ensures Oldest([left], 0) && forall j :: 0 <= j < 1 ==> Sorted([left][j])
  {
    LeqTotal(left[0].name, left[0].name);
  }

  // ExpireDir, with the time of the day where it is needed.
  method ExpireDir(walk: seq<Item>, stat: DirStat, maxsize: nat, maxlife: nat, now: nat, limit: string,
    iso: string -> nat, interrupted: nat -> bool, clock: nat)
    returns (ghost g: Goal, ghost log: seq<Try>, ghost left: seq<Item>, ghost n: nat, ghost end: End)
    requires Sorted(Dated(walk)) && stat.filesize < TWO64
    modifies stat
    ensures g == Goal(old(stat.filesize), (stat.low_water * maxsize % TWO64) / 100, limit,
      maxsize == 0 || old(stat.filesize) < maxsize, maxlife == 0 || Minus(now, old(stat.first)) < maxlife)
    ensures stat.low_water == if old(stat.low_water) == 0 then 95 else old(stat.low_water)
    ensures RunningDir(Dated(walk), g, stat.filesize, Unlinked(log), log, left, n)
    ensures stat.numfiles == if Unlinked(log) > old(stat.numfiles) then 0 else old(stat.numfiles) - Unlinked(log)
    ensures stat.rebuild == (old(stat.rebuild) || Unlinked(log) > old(stat.numfiles) || stat.numfiles == 0)
    ensures end.Interrupted? || Complete(g, Dated(walk), log, left, n)
    ensures TriedAreOld(g, log, n) && (!end.Interrupted? && !g.lifedone ==> LeftAreYoung(g, [left]))
    ensures end.Interrupted? ==> exists r :: interrupted(r)
    ensures end.Limits? && !(g.sizedone && g.lifedone) ==>
      left != [] && (stat.numfiles != 0 ==> stat.first == iso(Stamp(left[0])))
    ensures end.Empty? && stat.numfiles != 0 ==> stat.first == stat.last
    ensures stat.numfiles != 0 ==> stat.last == old(stat.last)
    ensures stat.numfiles == 0 ==> stat.first == stat.last == clock
  {
    hide *;
    if stat.low_water == 0 {
      stat.low_water := 95;
    }
    ghost var fs := Dated(walk);
    var size_done := maxsize == 0 || stat.filesize < maxsize;
    var sizelimit := (stat.low_water * maxsize % TWO64) / 100;
    var lifetime_done := maxlife == 0 || Minus(now, stat.first) < maxlife;
    var done, num_expired: nat, i := false, 0, 0;
    g := Goal(stat.filesize, sizelimit, limit, size_done, lifetime_done);
    log, left, n, end := [], fs, 0, Empty;
    BeginDir(walk, g);
    ghost var low := stat.low_water;
    while !done && i < |walk|
      invariant i <= |walk| && (!done ==> left == Dated(walk[i..]))
      invariant RunningDir(fs, g, stat.filesize, num_expired, log, left, n)
      invariant stat.low_water == low && stat.numfiles == old(stat.numfiles) && stat.last == old(stat.last)
        && stat.rebuild == old(stat.rebuild)
      invariant if size_done then SizeReached(g, log, n) else n == |log| && !g.sizedone
      invariant if done then end.Limits? || end.Interrupted? else (lifetime_done <==> g.lifedone)
      invariant !done && size_done && lifetime_done ==> g.sizedone && g.lifedone
      invariant done && end.Limits? ==> SizeReached(g, log, n) && AgeReached(g, [left]) && left != []
      invariant done && end.Limits? && !(g.sizedone && g.lifedone) ==> stat.first == iso(Stamp(left[0]))
      invariant done && end.Interrupted? ==> exists r :: interrupted(r)
      decreases |walk| - i, !done
    {
      var f := walk[i];
      DatedStep(walk, i);
      i := i + 1;
      if !(IsData(f) && Digits(Stamp(f))) {
        continue;
      }
      if !size_done {
        if stat.filesize > sizelimit {
          stat.filesize, num_expired := TryDated(f, stat.filesize, num_expired, fs, g, log, left, n, n + 1);
          log, left, n := log + [Try(0, f)], left[1..], n + 1;
          continue;
        }
        stat.first := iso(Stamp(f));
        ReachedDir(fs, g, stat.filesize, num_expired, log, left, n);
        size_done := true;
      }
      if !lifetime_done {
        if !Leq(limit, Stamp(f)) {
          stat.filesize, num_expired := TryDated(f, stat.filesize, num_expired, fs, g, log, left, n, n);
          log, left := log + [Try(0, f)], left[1..];
        } else {
          stat.first := iso(Stamp(f));
          YoungDir(fs, g, stat.filesize, num_expired, log, left, n);
          lifetime_done := true;
        }
      }
      AgeByLife(g, left);
      end := if size_done && lifetime_done then Limits else Interrupted;
      done := (size_done && lifetime_done) || interrupted(i);
    }
    if !done {
      stat.first := stat.last;
      end := Empty;
    }
    EndDir(fs, g, stat.filesize, num_expired, log, left, n);
    DirAges(fs, g, stat.filesize, num_expired, log, left, n);
    DatedEnd(walk);
    Deduct(stat, num_expired, clock);
  }

  lemma BeginDir(walk: seq<Item>, g: Goal)
    requires Sorted(Dated(walk)) && g.total < TWO64
    ensures RunningDir(Dated(walk), g, g.total, 0, [], Dated(walk), 0) && walk[0..] == walk
      && (g.sizedone ==> SizeReached(g, [], 0))
  {
  }

  lemma DatedStep(walk: seq<Item>, i: nat)
    requires i < |walk|
    ensures var r := Dated(walk[i + 1..]);
      Dated(walk[i..]) == if IsData(walk[i]) && Digits(Stamp(walk[i])) then [walk[i]] + r else r
  {
    assert walk[i..][1..] == walk[i + 1..];
  }

  lemma ReachedDir(fs: seq<Item>, g: Goal, filesize: nat, removed: int, log: seq<Try>, left: seq<Item>, n: nat)
    requires RunningDir(fs, g, filesize, removed, log, left, n) && filesize <= g.sizelimit
    ensures SizeReached(g, log, |log|)
  {
    Reached(g, log, filesize);
  }

  lemma YoungDir(fs: seq<Item>, g: Goal, filesize: nat, removed: int, log: seq<Try>, left: seq<Item>, n: nat)
    requires RunningDir(fs, g, filesize, removed, log, left, n) && left != [] && Leq(g.limit, Stamp(left[0]))
    ensures AgeReached(g, [left])
  {
    hide Leq;
    FirstAlone(left);
    AllYoung([left], 0, g.limit);
  }

  lemma AgeByLife(g: Goal, left: seq<Item>)
    ensures g.lifedone ==> AgeReached(g, [left])
  {
  }

  lemma DatedEnd(walk: seq<Item>)
    ensures Dated(walk[|walk|..]) == []
  {
  }

  lemma EndDir(fs: seq<Item>, g: Goal, filesize: nat, removed: int, log: seq<Try>, left: seq<Item>, n: nat)
    requires RunningDir(fs, g, filesize, removed, log, left, n)
    ensures removed == Unlinked(log)
    ensures (SizeReached(g, log, n) && AgeReached(g, [left])) || left == [] ==> Complete(g, fs, log, left, n)
  {
  }

  lemma DirAges(fs: seq<Item>, g: Goal, filesize: nat, removed: int, log: seq<Try>, left: seq<Item>, n: nat)
    requires RunningDir(fs, g, filesize, removed, log, left, n) && forall f :: f in fs ==> IsData(f)
    ensures TriedAreOld(g, log, n)
    ensures ((SizeReached(g, log, n) && AgeReached(g, [left])) || left == []) && !g.lifedone ==> LeftAreYoung(g, [left])
  {
    hide ForSize, Sorted, SizeReached, AgeReached, ForAge, Merged;
    AgesByName([fs], g, log, [left], n);
    NoneLeft(g);
  }

  lemma NoneLeft(g: Goal)
    ensures LeftAreYoung(g, [[]])
  {
  }

  // With right books before the run, they are right afterwards: the size and the
  // number are those of the files that are left on disk.
  lemma AccurateDir(fs: seq<Item>, g: Goal, filesize: nat, log: seq<Try>, left: seq<Item>, n: nat)
    requires RunningDir(fs, g, filesize, Unlinked(log), log, left, n) && g.total == Bytes(fs) < TWO64
    requires forall f :: f in fs ==> IsData(f)
    ensures filesize == Bytes(Disk(log, [left], 0)) && |fs| - Unlinked(log) == |Disk(log, [left], 0)|
  {
    hide Sorted, ForSize, ForAge, Freed, Bytes, Unlinked;
    var tried := Of(log, 0);
    assert [fs][0] == tried + [left][0];
    OfOne(log, tried);
    assert forall i :: 0 <= i < |tried| ==> fs[i] == tried[i] && fs[i] in fs;
    FreedOfList(tried, log);
    BytesConcat(tried, left);
    BytesConcat(Stuck(tried), left);
    MinusOnce(g.total, Freed(log));
  }

  // The files removed no longer count; more of them than there were, or none
  // left, call for a rebuild.
  method Deduct(stat: DirStat, num_expired: nat, clock: nat)
    modifies stat`numfiles, stat`rebuild, stat`first, stat`last
    ensures stat.numfiles == if num_expired > old(stat.numfiles) then 0 else old(stat.numfiles) - num_expired
    ensures stat.rebuild == (old(stat.rebuild) || num_expired > old(stat.numfiles) || stat.numfiles == 0)
    ensures if stat.numfiles == 0 then stat.first == stat.last == clock
      else stat.first == old(stat.first) && stat.last == old(stat.last)
  {
    if num_expired > stat.numfiles {
      stat.numfiles := 0;
      stat.rebuild := true;
    } else {
      stat.numfiles := stat.numfiles - num_expired;
    }
    if stat.numfiles == 0 {
      stat.first := clock;
      stat.last := clock;
      stat.rebuild := true;
    }
  }

  // A profile of one channel is expired like a directory: both runs try the
  // same files, if they are after the same and are not interrupted.
  lemma ProfileOfOne(chs: seq<Channel>, stat: DirStat, iso: string -> nat, fs: seq<Item>, g: Goal, end: End,
    log: seq<Try>, left: seq<seq<Item>>, n: nat, log': seq<Try>, left': seq<Item>, n': nat)
    requires Running(chs, stat, [fs], g, log, left, n) && Ended(end, g, log, left, n, stat.first, iso)
      && !end.Interrupted?
    requires Complete(g, fs, log', left', n')
    ensures log == log' && left == [left']
  {
    hide Leq, Freed, Coupled, ForSize, ForAge, Of, Sizes, Counts, Sum, OldestTime, SizeReached, Separate;
    assert left == [left[0]];
    OneOutcome(g, fs, log, left[0], n, log', left', n');
  }
}
