/**
 The bounded queue of queue.c. RingQueue is the queue as its methods see it
 while they hold the mutex: a ring buffer in an array. QueueThreads runs any
 number of producers and consumers over it.
 */
module RingQueue {
  import opened Probing

  // What a critical section does to the one condition variable.
  datatype Wake = NoWake | One | All

  // How a critical section ends: the call returns, or the thread has to wait
  // and to try again.
  datatype Outcome<T> = Accepted | Item(value: T) | Closed | Wait

  // The queue as its callers know it.
  datatype Core<T> = Core(items: seq<T>, capacity: nat, closed: bool, producers: int, cWait: int, pWait: int)

  // One pass of the loop in queue_push.
  function PushCore<T>(c: Core<T>, x: T): (r: (Core<T>, Outcome<T>, Wake)) {
    if c.closed then
      (c, Closed, NoWake)
    else if |c.items| < c.capacity then
      (c.(items := c.items + [x]), Accepted, if c.cWait > 0 then One else NoWake)
    else
      (c.(pWait := c.pWait + 1), Wait, NoWake)
  }

  // One pass of the loop in queue_pop.
  function PopCore<T>(c: Core<T>): (r: (Core<T>, Outcome<T>, Wake)) {
    if c.closed && c.items == [] then
      (c, Closed, NoWake)
    else if c.items != [] then
      (c.(items := c.items[1..]), Item(c.items[0]), if c.pWait > 0 || (c.closed && c.cWait > 0) then All else NoWake)
    else
      (c.(cWait := c.cWait + 1), Wait, NoWake)
  }

  function CloseCore<T>(c: Core<T>): (r: (Core<T>, Wake)) {
    var producers := c.producers - 1;
    (c.(producers := producers, closed := c.closed || producers <= 0), if c.cWait > 0 then All else NoWake)
  }

  // Who is woken up: one consumer for a new element; all for a place that was
  // freed, if a producer waits or consumers have to see that the queue is closed.
  lemma Wakes<T>(c: Core<T>, x: T)
    ensures var (c', out, wake) := PushCore(c, x);
      wake == if |c'.items| > |c.items| && c.cWait > 0 then One else NoWake
    ensures var (c', out, wake) := PopCore(c);
      wake == if |c'.items| < |c.items| && (c.pWait > 0 || (c.cWait > 0 && c.closed)) then All else NoWake
  {
  }

  // `n` calls of queue_close.
  function Closes<T>(c: Core<T>, n: nat): Core<T> {
    if n == 0 then c else CloseCore(Closes(c, n - 1)).0
  }

  // The queue is closed with the last of its producers.
  lemma {:induction false} LastProducerCloses<T>(c: Core<T>, n: nat)
    requires !c.closed
    ensures Closes(c, n).producers == c.producers - n && Closes(c, n).items == c.items
    ensures Closes(c, n).closed <==> 0 < n && c.producers <= n
  {
    if n != 0 {
      LastProducerCloses(c, n - 1);
    }
  }

  // The position `i` places after `start` in a ring of `n`.
  function Slot(start: nat, i: nat, n: nat): (k: nat)
    requires start < n && i <= n
    ensures k < n
  {
    if start + i < n then start + i else start + i - n
  }

  lemma SlotIsModulo(start: nat, i: nat, n: nat)
    requires start < n && i <= n
    ensures Slot(start, i, n) == (start + i) % n
  {
    ModUnique(start + i, if start + i < n then 0 else 1, Slot(start, i, n), n);
  }

  lemma SlotIsMask(start: nat, n: nat)
    requires IsPow2(n) && start < n
    ensures Slot(start, 1, n) == Mask(start + 1, n)
  {
    SlotIsModulo(start, 1, n);
    MaskIsModulo(start + 1, n);
  }

  // The `num` elements of the ring `a` from `avail` on.
  function Items<T>(a: seq<T>, avail: nat, num: nat): (s: seq<T>)
    requires avail < |a| && num <= |a|
    ensures |s| == num
  {
    seq(num, i requires 0 <= i < num => a[Slot(avail, i, |a|)])
  }

  lemma ItemsPush<T>(a: seq<T>, avail: nat, num: nat, x: T)
    requires avail < |a| && num < |a|
    ensures Items(a[Slot(avail, num, |a|) := x], avail, num + 1) == Items(a, avail, num) + [x]
  {
  }

  lemma ItemsPop<T>(a: seq<T>, avail: nat, num: nat)
    requires avail < |a| && 0 < num <= |a|
    ensures Items(a, avail, num)[0] == a[avail]
    ensures Items(a, Slot(avail, 1, |a|), num - 1) == Items(a, avail, num)[1..]
  {
  }

  // queue_init accepts powers of two only, so that masking is taking modulo.
  method QueueInit<T(0)>(length: nat) returns (q: Queue?<T>)
    ensures q != null <==> IsPow2(length)
    ensures q != null ==> fresh(q) && fresh(q.element) && q.Valid() && q.State() == Core([], length, false, 1, 0, 0)
  {
    if 0 < length {
      OneBit(length);
    }
    if !(length != 0 && Bits.And(length, length - 1) == 0) {
      return null;
    }
    q := new Queue(length);
  }

  class Queue<T(0)> {
    const length: nat
    const element: array<T>
    var nextFree: nat
    var nextAvail: nat
    var numElements: nat
    var closed: bool
    var producers: int
    var cWait: nat
    var pWait: nat
    var maxUsed: nat

    ghost predicate Valid()
      reads this
    {
      && element.Length == length && IsPow2(length)
      && nextAvail < length && numElements <= length
      && nextFree == Slot(nextAvail, numElements, length)
    }

    ghost function State(): Core<T>
      requires Valid()
      reads this, element
    {
      Core(Items(element[..], nextAvail, numElements), length, closed, producers, cWait, pWait)
    }

    constructor (n: nat)
      requires IsPow2(n)
      ensures Valid() && State() == Core([], n, false, 1, 0, 0) && fresh(element)
    {
      length := n;
      element := new T[n];
      nextFree, nextAvail, numElements, maxUsed := 0, 0, 0, 0;
      closed, producers, cWait, pWait := false, 1, 0, 0;
    }

    // One pass of the loop of queue_push, from taking the mutex to letting go
    // of it.
    method TryPush(x: T) returns (out: Outcome<T>, wake: Wake)
      requires Valid()
      modifies this, element
      ensures Valid() && (State(), out, wake) == PushCore(old(State()), x)
      ensures maxUsed == if out == Accepted && old(maxUsed) < numElements then numElements else old(maxUsed)
    {
      hide Mask, IsPow2, Items;
      if closed {
        return Closed, NoWake;
      }
      if numElements < length {
        var index := nextFree;
        ItemsPush(element[..], nextAvail, numElements, x);
        SlotIsMask(nextFree, length);
        element[index] := x;
        numElements := numElements + 1;
        nextFree := Mask(nextFree + 1, length);
        if maxUsed < numElements {
          maxUsed := numElements;
        }
        assert element[..] == old(element[..])[index := x];
        return Accepted, if cWait > 0 then One else NoWake;
      } else {
        pWait := pWait + 1;
        return Wait, NoWake;
      }
    }

    // One pass of the loop of queue_pop.
    method TryPop() returns (out: Outcome<T>, wake: Wake)
      requires Valid()
      modifies this
      ensures Valid() && (State(), out, wake) == PopCore(old(State()))
      ensures maxUsed == old(maxUsed)
    {
      hide Mask, IsPow2, Items;
      if closed && numElements == 0 {
        return Closed, NoWake;
      }
      if numElements > 0 {
        var index := nextAvail;
        ItemsPop(element[..], nextAvail, numElements);
        SlotIsMask(nextAvail, length);
        var data := element[index];
        numElements := numElements - 1;
        nextAvail := Mask(nextAvail + 1, length);
        return Item(data), if pWait > 0 || (closed && cWait > 0) then All else NoWake;
      } else {
        cWait := cWait + 1;
        return Wait, NoWake;
      }
    }

    // queue_close.
    method Close() returns (wake: Wake)
      requires Valid()
      modifies this`closed, this`producers
      ensures Valid() && (State(), wake) == CloseCore(old(State()))
    {
      producers := producers - 1;
      if producers <= 0 {
        closed := true;
      }
      wake := if cWait > 0 then All else NoWake;
    }

    // queue_open.
    method Open()
      requires Valid()
      modifies this`closed
      ensures Valid() && State() == old(State()).(closed := false)
    {
      closed := false;
    }
  }
}

module QueueThreads {
  import opened RingQueue

  // A thread is outside the queue; or in the wait set of the condition
  // variable; or woken, that is, back from the wait set but without the mutex.
  datatype Status<T> = Outside | PushWait(x: T) | PushWoken(x: T) | PopWait | PopWoken

  // `accepted` and `popped` record the history: what pushes put in, and what
  // pops took out, each in order.
  datatype Sys<T> = Sys(core: Core<T>, threads: map<int, Status<T>>, accepted: seq<T>, popped: seq<T>)

  function Woken<T>(s: Status<T>): Status<T> {
    match s
    case PushWait(x) => PushWoken(x)
    case PopWait => PopWoken
    case _ => s
  }

  predicate InWaitSet<T>(s: Status<T>) {
    s.PushWait? || s.PopWait?
  }

  // A signal wakes one of the waiting threads, `w`, if there are any; which
  // one is not up to the signaller.
  ghost predicate WakeUp<T(!new)>(before: map<int, Status<T>>, wake: Wake, w: int, after: map<int, Status<T>>) {
    match wake
    case NoWake => after == before
    case One =>
      if w in before && InWaitSet(before[w]) then after == before[w := Woken(before[w])]
      else after == before && forall t :: t in before ==> !InWaitSet(before[t])
    case All => after.Keys == before.Keys && forall t :: t in before ==> after[t] == Woken(before[t])
  }

  // Thread `t` runs through one pass of queue_push, fresh or after waiting.
  ghost predicate PushStep<T(!new)>(s: Sys<T>, t: int, x: T, w: int, s': Sys<T>) {
    && t in s.threads && (s.threads[t] == Outside || s.threads[t] == PushWoken(x))
    && var c := if s.threads[t] == Outside then s.core else s.core.(pWait := s.core.pWait - 1);
    && var (c', out, wake) := PushCore(c, x);
    && s'.core == c'
    && WakeUp(s.threads[t := if out == Wait then PushWait(x) else Outside], if out == Wait then NoWake else wake, w,
      s'.threads)
    && s'.accepted == (if out == Accepted then s.accepted + [x] else s.accepted)
    && s'.popped == s.popped
  }

  // Thread `t` runs through one pass of queue_pop.
  ghost predicate PopStep<T(!new)>(s: Sys<T>, t: int, s': Sys<T>) {
    && t in s.threads && (s.threads[t] == Outside || s.threads[t] == PopWoken)
    && var c := if s.threads[t] == Outside then s.core else s.core.(cWait := s.core.cWait - 1);
    && var (c', out, wake) := PopCore(c);
    && s'.core == c'
    && WakeUp(s.threads[t := if out == Wait then PopWait else Outside], wake, t, s'.threads)
    && s'.accepted == s.accepted
    && s'.popped == (if out.Item? then s.popped + [out.value] else s.popped)
  }

  ghost predicate CloseStep<T(!new)>(s: Sys<T>, t: int, s': Sys<T>) {
    && t in s.threads && s.threads[t] == Outside
    && var (c', wake) := CloseCore(s.core);
    && s'.core == c' && WakeUp(s.threads, wake, t, s'.threads)
    && s'.accepted == s.accepted && s'.popped == s.popped
  }

  // queue_open.
  ghost predicate OpenStep<T>(s: Sys<T>, s': Sys<T>) {
    s' == s.(core := s.core.(closed := false))
  }

  // The broadcast of queue_sync, or a wakeup out of the blue.
  ghost predicate SpuriousStep<T(!new)>(s: Sys<T>, wake: Wake, w: int, s': Sys<T>) {
    WakeUp(s.threads, wake, w, s'.threads) && s' == s.(threads := s'.threads)
  }

  ghost predicate Next<T(!new)>(s: Sys<T>, s': Sys<T>) {
    || (exists t, x, w :: PushStep(s, t, x, w, s'))
    || (exists t :: PopStep(s, t, s'))
    || (exists t :: CloseStep(s, t, s'))
    || OpenStep(s, s')
    || (exists wake, w :: SpuriousStep(s, wake, w, s'))
  }

  ghost predicate Init<T(!new)>(s: Sys<T>) {
    && 0 < s.core.capacity && s.core.items == s.accepted == s.popped == []
    && s.core.cWait == s.core.pWait == 0
    && forall t :: t in s.threads ==> s.threads[t] == Outside
  }

  ghost predicate Run<T(!new)>(r: seq<Sys<T>>) {
    && 0 < |r| && Init(r[0])
    && forall i :: 0 <= i < |r| - 1 ==> Next(r[i], r[i + 1])
  }

  // ---- Counting threads --------------------------------------------------

  ghost function WokenPops<T>(threads: map<int, Status<T>>): set<int> {
    set t | t in threads && threads[t] == PopWoken
  }

  ghost function Poppers<T>(threads: map<int, Status<T>>): set<int> {
    set t | t in threads && (threads[t] == PopWait || threads[t] == PopWoken)
  }

  ghost function Pushers<T>(threads: map<int, Status<T>>): set<int> {
    set t | t in threads && (threads[t].PushWait? || threads[t].PushWoken?)
  }

  // The two counters count the threads that wait or are on their way back.
  ghost predicate Counted<T>(s: Sys<T>) {
    s.core.cWait == |Poppers(s.threads)| && s.core.pWait == |Pushers(s.threads)|
  }

  // A producer waits only for a full queue.
  ghost predicate PushersBlocked<T>(s: Sys<T>) {
    forall t :: t in s.threads && s.threads[t].PushWait? ==> |s.core.items| == s.core.capacity
  }

  // A consumer waits only on an open queue, and only if as many others as there
  // are elements have been woken already.
  ghost predicate PoppersServed<T>(s: Sys<T>) {
    forall t :: t in s.threads && s.threads[t].PopWait? ==> |s.core.items| <= |WokenPops(s.threads)| && !s.core.closed
  }

  // Pops take out what pushes put in, in the same order.
  ghost predicate Fifo<T(!new)>(s: Sys<T>) {
    && 0 < s.core.capacity && |s.core.items| <= s.core.capacity
    && s.accepted == s.popped + s.core.items
  }

  // What every reachable state satisfies.
  ghost predicate Inv<T(!new)>(s: Sys<T>) {
    Counted(s) && PushersBlocked(s) && PoppersServed(s) && Fifo(s)
  }

  // What a thread adds to the three counts.
  function InPop<T>(st: Status<T>): int {
    if st.PopWait? || st.PopWoken? then 1 else 0
  }

  function InPush<T>(st: Status<T>): int {
    if st.PushWait? || st.PushWoken? then 1 else 0
  }

  function WokenPop<T>(st: Status<T>): int {
    if st.PopWoken? then 1 else 0
  }

  lemma SetPopper<T>(threads: map<int, Status<T>>, t: int, st: Status<T>)
    requires t in threads
    ensures |Poppers(threads[t := st])| == |Poppers(threads)| - InPop(threads[t]) + InPop(st)
  {
    assert Poppers(threads[t := st]) - {t} == Poppers(threads) - {t};
    OneMore(Poppers(threads[t := st]), t);
    OneMore(Poppers(threads), t);
  }

  lemma SetPusher<T>(threads: map<int, Status<T>>, t: int, st: Status<T>)
    requires t in threads
    ensures |Pushers(threads[t := st])| == |Pushers(threads)| - InPush(threads[t]) + InPush(st)
  {
    assert Pushers(threads[t := st]) - {t} == Pushers(threads) - {t};
    OneMore(Pushers(threads[t := st]), t);
    OneMore(Pushers(threads), t);
  }

  lemma SetWokenPop<T>(threads: map<int, Status<T>>, t: int, st: Status<T>)
    requires t in threads
    ensures |WokenPops(threads[t := st])| == |WokenPops(threads)| - WokenPop(threads[t]) + WokenPop(st)
  {
    assert WokenPops(threads[t := st]) - {t} == WokenPops(threads) - {t};
    OneMore(WokenPops(threads[t := st]), t);
    OneMore(WokenPops(threads), t);
  }

  lemma SetStatus<T>(threads: map<int, Status<T>>, t: int, st: Status<T>)
    requires t in threads
    ensures |Poppers(threads[t := st])| == |Poppers(threads)| - InPop(threads[t]) + InPop(st)
    ensures |Pushers(threads[t := st])| == |Pushers(threads)| - InPush(threads[t]) + InPush(st)
    ensures |WokenPops(threads[t := st])| == |WokenPops(threads)| - WokenPop(threads[t]) + WokenPop(st)
  {
    SetPopper(threads, t, st);
    SetPusher(threads, t, st);
    SetWokenPop(threads, t, st);
  }

  lemma OneMore(s: set<int>, t: int)
    ensures |s| == |s - {t}| + if t in s then 1 else 0
  {
    if t in s {
      assert s == s - {t} + {t};
    } else {
      assert s == s - {t};
    }
  }

  // Waking moves threads out of the wait set and changes no count but that of
  // the woken consumers, which can only grow.
  lemma WakeCounts<T(!new)>(before: map<int, Status<T>>, wake: Wake, w: int, after: map<int, Status<T>>)
    requires WakeUp(before, wake, w, after)
    ensures |Poppers(after)| == |Poppers(before)| && |Pushers(after)| == |Pushers(before)|
    ensures |WokenPops(before)| <= |WokenPops(after)|
    ensures forall t :: t in after && InWaitSet(after[t]) ==> t in before && before[t] == after[t]
    ensures wake == All ==> forall t :: t in after ==> !InWaitSet(after[t])
  {
    if wake == One && w in before && InWaitSet(before[w]) {
      SetStatus(before, w, Woken(before[w]));
    } else if wake == All {
      assert forall t :: t in before ==> after[t] == Woken(before[t]);
      assert Pushers(after) == Pushers(before);
      assert Poppers(after) == Poppers(before);
      Subset(WokenPops(before), WokenPops(after));
    }
  }

  lemma Subset(a: set<int>, b: set<int>)
    requires a <= b
    ensures |a| <= |b|
  {
    assert b == a + (b - a);
  }

  // With no producer in the wait set, a signal goes to a consumer.
  lemma SignalReachesConsumer<T(!new)>(before: map<int, Status<T>>, w: int, after: map<int, Status<T>>, c: int)
    requires WakeUp(before, One, w, after)
    requires forall t :: t in before ==> !before[t].PushWait?
    requires c in before && before[c] == PopWait
    ensures w in before && before[w] == PopWait && after[w] == PopWoken
    ensures |WokenPops(after)| == |WokenPops(before)| + 1
  {
    assert InWaitSet(before[c]);
    SetStatus(before, w, PopWoken);
  }

  lemma PushKeepsCounts<T(!new)>(s: Sys<T>, t: int, x: T, w: int, s': Sys<T>)
    requires Counted(s) && PushStep(s, t, x, w, s')
    ensures Counted(s')
  {
    var c := if s.threads[t] == Outside then s.core else s.core.(pWait := s.core.pWait - 1);
    var (c', out, wake) := PushCore(c, x);
    var mid := s.threads[t := if out == Wait then PushWait(x) else Outside];
    SetStatus(s.threads, t, mid[t]);
    WakeCounts(mid, if out == Wait then NoWake else wake, w, s'.threads);
  }

  // What goes in while consumers wait wakes one of them.
  lemma PushServesPoppers<T(!new)>(s: Sys<T>, t: int, x: T, w: int, s': Sys<T>)
    requires Inv(s) && PushStep(s, t, x, w, s')
    ensures PoppersServed(s')
  {
    var c := if s.threads[t] == Outside then s.core else s.core.(pWait := s.core.pWait - 1);
    var (c', out, wake) := PushCore(c, x);
    var mid := s.threads[t := if out == Wait then PushWait(x) else Outside];
    SetStatus(s.threads, t, mid[t]);
    WakeCounts(mid, if out == Wait then NoWake else wake, w, s'.threads);
    if out == Accepted {
      if s.core.cWait <= 0 {
        NoPoppers(s);
      } else if p :| p in mid && mid[p].PopWait? {
        SignalReachesConsumer(mid, w, s'.threads, p);
      }
    }
  }

  lemma PushKeepsInv<T(!new)>(s: Sys<T>, t: int, x: T, w: int, s': Sys<T>)
    requires Inv(s) && PushStep(s, t, x, w, s')
    ensures Inv(s')
  {
    PushKeepsCounts(s, t, x, w, s');
    PushServesPoppers(s, t, x, w, s');
    var c := if s.threads[t] == Outside then s.core else s.core.(pWait := s.core.pWait - 1);
    var (c', out, wake) := PushCore(c, x);
    var mid := s.threads[t := if out == Wait then PushWait(x) else Outside];
    WakeCounts(mid, if out == Wait then NoWake else wake, w, s'.threads);
  }

  lemma PopKeepsCounts<T(!new)>(s: Sys<T>, t: int, s': Sys<T>)
    requires Counted(s) && PopStep(s, t, s')
    ensures Counted(s')
  {
    var c := if s.threads[t] == Outside then s.core else s.core.(cWait := s.core.cWait - 1);
    var (c', out, wake) := PopCore(c);
    var mid := s.threads[t := if out == Wait then PopWait else Outside];
    SetStatus(s.threads, t, mid[t]);
    WakeCounts(mid, wake, t, s'.threads);
  }

  // A woken consumer that takes an element is one less of both; it waits again
  // only when there is nothing to take.
  lemma PopServesPoppers<T(!new)>(s: Sys<T>, t: int, s': Sys<T>)
    requires Inv(s) && PopStep(s, t, s')
    ensures PoppersServed(s')
  {
    var c := if s.threads[t] == Outside then s.core else s.core.(cWait := s.core.cWait - 1);
    var (c', out, wake) := PopCore(c);
    var mid := s.threads[t := if out == Wait then PopWait else Outside];
    SetStatus(s.threads, t, mid[t]);
    WakeCounts(mid, wake, t, s'.threads);
  }

  // No producer waits while the counter says that none does; a pop that makes
  // room wakes all others.
  lemma PopUnblocksPushers<T(!new)>(s: Sys<T>, t: int, s': Sys<T>)
    requires Inv(s) && PopStep(s, t, s')
    ensures PushersBlocked(s') && Fifo(s')
  {
    var c := if s.threads[t] == Outside then s.core else s.core.(cWait := s.core.cWait - 1);
    var (c', out, wake) := PopCore(c);
    var mid := s.threads[t := if out == Wait then PopWait else Outside];
    WakeCounts(mid, wake, t, s'.threads);
    if s.core.pWait <= 0 {
      NoPushers(s);
    }
  }

  lemma NoPushers<T>(s: Sys<T>)
    requires Counted(s) && s.core.pWait <= 0
    ensures forall t :: t in s.threads ==> !s.threads[t].PushWait?
  {
    assert Pushers(s.threads) == {};
    assert forall t :: t in s.threads && s.threads[t].PushWait? ==> t in Pushers(s.threads);
  }

  lemma CloseKeepsInv<T(!new)>(s: Sys<T>, t: int, s': Sys<T>)
    requires Inv(s) && CloseStep(s, t, s')
    ensures Inv(s')
  {
    var (c', wake) := CloseCore(s.core);
    WakeCounts(s.threads, wake, t, s'.threads);
    if s.core.cWait <= 0 {
      NoPoppers(s);
    }
  }

  lemma NoPoppers<T>(s: Sys<T>)
    requires Counted(s) && s.core.cWait <= 0
    ensures forall t :: t in s.threads ==> !s.threads[t].PopWait?
  {
    assert Poppers(s.threads) == {};
    assert forall t :: t in s.threads && s.threads[t].PopWait? ==> t in Poppers(s.threads);
  }

  lemma SpuriousKeepsInv<T(!new)>(s: Sys<T>, wake: Wake, w: int, s': Sys<T>)
    requires Inv(s) && SpuriousStep(s, wake, w, s')
    ensures Inv(s')
  {
    WakeCounts(s.threads, wake, w, s'.threads);
  }

  lemma NextKeepsInv<T(!new)>(s: Sys<T>, s': Sys<T>)
    requires Inv(s) && Next(s, s')
    ensures Inv(s')
  {
    if t, x, w :| PushStep(s, t, x, w, s') {
      PushKeepsInv(s, t, x, w, s');
    } else if t :| PopStep(s, t, s') {
      PopKeepsCounts(s, t, s');
      PopServesPoppers(s, t, s');
      PopUnblocksPushers(s, t, s');
    } else if t :| CloseStep(s, t, s') {
      CloseKeepsInv(s, t, s');
    } else if wake, w :| SpuriousStep(s, wake, w, s') {
      SpuriousKeepsInv(s, wake, w, s');
    }
  }

  lemma NobodyThere<T>(threads: map<int, Status<T>>)
    requires forall t :: t in threads ==> threads[t] == Outside
    ensures Poppers(threads) == {} && Pushers(threads) == {}
  {
    assert forall t :: t in threads ==> threads[t] == Outside;
  }

  lemma NobodyWoken<T>(threads: map<int, Status<T>>)
    requires forall t :: t in threads ==> !threads[t].PopWoken?
    ensures WokenPops(threads) == {}
  {
    assert forall t :: t in threads ==> threads[t] != PopWoken;
  }

  // ---- Main results ------------------------------------------------------

  // Every state of every run satisfies the invariant.
  lemma {:induction false} RunKeepsInv<T(!new)>(r: seq<Sys<T>>, i: nat)
    requires Run(r) && i < |r|
    ensures Inv(r[i])
  {
    if i == 0 {
      NobodyThere(r[0].threads);
    } else {
      RunKeepsInv(r, i - 1);
      NextKeepsInv(r[i - 1], r[i]);
    }
  }

  // Nobody sleeps with work to do: when no thread is on its way back from the
  // wait set, consumers wait only on an empty open queue, producers only on a
  // full one, and so never both.
  lemma NoLostWakeup<T(!new)>(r: seq<Sys<T>>, i: nat)
    requires Run(r) && i < |r|
    requires forall t :: t in r[i].threads ==> !r[i].threads[t].PopWoken? && !r[i].threads[t].PushWoken?
    ensures forall t :: t in r[i].threads && r[i].threads[t].PopWait? ==> r[i].core.items == [] && !r[i].core.closed
    ensures forall t :: t in r[i].threads && r[i].threads[t].PushWait? ==> |r[i].core.items| == r[i].core.capacity
    ensures forall t, u :: t in r[i].threads && u in r[i].threads && r[i].threads[t].PopWait? ==>
      !r[i].threads[u].PushWait?
  {
    RunKeepsInv(r, i);
    NobodyWoken(r[i].threads);
  }

  // After closing, pops drain the queue and report the end only when every
  // accepted element is out.
  lemma ClosedMeansDrained<T(!new)>(r: seq<Sys<T>>, i: nat, t: int)
    requires Run(r) && i + 1 < |r| && PopStep(r[i], t, r[i + 1])
    requires PopCore(r[i].core).1 == Closed
    ensures r[i].core.closed && r[i].popped == r[i].accepted == r[i + 1].popped
  {
    RunKeepsInv(r, i);
  }

  // The popped elements are the first of the accepted ones, in order.
  lemma PoppedIsPrefix<T(!new)>(r: seq<Sys<T>>, i: nat)
    requires Run(r) && i < |r|
    ensures r[i].popped <= r[i].accepted
    ensures |r[i].accepted| - |r[i].popped| <= r[i].core.capacity
  {
    RunKeepsInv(r, i);
  }

  // No accepted element is lost or changed by a step: the history only grows.
  lemma HistoryGrows<T(!new)>(r: seq<Sys<T>>, i: nat, j: nat)
    requires Run(r) && i <= j < |r|
    ensures r[i].accepted <= r[j].accepted && r[i].popped <= r[j].popped
  {
    if i < j {
      HistoryGrows(r, i, j - 1);
      assert Next(r[j - 1], r[j]);
    }
  }
}
