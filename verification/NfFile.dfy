/**
 Writing a file with nffile.c: a producer fills blocks and pushes them on a
 queue, writer threads take them off and write them, and at the end the file
 gets its appendix and its header. Every action is one step; steps of different
 threads come in any order.
 */
module NfFile {
  import opened NfBlock
  import opened Wrappers
  import NfStat

  // Where a writer thread is in nfwriter and nfwrite: before queue_pop, with a
  // block, with the block compressed, holding the lock, past write(), past the
  // unlock, and gone.
  datatype Writer = Ready | Holds(b: Block) | Packed(b: Block) | Locked(b: Block) | Wrote | Spent | Exited

  // Where the main thread is: filling blocks, waiting in queue_sync, joining
  // writer `i`, writing the appendix, writing the header, done.
  datatype Main = Filling | Syncing | Joining(i: nat) | Appending | Heading | Closed(numBlocks: int)

  datatype State = State(
    cur: Option<Block>, queue: seq<Block>, closed: bool,
    writers: seq<Writer>, lock: Option<nat>,
    disk: seq<Block>, numBlocks: int, offAppendix: nat, blocksInUse: int,
    main: Main,
    pushed: seq<Block>, appended: seq<Byte>, appendix: seq<Block>)

  // `joinable` is NumWorkers: the slots FlushFile looks at. `before` are
  // the blocks of a file that is appended to.
  datatype Config = Config(codec: Codec, compressed: bool, started: nat, joinable: nat, before: seq<Block>, tail: Block)

  datatype Act =
    | Append(rec: seq<Byte>) | Take(b: Block) | WriteBlock | FlushBlock | CloseQueue | Sync | Join | Seek | Appendix
      | Header
    | Pop(w: nat) | Quit(w: nat) | Pack(w: nat) | Lock(w: nat) | Write(w: nat) | Unlock(w: nat) | Free(w: nat)

  const EMPTY := Block(0, [])
  const MAXRECORD := 0xFFFF

  // OpenNewFile, or AppendFile once the old appendix is cut off.
  function Init(cfg: Config): State {
    State(None, [], false, seq(cfg.started, _ => Ready), None, cfg.before, |cfg.before|, 0, 0, Filling, [], [], [])
  }

  function Push(s: State, b: Block): State {
    s.(queue := s.queue + [b], pushed := s.pushed + [b])
  }

  // WriteBlock: a block with records goes to the writers.
  function DoWriteBlock(s: State): State {
    match s.cur
    case None => s.(cur := Some(EMPTY), blocksInUse := s.blocksInUse + 1)
    case Some(b) =>
      if |b.data| != 0 then Push(s, b).(cur := Some(EMPTY), blocksInUse := s.blocksInUse + 1)
        else s.(cur := Some(EMPTY))
  }

  // FlushBlock.
  function DoFlushBlock(s: State): State {
    match s.cur
    case None => s
    case Some(b) =>
      if |b.data| != 0 then Push(s, b).(cur := None) else s.(cur := None, blocksInUse := s.blocksInUse - 1)
  }

  function AddRecord(b: Block, rec: seq<Byte>): Block {
    Block(b.numRecords + 1, b.data + rec)
  }

  // AppendToBuffer.
  function DoAppend(s: State, rec: seq<Byte>): State
    requires s.cur.Some?
  {
    var s1 := if |s.cur.value.data| + |rec| < WRITE_BUFFSIZE then s else DoWriteBlock(s);
    s1.(cur := Some(AddRecord(s1.cur.value, rec)), appended := s1.appended + rec)
  }

  predicate Enabled(cfg: Config, s: State, a: Act) {
    match a
    case Append(rec) => s.main.Filling? && s.cur.Some? && 0 < |rec| <= MAXRECORD
    case Take(b) => s.main.Filling? && s.cur.None? && Sane(b) && b.numRecords <= |b.data|
    case WriteBlock => s.main.Filling?
    case FlushBlock => s.main.Filling?
    case CloseQueue => s.main.Filling? && s.cur.None?
    case Sync => s.main.Syncing? && s.queue == []
    case Join => s.main.Joining? && s.main.i < cfg.joinable && (s.main.i < |s.writers| ==> s.writers[s.main.i].Exited?)
    case Seek => s.main == Joining(cfg.joinable)
    case Appendix => s.main.Appending? && s.lock.None?
    case Header => s.main.Heading?
    case Pop(w) => w < |s.writers| && s.writers[w].Ready? && s.queue != []
    case Quit(w) => w < |s.writers| && s.writers[w].Ready? && s.queue == [] && s.closed
    case Pack(w) => w < |s.writers| && s.writers[w].Holds?
    case Lock(w) => w < |s.writers| && s.writers[w].Packed? && s.lock.None?
    case Write(w) => w < |s.writers| && s.writers[w].Locked?
    case Unlock(w) => w < |s.writers| && s.writers[w].Wrote?
    case Free(w) => w < |s.writers| && s.writers[w].Spent?
  }

  function Set(s: State, w: nat, to: Writer): State
    requires w < |s.writers|
  {
    s.(writers := s.writers[w := to])
  }

  function Do(cfg: Config, s: State, a: Act): State
    requires Enabled(cfg, s, a)
  {
    var extra := if cfg.compressed then 1 else 0;
    match a
    case Append(rec) => DoAppend(s, rec)
    // RenameAppend: a block of the other file.
    case Take(b) => Push(s, b).(blocksInUse := s.blocksInUse + 1, appended := s.appended + b.data)
    case WriteBlock => DoWriteBlock(s)
    case FlushBlock => DoFlushBlock(s)
    // CloseUpdateFile: FlushFile, WriteAppendix, and the header.
    case CloseQueue => s.(closed := true, main := Syncing)
    case Sync => s.(main := Joining(0))
    case Join => s.(main := Joining(s.main.i + 1))
    case Seek => s.(main := Appending, offAppendix := FILE_HEADER + DiskSize(cfg, s.disk))
    case Appendix => s.(main := Heading, disk := s.disk + [cfg.tail], numBlocks := s.numBlocks + 1,
      appendix := [cfg.tail])
    case Header => s.(main := Closed(s.numBlocks - 1), numBlocks := s.numBlocks - 1)
    // nfwriter and nfwrite.
    case Pop(w) => Set(s, w, Holds(s.queue[0])).(queue := s.queue[1..])
    case Quit(w) => Set(s, w, Exited)
    case Pack(w) => Set(s, w, Packed(s.writers[w].b)).(blocksInUse := s.blocksInUse + extra)
    case Lock(w) => Set(s, w, Locked(s.writers[w].b)).(lock := Some(w))
    case Write(w) => Set(s, w, Wrote).(disk := s.disk + [s.writers[w].b], blocksInUse := s.blocksInUse - extra)
    case Unlock(w) => Set(s, w, Spent).(numBlocks := s.numBlocks + 1, lock := None)
    case Free(w) => Set(s, w, Ready).(blocksInUse := s.blocksInUse - 1)
  }

  // How many bytes the blocks take up on disk.
  function DiskSize(cfg: Config, bs: seq<Block>): nat {
    if bs == [] then 0 else DiskSize(cfg, bs[..|bs| - 1]) + BLOCK_HEADER + |cfg.codec.comp(bs[|bs| - 1].data)|
  }

  // `s` leads to `s'` by some actions.
  ghost predicate Run(cfg: Config, s: State, acts: seq<Act>, s': State)
    decreases |acts|
  {
    if acts == [] then s == s' else Enabled(cfg, s, acts[0]) && Run(cfg, Do(cfg, s, acts[0]), acts[1..], s')
  }

  // ---- What every run keeps -----------------------------------------------

  // What the writers have in hand: copies of `x` not yet on disk, blocks in
  // memory, and blocks on disk but not counted.
  datatype Tally = Tally(held: int, live: int, uncounted: int)

  function Of(w: Writer, compressed: bool, x: Block): Tally {
    var extra := if compressed then 1 else 0;
    match w
    case Ready => Tally(0, 0, 0)
    case Holds(b) => Tally(if b == x then 1 else 0, 1, 0)
    case Packed(b) => Tally(if b == x then 1 else 0, 1 + extra, 0)
    case Locked(b) => Tally(if b == x then 1 else 0, 1 + extra, 0)
    case Wrote => Tally(0, 1, 1)
    case Spent => Tally(0, 1, 0)
    case Exited => Tally(0, 0, 0)
  }

  function All(ws: seq<Writer>, compressed: bool, x: Block): Tally {
    if ws == [] then Tally(0, 0, 0) else
      var t, r := Of(ws[0], compressed, x), All(ws[1..], compressed, x);
      Tally(t.held + r.held, t.live + r.live, t.uncounted + r.uncounted)
  }

  lemma {:induction false} AllAfterSet(ws: seq<Writer>, w: nat, to: Writer, c: bool, x: Block)
    requires w < |ws|
    ensures
      var r, r', t, t' := All(ws, c, x), All(ws[w := to], c, x), Of(ws[w], c, x), Of(to, c, x);
      && r'.held + t.held == r.held + t'.held && r'.live + t.live == r.live + t'.live
      && r'.uncounted + t.uncounted == r.uncounted + t'.uncounted
  {
    if 0 < w {
      assert ws[w := to][1..] == ws[1..][w - 1 := to];
      AllAfterSet(ws[1..], w - 1, to, c, x);
    } else {
      assert ws[w := to][1..] == ws[1..];
    }
  }

  lemma {:induction false} AllAtRest(ws: seq<Writer>, c: bool, x: Block)
    requires forall w :: 0 <= w < |ws| ==> ws[w].Exited? || ws[w].Ready?
    ensures All(ws, c, x) == Tally(0, 0, 0)
  {
    if ws != [] {
      AllAtRest(ws[1..], c, x);
    }
  }

  // No block is lost or made up on the way from the producer to the disk:
  // there are as many copies of `x` on both sides. And the counters are right:
  // blocks in the file, and blocks in memory.
  ghost predicate Balanced(cfg: Config, s: State, x: Block) {
    var t := All(s.writers, cfg.compressed, x);
    && multiset(s.disk)[x] + t.held + multiset(s.queue)[x]
       == multiset(cfg.before)[x] + multiset(s.pushed)[x] + multiset(s.appendix)[x]
    && s.numBlocks + t.uncounted == |s.disk| - (if s.main.Closed? then 1 else 0)
    && s.blocksInUse == t.live + |s.queue| + if s.cur.Some? then 1 else 0
  }

  // Who is between lock and unlock has the lock.
  ghost predicate Exclusive(s: State) {
    forall w :: 0 <= w < |s.writers| ==> (s.writers[w].Locked? || s.writers[w].Wrote? <==> s.lock == Some(w))
  }

  function Flatten(bs: seq<Block>): seq<Byte> {
    if bs == [] then [] else Flatten(bs[..|bs| - 1]) + bs[|bs| - 1].data
  }

  // The bytes of all records are in the blocks, in order.
  ghost predicate InOrder(s: State) {
    s.appended == Flatten(s.pushed) + if s.cur.Some? then s.cur.value.data else []
  }

  // Blocks fit their buffer; what is pushed has records.
  ghost predicate Fit(cfg: Config, s: State) {
    && (forall b :: b in s.pushed ==> 0 < |b.data| < WRITE_BUFFSIZE && 0 < b.numRecords <= |b.data|)
    && (s.cur.Some? ==> var b := s.cur.value;
      |b.data| < WRITE_BUFFSIZE && b.numRecords <= |b.data| && (b.numRecords == 0 <==> b.data == []))
  }

  // After the queue was closed, it runs empty and the writers go.
  ghost predicate Ending(cfg: Config, s: State) {
    && (s.closed <==> !s.main.Filling?)
    && (!s.main.Filling? ==> s.cur.None?)
    && (!s.main.Filling? && !s.main.Syncing? ==> s.queue == [])
    && (s.main.Joining? ==> s.main.i <= cfg.joinable)
    && (forall w :: 0 <= w < |s.writers| && Joined(cfg, s, w) ==> s.writers[w].Exited?)
    && s.appendix == (if s.main.Heading? || s.main.Closed? then [cfg.tail] else [])
    && |s.writers| == cfg.started && cfg.before <= s.disk
  }

  // All writers were joined: nothing moves any more when the appendix is
  // written.
  ghost predicate Tailed(cfg: Config, s: State) {
    && (s.main.Appending? ==> s.offAppendix == FILE_HEADER + DiskSize(cfg, s.disk))
    && (s.main.Heading? || s.main.Closed? ==>
         && s.disk != [] && s.disk[|s.disk| - 1] == cfg.tail
         && s.offAppendix == FILE_HEADER + DiskSize(cfg, s.disk[..|s.disk| - 1]))
    && (s.main.Closed? ==> s.main.numBlocks == s.numBlocks)
  }

  // FlushFile has waited for this writer.
  predicate Joined(cfg: Config, s: State, w: nat) {
    match s.main
    case Filling => false
    case Syncing => false
    case Joining(i) => w < i
    case _ => w < cfg.joinable
  }

  ghost predicate Inv(cfg: Config, s: State) {
    && (forall x :: Balanced(cfg, s, x))
    && Exclusive(s) && InOrder(s) && Fit(cfg, s) && Ending(cfg, s)
    && (cfg.started <= cfg.joinable ==> Tailed(cfg, s))
  }

  lemma InitInv(cfg: Config)
    ensures Inv(cfg, Init(cfg))
  {
    forall x
      ensures Balanced(cfg, Init(cfg), x)
    {
      AllAtRest(Init(cfg).writers, cfg.compressed, x);
    }
  }

  predicate OfWriter(a: Act) {
    a.Pop? || a.Quit? || a.Pack? || a.Lock? || a.Write? || a.Unlock? || a.Free?
  }

  lemma PopStep(cfg: Config, s: State, w: nat, x: Block)
    requires Balanced(cfg, s, x) && Enabled(cfg, s, Pop(w))
    ensures Balanced(cfg, Do(cfg, s, Pop(w)), x)
  {
    AllAfterSet(s.writers, w, Holds(s.queue[0]), cfg.compressed, x);
    assert s.queue == [s.queue[0]] + s.queue[1..];
    assert multiset(s.queue)[x] == (if s.queue[0] == x then 1 else 0) + multiset(s.queue[1..])[x];
  }

  lemma WriteStep(cfg: Config, s: State, w: nat, x: Block)
    requires Balanced(cfg, s, x) && Enabled(cfg, s, Write(w))
    ensures Balanced(cfg, Do(cfg, s, Write(w)), x)
  {
    AllAfterSet(s.writers, w, Wrote, cfg.compressed, x);
  }

  // A writer goes on without moving a block.
  lemma SetStep(cfg: Config, s: State, s': State, w: nat, x: Block)
    requires Balanced(cfg, s, x) && w < |s.writers| == |s'.writers| && s'.writers == s.writers[w := s'.writers[w]]
    requires s'.disk == s.disk && s'.queue == s.queue && s'.pushed == s.pushed && s'.appendix == s.appendix
    requires s'.main == s.main && s'.cur == s.cur
    requires
      var t, t' := Of(s.writers[w], cfg.compressed, x), Of(s'.writers[w], cfg.compressed, x);
      t'.held == t.held && s'.numBlocks + t'.uncounted == s.numBlocks + t.uncounted
      && s'.blocksInUse - t'.live == s.blocksInUse - t.live
    ensures Balanced(cfg, s', x)
  {
    AllAfterSet(s.writers, w, s'.writers[w], cfg.compressed, x);
  }

  lemma OtherStep(cfg: Config, s: State, a: Act, x: Block)
    requires Balanced(cfg, s, x) && Enabled(cfg, s, a) && (a.Quit? || a.Pack? || a.Lock? || a.Unlock? || a.Free?)
    ensures Balanced(cfg, Do(cfg, s, a), x)
  {
    hide All, Balanced;
    SetStep(cfg, s, Do(cfg, s, a), a.w, x);
  }

  lemma WriterStep(cfg: Config, s: State, a: Act, x: Block)
    requires Balanced(cfg, s, x) && Enabled(cfg, s, a) && OfWriter(a)
    ensures Balanced(cfg, Do(cfg, s, a), x)
  {
    if a.Pop? {
      PopStep(cfg, s, a.w, x);
    } else if a.Write? {
      WriteStep(cfg, s, a.w, x);
    } else {
      OtherStep(cfg, s, a, x);
    }
  }

  lemma AppendStep(cfg: Config, s: State, rec: seq<Byte>, x: Block)
    requires Balanced(cfg, s, x) && s.cur.Some?
    ensures Balanced(cfg, DoAppend(s, rec), x)
  {
  }

  lemma MainStep(cfg: Config, s: State, a: Act, x: Block)
    requires Balanced(cfg, s, x) && Ending(cfg, s) && Enabled(cfg, s, a) && !OfWriter(a)
    ensures Balanced(cfg, Do(cfg, s, a), x)
  {
    if a.Append? {
      AppendStep(cfg, s, a.rec, x);
    } else if a.Appendix? || a.Header? {
      TailStep(cfg, s, a, x);
    } else {
      hide Balanced, All;
      var bs := if a.Take? then [a.b] else if (a.WriteBlock? || a.FlushBlock?) && s.cur.Some?
        && s.cur.value.data != [] then [s.cur.value] else [];
      assert s.queue + [] == s.queue && s.pushed + [] == s.pushed;
      QueueStep(cfg, s, Do(cfg, s, a), bs, x);
    }
  }

  lemma TailStep(cfg: Config, s: State, a: Act, x: Block)
    requires Balanced(cfg, s, x) && Ending(cfg, s) && Enabled(cfg, s, a) && (a.Appendix? || a.Header?)
    ensures Balanced(cfg, Do(cfg, s, a), x)
  {
    hide All;
  }

  // At most one block is pushed; nothing else moves.
  lemma QueueStep(cfg: Config, s: State, s': State, bs: seq<Block>, x: Block)
    requires Balanced(cfg, s, x) && s'.writers == s.writers && s'.disk == s.disk && s'.numBlocks == s.numBlocks
    requires s'.appendix == s.appendix && s'.main.Closed? == s.main.Closed?
    requires |bs| <= 1 && s'.queue == s.queue + bs && s'.pushed == s.pushed + bs
    requires s'.blocksInUse - |s'.queue| - (if s'.cur.Some? then 1 else 0)
      == s.blocksInUse - |s.queue| - (if s.cur.Some? then 1 else 0)
    ensures Balanced(cfg, s', x)
  {
    hide All;
  }

  lemma StepKeepsTail(cfg: Config, s: State, a: Act)
    requires cfg.started <= cfg.joinable && Tailed(cfg, s) && Ending(cfg, s) && Enabled(cfg, s, a)
    ensures Tailed(cfg, Do(cfg, s, a))
  {
    if a.Appendix? {
      assert Do(cfg, s, a).disk[..|s.disk|] == s.disk;
    }
  }

  lemma StepKeepsLock(cfg: Config, s: State, a: Act)
    requires Exclusive(s) && Enabled(cfg, s, a)
    ensures Exclusive(Do(cfg, s, a))
  {
  }

  lemma FlattenSnoc(bs: seq<Block>, b: Block)
    ensures Flatten(bs + [b]) == Flatten(bs) + b.data
  {
    assert (bs + [b])[..|bs|] == bs;
  }

  lemma StepKeepsOrder(cfg: Config, s: State, a: Act)
    requires InOrder(s) && Fit(cfg, s) && Enabled(cfg, s, a)
    ensures InOrder(Do(cfg, s, a)) && Fit(cfg, Do(cfg, s, a))
  {
    hide InOrder, Fit, DiskSize;
    if a.Append? {
      AppendKeepsOrder(cfg, s, a.rec);
    } else if a.Take? {
      TakeKeepsOrder(cfg, s, a.b);
    } else if a.WriteBlock? {
      WriteKeepsOrder(cfg, s);
    } else if a.FlushBlock? {
      FlushKeepsOrder(cfg, s);
    } else {
      SameOrder(cfg, s, Do(cfg, s, a));
    }
  }

  lemma SameOrder(cfg: Config, s: State, s': State)
    requires InOrder(s) && Fit(cfg, s) && s'.cur == s.cur && s'.pushed == s.pushed && s'.appended == s.appended
    ensures InOrder(s') && Fit(cfg, s')
  {
  }

  lemma TakeKeepsOrder(cfg: Config, s: State, b: Block)
    requires InOrder(s) && Fit(cfg, s) && Enabled(cfg, s, Take(b))
    ensures InOrder(Do(cfg, s, Take(b))) && Fit(cfg, Do(cfg, s, Take(b)))
  {
    hide Flatten;
    FlattenSnoc(s.pushed, b);
  }

  lemma FlushKeepsOrder(cfg: Config, s: State)
    requires InOrder(s) && Fit(cfg, s)
    ensures InOrder(DoFlushBlock(s)) && Fit(cfg, DoFlushBlock(s))
  {
    hide Flatten;
    if s.cur.Some? {
      FlattenSnoc(s.pushed, s.cur.value);
    }
  }

  lemma AppendKeepsOrder(cfg: Config, s: State, rec: seq<Byte>)
    requires InOrder(s) && Fit(cfg, s) && s.cur.Some? && 0 < |rec| <= MAXRECORD
    ensures InOrder(DoAppend(s, rec)) && Fit(cfg, DoAppend(s, rec))
    // A block is pushed exactly if the record does not fit behind what it has.
    ensures DoAppend(s, rec).pushed ==
      if |s.cur.value.data| + |rec| < 2097152 then s.pushed else s.pushed + [s.cur.value]
  {
    hide Flatten;
    if |s.cur.value.data| + |rec| < WRITE_BUFFSIZE {
      RecordAdded(cfg, s, rec);
    } else {
      WriteKeepsOrder(cfg, s);
      RecordAdded(cfg, DoWriteBlock(s), rec);
    }
  }

  lemma WriteKeepsOrder(cfg: Config, s: State)
    requires InOrder(s) && Fit(cfg, s)
    ensures InOrder(DoWriteBlock(s)) && Fit(cfg, DoWriteBlock(s)) && DoWriteBlock(s).cur == Some(EMPTY)
  {
    hide Flatten;
    if s.cur.Some? {
      FlattenSnoc(s.pushed, s.cur.value);
    }
  }

  lemma RecordAdded(cfg: Config, s: State, rec: seq<Byte>)
    requires InOrder(s) && Fit(cfg, s) && s.cur.Some? && 0 < |rec| && |s.cur.value.data| + |rec| < WRITE_BUFFSIZE
    ensures var s' := s.(cur := Some(AddRecord(s.cur.value, rec)), appended := s.appended + rec);
      InOrder(s') && Fit(cfg, s')
  {
    hide Flatten;
    InThree(Flatten(s.pushed), s.cur.value.data, rec);
  }

  lemma InThree(a: seq<Byte>, b: seq<Byte>, c: seq<Byte>)
    ensures a + b + c == a + (b + c)
  {
  }

  // ---- How many records a block says it has --------------------------------

  // What the producer was given, one after the other: records, and with
  // RenameAppend whole blocks.
  datatype Part = Rec(bytes: seq<Byte>) | Whole(b: Block)

  function Parts(acts: seq<Act>): seq<Part> {
    if acts == [] then [] else
      (if acts[0].Append? then [Rec(acts[0].rec)] else if acts[0].Take? then [Whole(acts[0].b)] else [])
      + Parts(acts[1..])
  }

  function Concat(ps: seq<Part>): seq<Byte> {
    if ps == [] then [] else
      var p := ps[|ps| - 1];
      Concat(ps[..|ps| - 1]) + if p.Rec? then p.bytes else p.b.data
  }

  function Flat(pss: seq<seq<Part>>): seq<Part> {
    if pss == [] then [] else Flat(pss[..|pss| - 1]) + pss[|pss| - 1]
  }

  // A block that was filled from these records: their bytes, and their number.
  ghost predicate Filled(b: Block, ps: seq<Part>) {
    (forall p :: p in ps ==> p.Rec? && p.bytes != []) && b.numRecords == |ps| && b.data == Concat(ps)
  }

  // All parts in order: first those of the blocks that were pushed, each filled
  // from records that follow one another or taken whole, then those of the
  // current block.
  ghost predicate Divided(ps: seq<Part>, pushed: seq<Block>, cur: Option<Block>, groups: seq<seq<Part>>,
      last: seq<Part>) {
    && ps == Flat(groups) + last && |groups| == |pushed|
    && (forall i :: 0 <= i < |pushed| ==> groups[i] == [Whole(pushed[i])] || Filled(pushed[i], groups[i]))
    && (match cur case None => last == [] case Some(b) => Filled(b, last))
  }

  lemma FlatSnoc(pss: seq<seq<Part>>, ps: seq<Part>)
    ensures Flat(pss + [ps]) == Flat(pss) + ps
  {
    assert (pss + [ps])[..|pss|] == pss;
  }

  lemma {:induction false} ConcatEmpty(ps: seq<Part>)
    requires forall p :: p in ps ==> p.Rec? && p.bytes != []
    ensures Concat(ps) == [] <==> ps == []
  {
    if ps != [] {
      assert ps[|ps| - 1] in ps;
    }
  }

  // The current block is pushed, if it has records.
  lemma CurrentPushed(ps: seq<Part>, s: State, s': State, groups: seq<seq<Part>>, last: seq<Part>)
    returns (groups': seq<seq<Part>>)
    requires Divided(ps, s.pushed, s.cur, groups, last)
    requires s'.cur == None || s'.cur == Some(EMPTY)
    requires s'.pushed == if s.cur.Some? && s.cur.value.data != [] then s.pushed + [s.cur.value] else s.pushed
    ensures Divided(ps, s'.pushed, s'.cur, groups', [])
  {
    hide Concat, Flat;
    NoParts();
    assert Flat(groups) + last + [] == Flat(groups) + last;
    if s.cur.Some? && s.cur.value.data != [] {
      groups' := groups + [last];
      FlatSnoc(groups, last);
    } else {
      groups' := groups;
      if s.cur.Some? {
        ConcatEmpty(last);
      }
    }
  }

  lemma NoParts()
    ensures Concat([]) == [] && Flat([]) == []
  {
  }

  // A record goes into the current block.
  lemma RecordCounted(ps: seq<Part>, s: State, rec: seq<Byte>, groups: seq<seq<Part>>, last: seq<Part>)
    requires Divided(ps, s.pushed, s.cur, groups, last) && s.cur.Some? && rec != []
    ensures Divided(ps + [Rec(rec)], s.pushed, Some(AddRecord(s.cur.value, rec)), groups, last + [Rec(rec)])
  {
    hide Flat;
    assert (last + [Rec(rec)])[..|last|] == last;
    assert Flat(groups) + last + [Rec(rec)] == Flat(groups) + (last + [Rec(rec)]);
  }

  lemma BlockTaken(ps: seq<Part>, s: State, b: Block, groups: seq<seq<Part>>, last: seq<Part>)
    requires Divided(ps, s.pushed, s.cur, groups, last) && s.cur.None?
    ensures Divided(ps + [Whole(b)], s.pushed + [b], s.cur, groups + [[Whole(b)]], [])
  {
    hide Concat, Flat;
    FlatSnoc(groups, [Whole(b)]);
    assert Flat(groups) + [] + [Whole(b)] == Flat(groups) + [Whole(b)] + [];
  }

  // Every step keeps the parts divided among the blocks.
  lemma StepCounts(cfg: Config, s: State, a: Act, ps: seq<Part>, groups: seq<seq<Part>>, last: seq<Part>)
    returns (groups': seq<seq<Part>>, last': seq<Part>)
    requires Enabled(cfg, s, a) && Divided(ps, s.pushed, s.cur, groups, last)
    ensures var s' := Do(cfg, s, a); Divided(ps + Parts([a]), s'.pushed, s'.cur, groups', last')
  {
    hide Divided, DiskSize, AddRecord;
    OnePart(a, ps);
    groups', last' := groups, last;
    if a.Append? {
      if |s.cur.value.data| + |a.rec| < WRITE_BUFFSIZE {
        RecordCounted(ps, s, a.rec, groups, last);
        last' := last + [Rec(a.rec)];
      } else {
        var s1 := DoWriteBlock(s);
        groups' := CurrentPushed(ps, s, s1, groups, last);
        RecordCounted(ps, s1, a.rec, groups', []);
        last' := [] + [Rec(a.rec)];
      }
    } else if a.Take? {
      BlockTaken(ps, s, a.b, groups, last);
      groups', last' := groups + [[Whole(a.b)]], [];
    } else if a.WriteBlock? || a.FlushBlock? {
      groups' := CurrentPushed(ps, s, Do(cfg, s, a), groups, last);
      last' := [];
    }
  }

  lemma OnePart(a: Act, ps: seq<Part>)
    ensures Parts([a]) == if a.Append? then [Rec(a.rec)] else if a.Take? then [Whole(a.b)] else []
    ensures ps + [] == ps
  {
    assert [a][1..] == [];
  }

  lemma {:induction false} RunCounts(cfg: Config, s: State, acts: seq<Act>, s': State, ps: seq<Part>,
      groups: seq<seq<Part>>, last: seq<Part>) returns (groups': seq<seq<Part>>, last': seq<Part>)
    requires Run(cfg, s, acts, s') && Divided(ps, s.pushed, s.cur, groups, last)
    ensures Divided(ps + Parts(acts), s'.pushed, s'.cur, groups', last')
    decreases |acts|
  {
    hide Divided;
    OnePart(CloseQueue, ps);
    if acts == [] {
      groups', last' := groups, last;
    } else {
      groups', last' := StepCounts(cfg, s, acts[0], ps, groups, last);
      FirstPart(acts, ps);
      groups', last' := RunCounts(cfg, Do(cfg, s, acts[0]), acts[1..], s', ps + Parts([acts[0]]), groups', last');
    }
  }

  lemma FirstPart(acts: seq<Act>, ps: seq<Part>)
    requires acts != []
    ensures ps + Parts(acts) == ps + Parts([acts[0]]) + Parts(acts[1..])
  {
    assert [acts[0]][1..] == [];
  }

  // How many records that are.
  function Count(ps: seq<Part>): nat {
    if ps == [] then 0 else
      var p := ps[|ps| - 1];
      Count(ps[..|ps| - 1]) + if p.Rec? then 1 else p.b.numRecords
  }

  function Records(bs: seq<Block>): nat {
    if bs == [] then 0 else Records(bs[..|bs| - 1]) + bs[|bs| - 1].numRecords
  }

  lemma {:induction false} CountConcat(a: seq<Part>, b: seq<Part>)
    ensures Count(a + b) == Count(a) + Count(b)
  {
    if b == [] {
      assert a + b == a;
    } else {
      assert (a + b)[..|a + b| - 1] == a + b[..|b| - 1];
      CountConcat(a, b[..|b| - 1]);
    }
  }

  lemma {:induction false} CountFilled(ps: seq<Part>)
    requires forall p :: p in ps ==> p.Rec?
    ensures Count(ps) == |ps|
  {
    if ps != [] {
      assert ps[|ps| - 1] in ps;
      CountFilled(ps[..|ps| - 1]);
    }
  }

  lemma {:induction false} CountGroups(pushed: seq<Block>, groups: seq<seq<Part>>)
    requires |groups| == |pushed|
    requires forall i :: 0 <= i < |pushed| ==> groups[i] == [Whole(pushed[i])] || Filled(pushed[i], groups[i])
    ensures Count(Flat(groups)) == Records(pushed)
  {
    if pushed != [] {
      var n := |pushed| - 1;
      CountGroups(pushed[..n], groups[..n]);
      CountConcat(Flat(groups[..n]), groups[n]);
      if groups[n] == [Whole(pushed[n])] {
        assert groups[n][..0] == [];
      } else {
        CountFilled(groups[n]);
      }
    }
  }

  // In every run: each block that was pushed, and the current one, is filled
  // from consecutive records, and says how many; all records are in them, in
  // order. So the numbers add up to the records that were appended, and those of
  // the blocks taken over.
  lemma RecordsCounted(cfg: Config, acts: seq<Act>, s: State)
    returns (groups: seq<seq<Part>>, last: seq<Part>)
    requires Run(cfg, Init(cfg), acts, s)
    ensures Divided(Parts(acts), s.pushed, s.cur, groups, last)
    ensures Records(s.pushed) + (if s.cur.Some? then s.cur.value.numRecords else 0) == Count(Parts(acts))
  {
    hide Run, Parts, Concat, Count, Records;
    NoneYet(cfg);
    groups, last := RunCounts(cfg, Init(cfg), acts, s, [], [], []);
    assert [] + Parts(acts) == Parts(acts);
    CountGroups(s.pushed, groups);
    CountConcat(Flat(groups), last);
    if s.cur.Some? {
      CountFilled(last);
    } else {
      CountNone();
    }
  }

  lemma NoneYet(cfg: Config)
    ensures Divided([], Init(cfg).pushed, Init(cfg).cur, [], [])
  {
  }

  lemma CountNone()
    ensures Count([]) == 0
  {
  }

  lemma StepKeepsEnding(cfg: Config, s: State, a: Act)
    requires Ending(cfg, s) && Enabled(cfg, s, a)
    ensures Ending(cfg, Do(cfg, s, a))
  {
  }

  // Every step keeps the invariant.
  lemma StepKeepsInv(cfg: Config, s: State, a: Act)
    requires Inv(cfg, s) && Enabled(cfg, s, a)
    ensures Inv(cfg, Do(cfg, s, a))
  {
    forall x
      ensures Balanced(cfg, Do(cfg, s, a), x)
    {
      if OfWriter(a) {
        WriterStep(cfg, s, a, x);
      } else {
        MainStep(cfg, s, a, x);
      }
    }
    if cfg.started <= cfg.joinable {
      StepKeepsTail(cfg, s, a);
    }
    StepKeepsLock(cfg, s, a);
    StepKeepsOrder(cfg, s, a);
    StepKeepsEnding(cfg, s, a);
  }

  lemma {:induction false} RunKeepsInv(cfg: Config, s: State, acts: seq<Act>, s': State)
    requires Inv(cfg, s) && Run(cfg, s, acts, s')
    ensures Inv(cfg, s')
    decreases |acts|
  {
    if acts != [] {
      StepKeepsInv(cfg, s, acts[0]);
      RunKeepsInv(cfg, Do(cfg, s, acts[0]), acts[1..], s');
    }
  }

  // ---- The finished file --------------------------------------------------

  // A run from the opening of the file to its end.
  ghost predicate Finished(cfg: Config, acts: seq<Act>, s: State) {
    Run(cfg, Init(cfg), acts, s) && s.main.Closed?
  }

  // What CloseUpdateFile is to leave behind: the blocks there were, all that
  // were pushed, then the appendix; the header says how many blocks and where
  // the appendix is; no block is left in memory.
  ghost predicate Complete(cfg: Config, s: State) {
    && s.main.Closed? && s.disk != []
    && var data := s.disk[..|s.disk| - 1];
       && s.disk == data + [cfg.tail] && cfg.before <= data
       && multiset(data) == multiset(cfg.before) + multiset(s.pushed)
       && s.main.numBlocks == |data| && s.offAppendix == FILE_HEADER + DiskSize(cfg, data)
       && s.blocksInUse == 0
  }

  // Whatever the order of steps, the file is complete when all writers have
  // been joined, and every record is in it.
  lemma ClosedIsComplete(cfg: Config, acts: seq<Act>, s: State)
    requires cfg.started <= cfg.joinable && Finished(cfg, acts, s)
    ensures Complete(cfg, s) && Flatten(s.pushed) == s.appended
  {
    hide Run, Inv, Flatten, DiskSize, Init;
    InitInv(cfg);
    RunKeepsInv(cfg, Init(cfg), acts, s);
    ClosedIsTailed(cfg, s);
    var data := s.disk[..|s.disk| - 1];
    forall x
      ensures multiset(data)[x] == multiset(cfg.before)[x] + multiset(s.pushed)[x]
    {
      AtRest(cfg, s, data, x);
    }
    SameBlocks(data, cfg.before, s.pushed);
    AtRest(cfg, s, data, cfg.tail);
    StartsFilling(cfg);
    BeforeIsFirst(cfg, acts, Init(cfg), s);
  }

  lemma {:induction false} RecordsConcat(a: seq<Block>, b: seq<Block>)
    ensures Records(a + b) == Records(a) + Records(b)
  {
    if b == [] {
      assert a + b == a;
    } else {
      assert (a + b)[..|a + b| - 1] == a + b[..|b| - 1];
      RecordsConcat(a, b[..|b| - 1]);
    }
  }

  // One block taken out of the middle.
  lemma RecordsWithout(a: seq<Block>, x: Block, b: seq<Block>)
    ensures Records(a + [x] + b) == Records(a + b) + x.numRecords
  {
    RecordsConcat(a + [x], b);
    RecordsConcat(a, b);
    assert (a + [x])[..|a|] == a;
  }

  lemma SplitAt(x: Block, b: seq<Block>) returns (l: seq<Block>, r: seq<Block>)
    requires x in b
    ensures b == l + [x] + r
  {
    var i :| 0 <= i < |b| && b[i] == x;
    l, r := b[..i], b[i + 1..];
  }

  lemma SameWithout(a: seq<Block>, x: Block, l: seq<Block>, r: seq<Block>)
    requires multiset(a + [x]) == multiset(l + [x] + r)
    ensures multiset(a) == multiset(l + r)
  {
    assert multiset(a + [x]) == multiset(a) + multiset{x};
    assert multiset(l + [x] + r) == multiset(l) + multiset{x} + multiset(r);
    assert multiset(a) == multiset(a) + multiset{x} - multiset{x};
    assert multiset(l + r) == multiset(l) + multiset{x} + multiset(r) - multiset{x};
  }

  // The order does not matter.
  lemma {:induction false} SameRecords(a: seq<Block>, b: seq<Block>)
    requires multiset(a) == multiset(b)
    ensures Records(a) == Records(b)
  {
    hide Records;
    if a == [] {
      assert multiset(b) == multiset(a) == multiset{};
      assert b == [];
    } else {
      var h, x := a[..|a| - 1], a[|a| - 1];
      assert a == h + [x] && a == h + [x] + [];
      assert x in multiset(a);
      var l, r := SplitAt(x, b);
      SameWithout(h, x, l, r);
      RecordsWithout(l, x, r);
      RecordsWithout(h, x, []);
      assert h + [] == h;
      SameRecords(h, l + r);
    }
  }

  // In a file that was closed, the blocks say that they have as many records as
  // there were before, were appended, and came with the blocks taken over.
  lemma ClosedIsCounted(cfg: Config, acts: seq<Act>, s: State)
    requires cfg.started <= cfg.joinable && Finished(cfg, acts, s)
    ensures s.disk != [] && Records(s.disk[..|s.disk| - 1]) == Records(cfg.before) + Count(Parts(acts))
  {
    hide Run, Parts, Divided, Records, Count;
    ClosedIsComplete(cfg, acts, s);
    ClosedIsEmpty(cfg, acts, s);
    var _, _ := RecordsCounted(cfg, acts, s);
    SameRecords(s.disk[..|s.disk| - 1], cfg.before + s.pushed);
    RecordsConcat(cfg.before, s.pushed);
  }

  // No block is being filled then.
  lemma ClosedIsEmpty(cfg: Config, acts: seq<Act>, s: State)
    requires Finished(cfg, acts, s)
    ensures s.cur.None?
  {
    hide Run, Init;
    InitInv(cfg);
    RunKeepsInv(cfg, Init(cfg), acts, s);
  }

  lemma SameBlocks(data: seq<Block>, a: seq<Block>, b: seq<Block>)
    requires forall x :: multiset(data)[x] == multiset(a)[x] + multiset(b)[x]
    ensures multiset(data) == multiset(a) + multiset(b)
  {
    assert forall x :: (multiset(a) + multiset(b))[x] == multiset(a)[x] + multiset(b)[x];
  }

  // What the invariant says of a closed file.
  lemma ClosedIsTailed(cfg: Config, s: State)
    requires Inv(cfg, s) && cfg.started <= cfg.joinable && s.main.Closed?
    ensures s.disk != [] && s.disk == s.disk[..|s.disk| - 1] + [cfg.tail] && Flatten(s.pushed) == s.appended
    ensures s.main.numBlocks == s.numBlocks && s.offAppendix == FILE_HEADER + DiskSize(cfg, s.disk[..|s.disk| - 1])
  {
    hide Balanced, DiskSize, Flatten;
    assert s.appended == Flatten(s.pushed) + [];
  }

  lemma StartsFilling(cfg: Config)
    ensures var s := Init(cfg); s.disk == cfg.before && s.main.Filling?
  {
  }

  // With all writers gone, nothing is on its way.
  lemma AtRest(cfg: Config, s: State, data: seq<Block>, x: Block)
    requires Inv(cfg, s) && cfg.started <= cfg.joinable && s.main.Closed? && s.disk == data + [cfg.tail]
    ensures multiset(data)[x] == multiset(cfg.before)[x] + multiset(s.pushed)[x]
    ensures s.numBlocks == |data| && s.blocksInUse == 0
  {
    assert Balanced(cfg, s, x);
    AllAtRest(s.writers, cfg.compressed, x);
  }

  // The blocks there were stay in front, also of the appendix.
  lemma {:induction false} BeforeIsFirst(cfg: Config, acts: seq<Act>, s: State, s': State)
    requires Run(cfg, s, acts, s') && cfg.before <= s.disk
    requires s.main.Heading? || s.main.Closed? ==> s.disk != [] && cfg.before <= s.disk[..|s.disk| - 1]
    ensures s'.main.Heading? || s'.main.Closed? ==> s'.disk != [] && cfg.before <= s'.disk[..|s'.disk| - 1]
    decreases |acts|
  {
    if acts != [] {
      BeforeIsFirst(cfg, acts[1..], Do(cfg, s, acts[0]), s');
    }
  }

  lemma {:induction false} RunThen(cfg: Config, s: State, acts: seq<Act>, s': State, a: Act)
    requires Run(cfg, s, acts, s') && Enabled(cfg, s', a)
    ensures Run(cfg, s, acts + [a], Do(cfg, s', a))
    decreases |acts|
  {
    if acts != [] {
      RunThen(cfg, Do(cfg, s, acts[0]), acts[1..], s', a);
      assert (acts + [a])[1..] == acts[1..] + [a];
    }
  }

  // A writer that is not joined can still have a block when the header is
  // written.
  lemma MissedBlock(cfg: Config) returns (acts: seq<Act>, s: State)
    requires cfg.joinable < cfg.started
    ensures Finished(cfg, acts, s) && !Complete(cfg, s)
  {
    var b := AddRecord(EMPTY, [0]);
    acts, s := HoldOne(cfg);
    acts, s := QuitJoined(cfg, acts, s, b);
    acts, s := JoinAll(cfg, acts, s, b);
    RunThen(cfg, Init(cfg), acts, s, Seek);
    acts, s := acts + [Seek], Do(cfg, s, Seek);
    RunThen(cfg, Init(cfg), acts, s, Appendix);
    acts, s := acts + [Appendix], Do(cfg, s, Appendix);
    RunThen(cfg, Init(cfg), acts, s, Header);
    acts, s := acts + [Header], Do(cfg, s, Header);
    assert s.disk[..|s.disk| - 1] == cfg.before;
    assert (multiset(cfg.before) + multiset(s.pushed))[b] == multiset(cfg.before)[b] + 1;
  }

  lemma QuitJoined(cfg: Config, acts0: seq<Act>, s0: State, b: Block) returns (acts: seq<Act>, s: State)
    requires Run(cfg, Init(cfg), acts0, s0) && Late(cfg, s0, b) && s0.main == Joining(0)
    requires forall w :: 0 <= w < cfg.joinable ==> s0.writers[w] == Ready
    ensures Run(cfg, Init(cfg), acts, s) && Late(cfg, s, b) && s.main == Joining(0)
    ensures forall w :: 0 <= w < cfg.joinable ==> s.writers[w] == Exited
  {
    acts, s := acts0, s0;
    for i := 0 to cfg.joinable
      invariant Run(cfg, Init(cfg), acts, s) && Late(cfg, s, b) && s.main == Joining(0)
      invariant forall w :: 0 <= w < cfg.joinable ==> s.writers[w] == if w < i then Exited else Ready
    {
      RunThen(cfg, Init(cfg), acts, s, Quit(i));
      acts, s := acts + [Quit(i)], Do(cfg, s, Quit(i));
    }
  }

  lemma JoinAll(cfg: Config, acts0: seq<Act>, s0: State, b: Block) returns (acts: seq<Act>, s: State)
    requires Run(cfg, Init(cfg), acts0, s0) && Late(cfg, s0, b) && s0.main == Joining(0)
    requires forall w :: 0 <= w < cfg.joinable ==> s0.writers[w] == Exited
    ensures Run(cfg, Init(cfg), acts, s) && Late(cfg, s, b) && s.main == Joining(cfg.joinable)
  {
    acts, s := acts0, s0;
    for i := 0 to cfg.joinable
      invariant Run(cfg, Init(cfg), acts, s) && Late(cfg, s, b) && s.main == Joining(i)
      invariant forall w :: 0 <= w < cfg.joinable ==> s.writers[w] == Exited
    {
      RunThen(cfg, Init(cfg), acts, s, Join);
      acts, s := acts + [Join], Do(cfg, s, Join);
    }
  }

  // The first writer that is not joined holds the only block.
  ghost predicate Late(cfg: Config, s: State, b: Block) {
    && s.closed && s.queue == [] && s.lock.None? && s.cur.None? && s.disk == cfg.before && s.pushed == [b]
    && |s.writers| == cfg.started && cfg.joinable < cfg.started && s.writers[cfg.joinable] == Holds(b)
  }

  lemma HoldOne(cfg: Config) returns (acts: seq<Act>, s: State)
    requires cfg.joinable < cfg.started
    ensures Run(cfg, Init(cfg), acts, s) && Late(cfg, s, AddRecord(EMPTY, [0])) && s.main == Joining(0)
    ensures forall w :: 0 <= w < cfg.joinable ==> s.writers[w] == Ready
  {
    acts, s := [], Init(cfg);
    RunThen(cfg, Init(cfg), acts, s, WriteBlock);
    acts, s := acts + [WriteBlock], Do(cfg, s, WriteBlock);
    RunThen(cfg, Init(cfg), acts, s, Append([0]));
    acts, s := acts + [Append([0])], Do(cfg, s, Append([0]));
    RunThen(cfg, Init(cfg), acts, s, FlushBlock);
    acts, s := acts + [FlushBlock], Do(cfg, s, FlushBlock);
    RunThen(cfg, Init(cfg), acts, s, Pop(cfg.joinable));
    acts, s := acts + [Pop(cfg.joinable)], Do(cfg, s, Pop(cfg.joinable));
    RunThen(cfg, Init(cfg), acts, s, CloseQueue);
    acts, s := acts + [CloseQueue], Do(cfg, s, CloseQueue);
    RunThen(cfg, Init(cfg), acts, s, Sync);
    acts, s := acts + [Sync], Do(cfg, s, Sync);
  }

  // Exactly when all writers have a slot that is joined is every finished file
  // complete.
  lemma CompleteIffJoined(cfg: Config)
    ensures cfg.started <= cfg.joinable <==>
      forall acts, s :: Finished(cfg, acts, s) ==> Complete(cfg, s)
  {
    if cfg.started <= cfg.joinable {
      forall acts, s | Finished(cfg, acts, s)
        ensures Complete(cfg, s)
      {
        ClosedIsComplete(cfg, acts, s);
      }
    } else {
      var acts, s := MissedBlock(cfg);
      assert Finished(cfg, acts, s);
    }
  }

  // How many writers are started: OpenNewFile starts two for a file that is
  // not compressed, AppendFile one.
  function Threads(compressed: bool, appending: bool, numWorkers: nat): nat {
    if compressed then numWorkers else if appending then 1 else 2
  }

  // So NumWorkers = 1 is safe except for a new file without compression.
  lemma SafeConfigurations(cfg: Config, appending: bool)
    requires 1 <= cfg.joinable && cfg.started == Threads(cfg.compressed, appending, cfg.joinable)
    ensures (cfg.compressed || appending || 2 <= cfg.joinable) <==>
      forall acts, s :: Finished(cfg, acts, s) ==> Complete(cfg, s)
  {
    CompleteIffJoined(cfg);
  }

  // The bytes of the file: header, blocks, appendix.
  ghost function FileBytes(cfg: Config, s: State, header: seq<Byte>): seq<Byte>
    requires Writable(cfg.codec, s.disk)
  {
    header + EncodeAll(cfg.codec, s.disk)
  }

  lemma {:induction false} SizeOnDisk(cfg: Config, bs: seq<Block>)
    requires Writable(cfg.codec, bs)
    ensures |EncodeAll(cfg.codec, bs)| == DiskSize(cfg, bs)
    decreases |bs|
  {
    if bs != [] {
      var init, b := bs[..|bs| - 1], bs[|bs| - 1];
      assert bs == init + [b] && b in bs && forall c :: c in init ==> c in bs;
      EncodeSnoc(cfg.codec, init, b);
      SizeOnDisk(cfg, init);
    }
  }

  // A reader that goes by the header gets the data blocks and not the
  // appendix, which starts where the header says.
  lemma CompleteIsReadBack(cfg: Config, s: State, header: seq<Byte>)
    requires Complete(cfg, s) && Writable(cfg.codec, s.disk) && |header| == FILE_HEADER
    ensures
      var m, data := FileBytes(cfg, s, header), s.disk[..|s.disk| - 1];
      && 0 <= s.main.numBlocks && ReadBlocks(cfg.codec, m, FILE_HEADER, s.main.numBlocks) == data
      && Decode(cfg.codec, m, s.offAppendix).Got? && Decode(cfg.codec, m, s.offAppendix).b == cfg.tail
  {
    hide *;
    OfComplete(cfg, s);
    var data := s.disk[..|s.disk| - 1];
    TailIsReadBack(cfg, data, s.disk, header);
  }

  lemma OfComplete(cfg: Config, s: State)
    requires Complete(cfg, s) && Writable(cfg.codec, s.disk)
    ensures s.disk != [] && var data := s.disk[..|s.disk| - 1];
      && Writable(cfg.codec, data) && Sane(cfg.tail) && s.disk == data + [cfg.tail]
      && s.main.numBlocks == |data| && s.offAppendix == FILE_HEADER + DiskSize(cfg, data)
    ensures forall header: seq<Byte> :: FileBytes(cfg, s, header) == header + EncodeAll(cfg.codec, s.disk)
  {
    var data := s.disk[..|s.disk| - 1];
    assert cfg.tail in s.disk && forall b :: b in data ==> b in s.disk;
  }

  lemma TailIsReadBack(cfg: Config, data: seq<Block>, disk: seq<Block>, header: seq<Byte>)
    requires Writable(cfg.codec, disk) && Writable(cfg.codec, data) && Sane(cfg.tail)
    requires disk == data + [cfg.tail] && |header| == FILE_HEADER
    ensures
      var c, m, at := cfg.codec, header + EncodeAll(cfg.codec, disk), FILE_HEADER + DiskSize(cfg, data);
      && ReadBlocks(c, m, FILE_HEADER, |data|) == data
      && Decode(c, m, at).Got? && Decode(c, m, at).b == cfg.tail
  {
    hide *;
    WritableIsFaithful(cfg.codec, data, cfg.tail);
    var d, e := EncodeAll(cfg.codec, data), Encode(cfg.codec, cfg.tail);
    EncodeSnoc(cfg.codec, data, cfg.tail);
    SizeOnDisk(cfg, data);
    Behind(header, d, e);
    var m := header + EncodeAll(cfg.codec, disk);
    ReadPart(cfg.codec, data, m, header, e);
    DecodePart(cfg.codec, cfg.tail, m, header + d);
  }

  lemma WritableIsFaithful(c: Codec, bs: seq<Block>, b: Block)
    requires Writable(c, bs) && Sane(b)
    ensures Faithful(c) && b.numRecords < MAX32 && |c.comp(b.data)| < MAX32
  {
  }

  lemma ReadPart(c: Codec, data: seq<Block>, m: seq<Byte>, header: seq<Byte>, e: seq<Byte>)
    requires Writable(c, data) && m == header + EncodeAll(c, data) + e
    ensures ReadBlocks(c, m, |header|, |data|) == data
  {
    ReadEncoded(c, data, header, e);
  }

  lemma DecodePart(c: Codec, b: Block, m: seq<Byte>, pre: seq<Byte>)
    requires Faithful(c) && Sane(b) && m == pre + Encode(c, b) + []
    ensures Decode(c, m, |pre|).Got? && Decode(c, m, |pre|).b == b
  {
    DecodeEncoded(c, b, pre, []);
  }

  lemma Behind(h: seq<Byte>, d: seq<Byte>, e: seq<Byte>)
    ensures h + (d + e) == h + d + e
    ensures (h + d) + e + [] == h + d + e
  {
  }

  // The blocks of the other file, as they are read from it with its own
  // compression, are pushed; the result has the blocks of both files.
  lemma RenameAppendJoins(cfg: Config, acts: seq<Act>, s: State, c: Codec, other: seq<Block>, header: seq<Byte>,
      rest: seq<Byte>)
    requires cfg.started <= cfg.joinable && Finished(cfg, acts, s)
    requires Writable(c, other) && |header| == FILE_HEADER
    requires s.pushed == ReadBlocks(c, header + EncodeAll(c, other) + rest, FILE_HEADER, |other|)
    ensures Complete(cfg, s) && s.main.numBlocks == |cfg.before| + |other|
    ensures multiset(s.disk) == multiset(cfg.before) + multiset(other) + multiset{cfg.tail}
  {
    ReadEncoded(c, other, header, rest);
    ClosedIsComplete(cfg, acts, s);
    BothFiles(cfg, s, other);
  }

  lemma BothFiles(cfg: Config, s: State, other: seq<Block>)
    requires Complete(cfg, s) && s.pushed == other
    ensures s.main.numBlocks == |cfg.before| + |other|
    ensures multiset(s.disk) == multiset(cfg.before) + multiset(other) + multiset{cfg.tail}
  {
    var data := s.disk[..|s.disk| - 1];
    assert |data| == |multiset(data)|;
    assert |multiset(cfg.before) + multiset(other)| == |cfg.before| + |other|;
  }

  // RenameAppend, for any run of producer and writers: the file has the blocks
  // of both, and the record `w` is that of the flows `f1` and `f2` of both,
  // but for the first time if just one of them has flows.
  method RenameAppend(w: NfStat.StatRecord, r: NfStat.StatRecord, ghost f1: seq<NfStat.Flow>,
      ghost f2: seq<NfStat.Flow>,
    ghost cfg: Config, ghost acts: seq<Act>, ghost s: State, ghost c: Codec, ghost other: seq<Block>,
        ghost header: seq<Byte>, ghost rest: seq<Byte>)
    requires cfg.started <= cfg.joinable && Finished(cfg, acts, s)
    requires Writable(c, other) && |header| == FILE_HEADER
    requires s.pushed == ReadBlocks(c, header + EncodeAll(c, other) + rest, FILE_HEADER, |other|)
    requires w.Holds(f1) && r.Holds(f2) && w != r && w.counters != r.counters
    modifies w, w.counters
    ensures Complete(cfg, s) && s.main.numBlocks == |cfg.before| + |other|
    ensures multiset(s.disk) == multiset(cfg.before) + multiset(other) + multiset{cfg.tail}
    ensures NfStat.Good(f1 + f2) && forall i :: 0 <= i < NfStat.COUNTERS ==> w.counters[i] == NfStat.Sum(f1 + f2, i)
    ensures w.lastseen == NfStat.Latest(f1 + f2)
    ensures w.Holds(f1 + f2) <==> (f1 == [] <==> f2 == []) || NfStat.Earliest(f1 + f2) == 0
  {
    hide *;
    RenameAppendJoins(cfg, acts, s, c, other, header, rest);
    w.SumStatRecords(r, f1, f2);
  }
}
