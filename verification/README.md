# A Dafny model of nfdump

nfdump collects NetFlow and IPFIX records, stores them in block files and
expires old files. This project models the parts of it whose correctness rests
on invariants over many steps, and proves what they keep. The modules follow
the source files; where the meaning of the data is a subject of its own it has
a module of its own.

* **Ordered and hashed indexes.** `RbTree` is the red-black tree with parent
  pointers; its specification is an in-order sequence of nodes that gains or
  loses exactly one of them. `KbWeave`, `KbTree` and `KbIterator` are the
  B-tree with split, borrow and merge and its stack iterator; the
  specification is a sorted sequence with or without one more key. `Probing`
  and `HashTable` are the open-addressing table with its rehash in place; the
  specification is a finite map.
* **Threads and blocks.** `RingQueue` is the ring buffer as a class, and
  `QueueThreads` the system of any number of producers and consumers that use
  it with one condition variable. `Barrier` is the barrier between a
  controller and its workers. `NfBlock`, `NfFile` and `NfStat` are the blocks
  of a file, the machine of producer, writers and closer, and the statistics
  record.
* **Templates, walks and expiry.** `V3Record` says when a record is exactly
  tiled by its elements, `SequencerSpec` is the interpreter of template tables
  on values, `SequencerTable` the compaction of tables and the interpreter on
  buffers, `SequencerFields` what is stored of a field and how much of an input
  is read, `SequencerSafety` and `SequencerSetup` say which tables and templates
  have safe runs only. `FtsSpec` is the recursive walk over a file tree, `Fts`
  the one over linked nodes and a shared path buffer that returns an entry at a
  time.
  `ExpireSpec` and `Expire` remove the oldest files of several channels.
* **Fast forms.** `Bits` and `Itoa` are decimal conversion in the lanes of one
  word, `Utf8` the table-driven check of UTF-8, `Pipe` the framing of messages
  read in pieces, and `Launcher` the message sent that way.

Objects that the source changes step by step are classes here, and their methods
change fields, arrays and sequences in the same order. What they do is tied
to functions on values, about which the lemmas speak. Threads are steps between
taking a mutex and letting go of it, or of waiting for a condition.

Where a promise does not hold, the code is kept as it is, with a lemma that
names an input and, where there is one, the exact condition:

* with `NumWorkers` 1 a new file without compression starts two writers and
  joins one (`NfFile.MissedBlock`, `NfFile.CompleteIffJoined`,
  `NfFile.SafeConfigurations`);
* adding the statistics of a file without flows forgets when the flows of the
  other began (`NfStat.StatRecord.SumStatRecords`, `NfStat.EmptyForgetsFirst`);
* merging skipped elements of a template is limited by 16 bits
  (`SequencerTable.CompactExactly`, `SequencerTable.MergeLimit`), and an accepted record may have an element
  shorter than its header (`V3Record.VerifiedIsWellformed`,
  `V3Record.ShortElementAccepted`);
* in a buffer above 65535 bytes, as both collectors have it, the 16-bit size of
  a record can wrap (`SequencerSafety.LargeBufferWraps`); a run is safe exactly
  if it does not (`SequencerSpec.RunTableKeeps`);
* a template can make a run store outside of an element
  (`SequencerSetup.RepeatedBreaks`); which templates never do is said exactly
  (`SequencerSetup.SetupIsSafe`, `SequencerSafety.SafeExactly`);
* `itoa` is right for all numbers up to 5999999998, wrong for 5999999999, right
  again for 6000000000, and so on: for which ones exactly is `Itoa.Right`
  (`Itoa.Itoa`, `Itoa.FirstFailure`);
* a read error in the middle of a message, even an interrupted call, drops the
  part that was read, and what a message of length zero flushes depends on how
  the stream was cut (`Pipe.FailureLosesMessage`, `Pipe.FlushDependsOnTheCut`);
  when both are harmless is said exactly (`Pipe.FailureHarmless`,
  `Pipe.CutHarmless`); a message to the launcher above 65535 bytes is not seen as
  one (`Launcher.OneFrame`), and the test of its lengths is not enough if these
  wrap (`Launcher.TestIsNotEnough`, `Launcher.InsideExactly`);
* a worker in the barrier waits only once, so that a causeless wakeup sets it
  free (`Barrier.WakeupsWithoutCause`), and so does having more workers than the
  barrier was made for (`Barrier.SafeExactly`);
* the number of files of a profile is not the sum over its channels if a
  channel ran out with files that could not be removed (`Expire.ProfileCount`,
  `Expire.StuckFile`).

To verify the whole project: `dafny verify dfyconfig.toml`.

## Model

| member | source | states |
|---|---|---|
| `RbTree.Tree.RotateLeft` | src/include/rbtree.h:336-354 | A left rotation keeps the links of every node in agreement and the in-order sequence unchanged; it moves exactly the nodes and subtrees it should. |
| `RbTree.Tree.RotateRight` | src/include/rbtree.h:356-374 | The mirror image, for right rotations. |
| `RbTree.Tree.PushRedUp` | src/include/rbtree.h:409-414 | A red uncle: recolouring keeps black heights equal and moves the only possible red pair two levels up. |
| `RbTree.Tree.RaiseLeft` | src/include/rbtree.h:422-423 | The rotation that ends the repair leaves no red pair at all and equal black heights. |
| `RbTree.Tree.RepairLeft` | src/include/rbtree.h:407-423 | One round of the insertion repair keeps "at most one red pair, at elm" and either ends or goes to the grandparent. |
| `RbTree.Tree.InsertColor` | src/include/rbtree.h:401-443 | From a tree with at most one red pair to a proper red-black tree with a black root; the loop terminates. |
| `RbTree.Tree.AttachBelow` | src/include/rbtree.h:606-614 | The new leaf enters the in-order sequence next to its parent and all links agree. |
| `RbTree.Tree.constructor` | src/include/rbtree.h:300-303 | The new tree is valid and has no nodes. |
| `RbTree.Tree.Insert` | src/include/rbtree.h:589-617 | An absent key is inserted: search order, link agreement, black root, no red pair and equal black heights hold again, and the in-order sequence is the old one with exactly this node added. A present key: its node is returned and nothing at all changes. |
| `RbTree.Tree.LowerLeft` | src/include/rbtree.h:453-457 | A red sibling is rotated away: the short side stays short by one and its new sibling is black and not null. |
| `RbTree.Tree.ReddenRight` | src/include/rbtree.h:458-464 | A black sibling with black children turns red: the shortage moves to the parent. |
| `RbTree.Tree.TurnLeft` | src/include/rbtree.h:466-474 | The far child of the sibling is made red, at the same black heights. |
| `RbTree.Tree.SettleLeft` | src/include/rbtree.h:475-481 | The rotation that ends the repair makes up for the missing black node. |
| `RbTree.Tree.MendLeft` | src/include/rbtree.h:451-482 | One round of the removal repair either ends with a proper tree or moves the shortage up; the sibling it dereferences is never null. |
| `RbTree.Tree.RemoveColor` | src/include/rbtree.h:445-519 | From a tree with one side short of one black node to a proper red-black tree; the loop terminates. |
| `RbTree.Tree.Successor` | src/include/rbtree.h:532-534 | The leftmost node of the right subtree is the next one in order and has no left child. |
| `RbTree.Tree.Detach` | src/include/rbtree.h:570-581 | Splicing out a node with at most one child removes exactly that node from the in-order sequence and keeps the links in agreement. |
| `RbTree.Tree.PutInPlace` | src/include/rbtree.h:548-561 | The successor takes over the place, colour and links of the removed node without disturbing the pending repair. |
| `RbTree.Tree.Remove` | src/include/rbtree.h:521-586 | Removal of a member keeps all red-black properties and search order; the in-order sequence loses exactly this node. |
| `RbTree.Tree.Find` | src/include/rbtree.h:620-635 | Returns a node with the key exactly if there is one. |
| `RbTree.Tree.NFind` | src/include/rbtree.h:638-656 | Returns the node with the least key that is not less, or null exactly if there is none. |
| `RbTree.Tree.Next` | src/include/rbtree.h:659-679 | The next node of the in-order sequence, or null exactly after the last. |
| `RbTree.Tree.Prev` | src/include/rbtree.h:681-700 | The previous node of the in-order sequence, or null exactly before the first. |
| `RbTree.Tree.MinMax` | src/include/rbtree.h:702-715 | The first or the last node in order; null exactly for an empty tree. |
| `RbTree.Tree.HeightBound` | src/include/rbtree.h:56 | The promised bound: the height is at most 2 lg(n+1), as 2^height <= (n+1)^2. |
| `KbTree.Node.GetAux` | src/include/kbtree.h:116-134 | The binary search finds the first place of the key, or the place of the greatest smaller key, and says which. |
| `KbTree.Node.Halve` | src/include/kbtree.h:174-185 | The keys and kids of a full node are shared between it and the new one around the middle key; read in order they are the same. |
| `KbTree.BTree.SplitNodes` | src/include/kbtree.h:173-186 | Splitting a full kid: both halves have t-1 keys, the middle key goes up, links agree and the parent holds the same keys in the same order. |
| `KbTree.BTree.Split` | src/include/kbtree.h:173-186 | The split as seen by the whole tree: every invariant is kept, and nothing above changes. |
| `KbTree.BTree.PutAux` | src/include/kbtree.h:188-206 | Below a node that is not full exactly one copy of the key is added, with no node overfull and all leaves at one depth. |
| `KbTree.BTree.GrowRoot` | src/include/kbtree.h:211-219 | A full root becomes the only kid of a new one; all leaves get one level deeper together. |
| `KbTree.BTree.Put` | src/include/kbtree.h:207-222 | kb_putp keeps every invariant (sorted nodes, one depth, t-1 to 2t-1 keys, n_keys = size) and adds exactly one copy of the key to the sorted content. |
| `KbTree.BTree.BorrowLeft` | src/include/kbtree.h:270-277 | A key moves from the left neighbour over the parent: same keys in the same order, the kid has one more. |
| `KbTree.BTree.BorrowRight` | src/include/kbtree.h:278-284 | The same from the right neighbour. |
| `KbTree.BTree.Merge` | src/include/kbtree.h:285-304 | Two kids with t-1 keys and the key between them become one node with 2t-1 keys; same keys in the same order. |
| `KbTree.BTree.Refill` | src/include/kbtree.h:269-305 | A kid with t-1 keys is brought to at least t keys by borrowing or merging; nothing it held is lost. |
| `KbTree.BTree.ExchangeKey` | src/include/kbtree.h:244-253 | The predecessor or successor is taken out of a subtree and replaces the key that goes. |
| `KbTree.BTree.DelHere` | src/include/kbtree.h:243-267 | Removal of a key of an inner node, in all three cases. |
| `KbTree.BTree.DelAux` | src/include/kbtree.h:226-307 | One pass down the tree removes exactly the key asked for, or the largest or smallest below; no node gets too small on the way. |
| `KbTree.BTree.LowerRoot` | src/include/kbtree.h:313-318 | A root without keys gives way to its only kid. |
| `KbTree.BTree.Del` | src/include/kbtree.h:308-320 | kb_delp of a present key keeps every invariant and removes exactly one copy of it. |
| `KbTree.BTree.Get` | src/include/kbtree.h:137-147 | Finds the key exactly if the tree has it. |
| `KbTree.BTree.Interval` | src/include/kbtree.h:151-166 | The greatest key up to k and the least key from k on, or none exactly if there is none. |
| `KbTree.BTree.HeightBound` | src/include/kbtree.h:173-222 | With t the minimal degree, 2 t^height <= n_keys + 1. |
| `KbWeave.KidWith` | src/include/kbtree.h:198-204 | Adding a key to the right subtree is adding it to the whole sorted sequence. |
| `KbWeave.KidWithout` | src/include/kbtree.h:268-306 | Removing a key from a subtree that has it is removing it from the whole sorted sequence. |
| `KbWeave.KeyByLast` | src/include/kbtree.h:244-248 | Putting the largest key of the left subtree in place of a key removes that key from the whole. |
| `KbWeave.KeyByFirst` | src/include/kbtree.h:249-253 | The same with the smallest key of the right subtree. |
| `KbWeave.KidHolds` | src/include/kbtree.h:268-269 | A present key strictly between two neighbouring keys is in the subtree between them. |
| `KbWeave.KeysSplit` | src/include/kbtree.h:173-186 | A node falls apart at any of its keys into two nodes and the key, in order. |
| `KbIterator.Iterator.First` | src/include/kbtree.h:324-336 | After kb_itr_first the keys still to come are all keys of the tree in order. |
| `KbIterator.Iterator.Next` | src/include/kbtree.h:352-365 | kb_itr_next drops exactly the first of the keys to come, and says whether there is another. |
| `KbIterator.Iterator.Get` | src/include/kbtree.h:394 | The key at the iterator is the first of those to come. |
| `KbIterator.Iterator.StackFits` | src/include/kbtree.h:35-56 | The fixed stack never overflows while n_keys fits an int, for every t >= 2. |
| `KbIterator.Traverse` | src/include/kbtree.h:324-365 | Iterating visits every key exactly once in sorted order and then stops. |
| `Probing.RoundUp32IsLeast` | src/include/khash.h:176 | kroundup32 yields the least power of two that is not less, or 0 exactly if no 32-bit word is one. |
| `Probing.MaskIsModulo` | src/include/khash.h:234 | For a power of two, masking with n - 1 is taking the remainder by n. |
| `Probing.ProbeStep` | src/include/khash.h:237-240 | The running step of the loop visits h + s(s+1)/2 modulo n_buckets. |
| `Probing.ProbesDiffer` | src/include/khash.h:237-240 | For a power of two the first n probes are pairwise different. |
| `Probing.ProbesCover` | src/include/khash.h:237-240 | So they reach every bucket: a probe loop comes back to its start only after all buckets. |
| `HashTable.BusyEnds` | src/include/khash.h:237-240 | With one empty bucket no run of busy buckets is as long as the table: every probe loop ends in time and the last == i exits are not taken. |
| `HashTable.UpperMeans` | src/include/khash.h:303 | The bound on occupied buckets is 77 percent of them, rounded to the nearest. |
| `HashTable.Table.Get` | src/include/khash.h:230-243 | The bucket of the key exactly if the map has it, else n_buckets. |
| `HashTable.Table.FindFree` | src/include/khash.h:278-281 | The rehash finds the first free bucket on the probe path of the key. |
| `HashTable.Table.KickRound` | src/include/khash.h:277-292 | One round files the entry in hand and possibly picks up another; every entry is in exactly one of: old bucket pending, new bucket, in hand. |
| `HashTable.Table.KickOut` | src/include/khash.h:270-293 | The kick-out chain terminates, because each kick marks one more old bucket as done, and no entry is lost or duplicated. |
| `HashTable.Table.Rehash` | src/include/khash.h:269-294 | After the loop all entries are in new buckets on their own probe paths with no empty bucket before them. |
| `HashTable.Table.Resize` | src/include/khash.h:244-306 | kh_resize keeps exactly the same key/value pairs for every requested size, or changes nothing exactly if they would not fit. |
| `HashTable.Table.FindSite` | src/include/khash.h:319-335 | The bucket of a present key, else a reusable one on its probe path. |
| `HashTable.Table.Put` | src/include/khash.h:307-348 | kh_put refines adding to a finite map: ret is 0 exactly for a present key, and no other key or value changes. The table stays valid unless it has 2^31 buckets of which one is empty and not half of them deleted, and this one is taken. |
| `HashTable.Table.Del` | src/include/khash.h:349-355 | kh_del refines removing from a finite map; a bucket without entry is left alone. |
| `HashTable.Table.SizeBelowOccupied` | src/include/khash.h:195-200 | size never exceeds n_occupied. |
| `RingQueue.QueueInit` | src/libnffile/queue.c:48-78 | A queue is made exactly for powers of two, empty and open. |
| `RingQueue.SlotIsModulo` | src/libnffile/queue.c:166-170 | The masked index is the position modulo the length. |
| `RingQueue.Queue.TryPush` | src/libnffile/queue.c:161-190 | One pass of queue_push on the ring array is one step of the abstract bounded FIFO, wakeup included. |
| `RingQueue.Queue.TryPop` | src/libnffile/queue.c:192-223 | One pass of queue_pop is one step of the abstract FIFO, wakeup included. |
| `RingQueue.Queue.Close` | src/libnffile/queue.c:98-107 | queue_close is the abstract close with its broadcast. |
| `RingQueue.LastProducerCloses` | src/libnffile/queue.c:98-107 | However often queue_close is called: the queue is closed exactly with the last of its producers, and keeps its elements. |
| `RingQueue.Wakes` | src/libnffile/queue.c:161-223 | A push wakes one consumer exactly if one waits; a pop wakes all exactly if a producer waits, or a consumer on a closed queue. |
| `QueueThreads.SignalReachesConsumer` | src/libnffile/queue.c:161-190 | With no producer in the wait set a single signal can only reach a consumer. |
| `QueueThreads.PushKeepsInv` | src/libnffile/queue.c:161-190 | Every push step by any thread keeps the invariant of the thread system. |
| `QueueThreads.PopServesPoppers` | src/libnffile/queue.c:192-223 | A consumer waits only on an open queue with at least as many woken consumers as elements. |
| `QueueThreads.PopUnblocksPushers` | src/libnffile/queue.c:192-223 | A producer waits only for a full queue; a pop that makes room wakes all of them. |
| `QueueThreads.SpuriousKeepsInv` | src/libnffile/queue.c:136-159 | Spurious wakeups and the broadcast of queue_sync keep the invariant. |
| `QueueThreads.RunKeepsInv` | src/libnffile/queue.c:161-223 | Every state of every interleaving of any number of producers and consumers satisfies the invariant. |
| `QueueThreads.NoLostWakeup` | src/libnffile/queue.c:161-223 | When no thread is on its way back, consumers wait only on an empty open queue and producers only on a full one, never both. |
| `QueueThreads.ClosedMeansDrained` | src/libnffile/queue.c:192-223 | A pop reports the end only when every accepted element is out. |
| `QueueThreads.PoppedIsPrefix` | src/libnffile/queue.c:161-223 | The popped elements are a prefix of the accepted ones, in order; at most a queueful is between them. |
| `QueueThreads.HistoryGrows` | src/libnffile/queue.c:161-223 | Nothing accepted or popped is ever lost or changed. |
| `V3Record.VerifyV3Record` | src/libnffile/nfxV3.c:495-546 | Accepts exactly what a walk over the elements by their lengths accepts. |
| `V3Record.VerifiedIsWellformed` | src/libnffile/nfxV3.c:495-546 | A record is exactly tiled by its elements if and only if it is accepted and no element is shorter than its own header (which the code does not look at). |
| `V3Record.ShortElementAccepted` | src/libnffile/nfxV3.c:495-546 | The failing case: a record of 14 bytes whose only element says it is 2 bytes long is accepted and not tiled. |
| `V3Record.TiledAppend` | src/libnffile/nfxV3.c:350-363 | An element put at the end of an exactly tiled record leaves it exactly tiled, with all earlier elements in place. |
| `SequencerSpec.TurnIsSafe` | src/libnffile/nfxV3.c:276-462 | A turn of an entry that fits its extension stores only inside its element, and finds all elements as they were, if and only if the 16-bit size of the record can count what it adds. |
| `SequencerSpec.SafeRunKeeps` | src/libnffile/nfxV3.c:247-474 | Whatever the table: a run whose stores all lie inside their own elements leaves an exactly tiled record, has consumed at most inSize and has accounted for every byte added. |
| `SequencerSpec.RunTableKeeps` | src/libnffile/nfxV3.c:247-474 | For every input and every outSize: a run over a good table is safe, and leaves an exactly tiled record, if and only if the old size and the bytes it adds do not exceed 65535; else the size has wrapped. |
| `SequencerSpec.RoomyIsSafe` | src/libnffile/nfxV3.c:247-474 | A caller can see to it: with outSize <= 65535, or with size, elements and input together below 65536, every such run is safe. |
| `SequencerSpec.FieldInBuffer` | src/libnffile/nfxV3.c:329-376 | What is opened and stored lies inside the output buffer, even where the size of the record has wrapped. |
| `SequencerSpec.ReadsBehind` | src/libnffile/nfxV3.c:281-300 | A turn looks at bytes behind the end of the input if and only if the code of a variable length starts or goes on there; it then fails and changes nothing. |
| `SequencerSpec.LooksNoFurther` | src/libnffile/nfxV3.c:281-300 | What a turn does depends on no byte behind those it looks at. |
| `SequencerSpec.BeyondInputIrrelevant` | src/libnffile/nfxV3.c:281-300 | Bytes behind the end of the input have no influence, although a length is read before the end is looked at. |
| `SequencerSpec.LengthRoundTrip` | src/libnffile/nfxV3.c:281-293 | Both encodings of variable lengths in section 7 of RFC 7011 are decoded to the length and its width. |
| `SequencerTable.CompactKeepsMeaning` | src/libnffile/nfxV3.c:51-77 | Compaction keeps return code, record, stack and consumed length of every run on every input, if entries of type 0 are skips and merged lengths fit. |
| `SequencerTable.CompactExactly` | src/libnffile/nfxV3.c:51-77 | For every table in which entries of type 0 are skips: compaction keeps the outcome of every run on every input if and only if no run of skips sums up to 65535 or more. |
| `SequencerTable.MergeLimit` | src/libnffile/nfxV3.c:51-77 | The case of one run of skips, from any one state: the merged entry means the same on every input if and only if the sum of lengths stays below the marker of variable lengths. |
| `SequencerTable.CompactIsFinal` | src/libnffile/nfxV3.c:51-77 | Afterwards no two neighbours have both type 0 and a fixed length. |
| `SequencerTable.CompactKeepsTyped` | src/libnffile/nfxV3.c:51-77 | The entries that have a type are all still there, as they were and in their order. |
| `SequencerTable.CompactIsGood` | src/libnffile/nfxV3.c:51-77 | A compacted table is good if and only if the table is. |
| `SequencerTable.Sequencer.MergeRun` | src/libnffile/nfxV3.c:58-66 | The inner loop adds up exactly the run of mergeable entries. |
| `SequencerTable.Sequencer.CloseUp` | src/libnffile/nfxV3.c:67-74 | The remaining entries are moved down in place, unchanged and in order. |
| `SequencerTable.Sequencer.CompactSequencer` | src/libnffile/nfxV3.c:51-77 | The loop in place computes the compacted table and terminates. |
| `SequencerTable.Sequencer.DecodeLength` | src/libnffile/nfxV3.c:281-293 | The length of a field as the entry and the input say; a length encoded as in section 7 of RFC 7011, in either form, is decoded. |
| `SequencerTable.Sequencer.CopyField` | src/libnffile/nfxV3.c:372-458 | Copies, byte-swaps or zero-fills one field, and nothing around it; what is then in its place is said by SequencerFields.StoreFieldMeans. |
| `SequencerTable.Sequencer.OpenElement` | src/libnffile/nfxV3.c:329-364 | Adds an element exactly if it is new and fits the buffer, and remembers its place; size and count are 16-bit numbers that may wrap. |
| `SequencerTable.Sequencer.RunOne` | src/libnffile/nfxV3.c:276-462 | One turn of the loop on the real buffers is one step of the interpreter, of which SequencerFields.TurnOutcome says how it ends and SequencerFields.FieldStored what it stores. |
| `SequencerTable.Sequencer.SequencerRun` | src/libnffile/nfxV3.c:247-474 | For every input and output buffer the result is that of the interpreter, and nothing outside the buffer is written. A well-formed record stays one, whatever the return code, if size and added bytes do not exceed 65535, which outSize <= 65535 or a bound on elements and input ensures; the run is safe exactly then. |
| `SequencerFields.StoreFieldMeans` | src/libnffile/nfxV3.c:372-458 | What is in the place of a field, and in its slot on the stack: for a number of up to 8 bytes, and for each half of one of 16, the little-endian value is the big-endian value of the input, cut to the room there is; other fields are the bytes of the input. Nothing around it changes. |
| `SequencerFields.FieldStored` | src/libnffile/nfxV3.c:276-462 | So does every turn with a field that fits: its bytes are found at the offset of the field in the element of its extension. |
| `SequencerFields.NumberStored` | src/libnffile/nfxV3.c:382-455 | For 1 to 8 bytes stored in 1, 2, 4 or 8: value in the record = value in the input modulo 256^n, and the whole value on the stack. |
| `SequencerFields.StackOnly` | src/libnffile/nfxV3.c:304-309 | A number without extension that has a slot on the stack is not passed over; the record stays as it is. |
| `SequencerFields.ElementIsEmpty` | src/libnffile/nfxV3.c:344-363 | A new element has its type and its size, its payload is all zeros, and the elements before it are as they were. |
| `SequencerFields.TurnOutcome` | src/libnffile/nfxV3.c:276-364 | How a turn ends: an error of the input exactly if the field does not end inside it, an error of memory exactly if a new element does not fit, otherwise behind the field. |
| `SequencerFields.LengthMeans` | src/libnffile/nfxV3.c:281-293 | The length of a field is that of its entry, or one byte below 255, or the number in network order behind a 255. |
| `SequencerFields.InputIsRead` | src/libnffile/nfxV3.c:276-474 | An input that is the fields of a template one after the other is read to its end and not further, whatever its values; cut short, it is an error. |
| `SequencerSafety.WrapsExactly` | src/libnffile/nfxV3.c:348-363 | A new element is in a well-formed record, in its full size, if and only if the 16-bit size does not wrap. |
| `SequencerSafety.LargeBufferWraps` | src/libnffile/nfxV3.c:247-474 | The failing case: a good table of two entries, a buffer above 65539 bytes and an input of 65475 bytes leave a record of size 4. |
| `SequencerSafety.SafeExactly` | src/libnffile/nfxV3.c:247-474 | For a table whose elements fit into one record: all its runs, on every input and from every well-formed record in a buffer below 65536 bytes, store inside their own elements only, if and only if the table is good. |
| `SequencerSetup.SizesAreSized` | src/libnffile/nfxV3.c:88-112 | The size kept for an extension is that for the last entry of the compacted table that names it. |
| `SequencerSetup.SetupIsGood` | src/libnffile/nfxV3.c:88-112 | A table with its lengths and sizes so set is good if and only if its template is safe: a field of variable length comes first in its extension, and all others fit the size the last one sets. |
| `SequencerSetup.CompactSafe` | src/libnffile/nfxV3.c:51-77 | Compaction does not change whether a template is safe. |
| `SequencerSetup.CompactMapped` | src/libnffile/nfxV3.c:51-77 | Nor that every entry is in the range its extension has in the table of extensions. |
| `SequencerSetup.SetSizes` | src/libnffile/nfxV3.c:93-112 | The loop in place fixes output lengths, sets sizes by the last entry of each extension and adds up the fixed input. |
| `SequencerSetup.SizesMean` | src/libnffile/nfxV3.c:100-111 | For the last entry that names an extension: the size is that of the table of extensions, and the length of the input where that is fixed and the output is not. |
| `SequencerSetup.FixedLengthIsRead` | src/libnffile/nfxV3.c:93-98 | inLength: a run that comes to its end has read at least the fixed lengths, and exactly these if and only if no entry has a variable one. |
| `SequencerSetup.ListExtensions` | src/libnffile/nfxV3.c:114-147 | The list is strictly ascending and has exactly the extensions from 1 on whose size is not 0; the total is the sum of their sizes. |
| `SequencerSetup.SetupSequencer` | src/libnffile/nfxV3.c:79-152 | What is set up: table and sizes; the list has exactly the extensions with a size, in ascending order, numElements is its length and outLength the sum of their sizes, or 0 for variable output; extensions that no entry names have no size. The table is good if and only if the template is safe. |
| `SequencerSetup.SetupIsSafe` | src/libnffile/nfxV3.c:79-152 | What SetupSequencer makes of a template has safe runs only, on every input and from every well-formed record in a buffer below 65536 bytes, if and only if the template is safe; for templates whose elements fit into one record. |
| `SequencerSetup.RepeatedBreaks` | src/libnffile/nfxV3.c:79-152 | One that is not: a template with NBAR_APPLICATION_ID twice with variable length and a field between, and an input on which its run leaves a record that is not well-formed. |
| `NfBlock.DecodeEncoded` | src/libnffile/nffile.c:1244-1328 | A block that was written is read back, whatever is around it. |
| `NfBlock.Unreadable` | src/libnffile/nffile.c:1246-1283 | A block is not read exactly if it is cut off, empty, without records, or larger than a buffer. |
| `NfBlock.ReadEncoded` | src/libnffile/nffile.c:1330-1375 | A file of blocks is read back completely, in order, and nothing behind it. |
| `NfBlock.Nfreader` | src/libnffile/nffile.c:1330-1375 | The reader thread pushes a prefix of the blocks that can be read, up to the number in the header, and stops short of them only when told to terminate or when the queue is closed; then the first such moment is where it stops. |
| `NfFile.StepKeepsInv` | src/libnffile/nffile.c:1377-1496 | Every step of producer, writers and closer keeps: written + in memory = pushed, NumBlocks counts the written ones, and the order of records within blocks. |
| `NfFile.RunKeepsInv` | src/libnffile/nffile.c:1377-1496 | So does every run, for any number of writers and any interleaving. |
| `NfFile.ClosedIsComplete` | src/libnffile/nffile.c:1146-1178 | When all writers are joined, the closed file has exactly the blocks pushed as a multiset, NumBlocks is their count, offAppendix is just past the last one, and all records appended are in them in order. |
| `NfFile.MissedBlock` | src/libnffile/nffile.c:1090-1110 | If a writer has no slot that is joined, there is a run that closes an incomplete file. |
| `NfFile.CompleteIffJoined` | src/libnffile/nffile.c:1090-1110 | Every finished file is complete if and only if all started writers are joined. |
| `NfFile.SafeConfigurations` | src/libnffile/nffile.c:969-982 | In terms of the configuration: for NumWorkers = 1 exactly new files without compression are at risk. |
| `NfFile.CompleteIsReadBack` | src/libnffile/nffile.c:1146-1178 | A reader that goes by the header of a complete file gets its data blocks, and the appendix where the header says. |
| `NfFile.RenameAppendJoins` | src/libnffile/nffile.c:1044-1088 | RenameAppend: the result has the blocks of both files, counted; each file has its own compression. |
| `NfFile.RenameAppend` | src/libnffile/nffile.c:1044-1088 | Blocks and statistics in one: the file has the blocks of both, and its statistics are those of the flows of both but, exactly if just one file has flows and the earliest is not at 0, for the first time. |
| `NfStat.StatRecord.SumStatRecords` | src/libnffile/nffile.c:2159-2184 | All counters and the last time are those of both files together; the first time is if and only if both or neither have flows, or it is 0. |
| `NfStat.EmptyForgetsFirst` | src/libnffile/nffile.c:2159-2184 | The failing case: the stored record of an empty file has first time 0, so adding it forgets when the flows began. |
| `NfStat.OneFlow` | src/libnffile/nffile.c:2159-2184 | The counters and times of one flow are those of the flow, which with the sums over two files says what they are for any. |
| `NfFile.AppendKeepsOrder` | src/inline/nffile_inline.c:86-101 | Appending a record keeps all records in order in the blocks, and pushes the current block exactly if the record does not fit behind it. |
| `NfFile.RecordsCounted` | src/inline/nffile_inline.c:86-101 | In every run: each block that is pushed, and the current one, holds exactly as many consecutive records as NumRecords says, or is one that was taken over; all records are in them in order, and the numbers add up. |
| `NfFile.ClosedIsCounted` | src/inline/nffile_inline.c:86-101 | So in a closed file: the blocks say they have as many records as the file had before, were appended, and came with the blocks taken over. |
| `Fts.Open` | src/libnffile/fts_compat.c:107-200 | The stream stands before the first root, and what is to come is the recursive walk of the roots in order; null exactly for an empty argument. |
| `Fts.FTS.Load` | src/libnffile/fts_compat.c:207-227 | The path buffer holds the name of the root. |
| `Fts.FTS.BasenameMeans` | src/libnffile/fts_compat.c:221-225 | The name of a root is all of it behind its last slash, or the whole if it has none or is a slash. |
| `Fts.FTS.Stat` | src/libnffile/fts_compat.c:769-836 | A directory gets FTS_DC exactly if it is its own ancestor by device and inode. |
| `Fts.FTS.ReadDir` | src/libnffile/fts_compat.c:633-726 | The list of all visible entries in directory order, each with its level, path length, parent and type. |
| `Fts.FTS.Sort` | src/libnffile/fts_compat.c:844-867 | The list is relinked in the order of the compare function: the same nodes, each once, no name above one behind it in the order of strcmp. |
| `Fts.FTS.Build` | src/libnffile/fts_compat.c:540-767 | The sorted nodes of a directory join the walk, linked and unvisited; FTS_DP exactly for an empty one, and the path buffer is as before. |
| `Fts.FTS.Enter` | src/libnffile/fts_compat.c:358-404 | Into a directory: the first kid, under its full path. |
| `Fts.FTS.Advance` | src/libnffile/fts_compat.c:363-405 | On to the next node of the level, under its full path. |
| `Fts.FTS.NextRoot` | src/libnffile/fts_compat.c:363-380 | On to the next root. |
| `Fts.FTS.MoveUp` | src/libnffile/fts_compat.c:407-448 | Back to the directory, under its own path again. |
| `Fts.FTS.Set` | src/libnffile/fts_compat.c:458-465 | A request changes nothing of what is still to come. |
| `Fts.FTS.Read` | src/libnffile/fts_compat.c:276-449 | One call returns exactly the next visit of the recursive walk, with its full path in the buffer, and leaves the rest of the walk; null exactly at its end. |
| `Fts.Traverse` | src/libnffile/fts_compat.c:276-449 | Repeated calls, with requests to skip, return exactly the recursive walk (D, kids in the order FtsSpec.KidsInOrder and FtsSpec.SiblingsInOrder describe, DP; D and DP only if skipped; cycles never entered) and end. |
| `FtsSpec.ArrangeInOrder` | src/libnffile/fts_compat.c:844-867 | The arranged entries are in the order of strcmp: a name is a prefix of each one behind it, or lower in the first character in which they differ. |
| `FtsSpec.LeqMeans` | src/libnffile/fts_compat.c:844-867 | The order that sorting goes by is that of strcmp: one name is a prefix of the other, or lower in the first character in which they differ; and only then. |
| `FtsSpec.KidsInOrder` | src/libnffile/fts_compat.c:633-726 | What the walk visits of a directory: each entry as often as it is there, but no dots, in the order of strcmp. |
| `FtsSpec.SiblingsInOrder` | src/libnffile/fts_compat.c:276-449 | Of two entries of a directory that the walk goes into, all visits at and below the first come before those of the second, and its name is not above that of the second. |
| `FtsSpec.OneOrder` | src/libnffile/fts_compat.c:844-867 | With different names there is only one such order, so the qsort used does not matter. |
| `Expire.Pick` | src/collector/expire.c:582-604 | The channel whose current file has the least name, the last of several; none exactly if all are at their end. |
| `Expire.Unlink` | src/collector/expire.c:617-634 | Removing a file takes the same bytes and count from profile and channel; the 64-bit subtraction does not wrap. |
| `Expire.Advance` | src/collector/expire.c:675-716 | On to the next data file of the channel, whose time becomes the first of channel and profile; at the end both stay. |
| `Expire.PrepareDirLists` | src/collector/expire.c:508-550 | Every channel stands at its first data file or at its end. |
| `Expire.TryOne` | src/collector/expire.c:617-728 | One removal keeps the books of all channels and of the profile equal to what is on disk; a channel of which files were tried has the time of its next file as its first, or is marked for a rebuild when there is none. |
| `Expire.Round` | src/collector/expire.c:578-729 | One removal keeps everything that holds between rounds: global name order, accounts, first marks and the reasons for every removal. |
| `Expire.Loop` | src/collector/expire.c:578-729 | The loop terminates; it ends when both limits are met, all files are gone or the alarm was raised. |
| `Expire.ExpireProfile` | src/collector/expire.c:552-736 | Files are tried in global name order, every one tried before every one left; the size phase stops at the first point with filesize <= sizelimit, all of the time phase have names below "nfcapd." and the limit, and if it ends for the age, no name left is; the new first time is that of the oldest file left. Channels that were touched have the time of their next file, or first equal to last and a rebuild mark. |
| `Expire.ProfileSize` | src/collector/expire.c:619-626 | The size of the profile is always the sum over its channels. |
| `Expire.ProfileCount` | src/collector/expire.c:718-728 | Its number of files is the sum if and only if no channel ran out while a file of it could not be removed. |
| `Expire.StuckFile` | src/collector/expire.c:552-736 | The failing case: a run over one channel with one file that cannot be removed ends with 1 file in the profile and 0 in its only channel. |
| `Expire.ExpireDir` | src/collector/expire.c:337-506 | The same for one directory, also with wrong books (in 64-bit arithmetic): both phases, with the same result on names, the first time, the counts, and the rebuild mark exactly if more files were removed than counted or none is left. |
| `Expire.AccurateDir` | src/collector/expire.c:337-506 | If the books were right before, size and number are those of the files left on disk afterwards. |
| `Expire.ProfileOfOne` | src/collector/expire.c:337-506 | ExpireDir and ExpireProfile of one channel remove the same files, if they are after the same and not interrupted. |
| `ExpireSpec.MergeStep` | src/collector/expire.c:584-599 | Trying the oldest file next keeps the merged order. |
| `ExpireSpec.TotalStep` | src/collector/expire.c:619-626 | What a removal does to the sums over all channels. |
| `ExpireSpec.AllYoung` | src/collector/expire.c:641-668 | If the oldest file left is young enough, all are. |
| `ExpireSpec.DataNames` | src/collector/expire.c:402-405 | Data files are those called "nfcapd." and 12 or 14 characters, and these are the time that expiry goes by. |
| `ExpireSpec.DatedNames` | src/collector/expire.c:402-419 | A single directory expires those of them whose time is digits only. |
| `ExpireSpec.AgesByName` | src/collector/expire.c:641-683 | Every file removed for its age has a name below "nfcapd." and the limit, and if the age is reached, no file that is left has. |
| `ExpireSpec.OneOutcome` | src/collector/expire.c:337-506 | What is tried from one list is determined by the limits. |
| `Pipe.ParseConcat` | src/collector/privsep.c:169-222 | Messages are recognised in a stream read bit by bit just as in the whole. |
| `Pipe.RestFits` | src/collector/privsep.c:160-162 | The part that waits is below MAXMSGSIZE, so that read() is never asked for zero bytes. |
| `Pipe.Scan` | src/collector/privsep.c:164-222 | The loop over the buffer passes on the complete messages and moves the rest to the front. |
| `Pipe.PipeReader` | src/collector/privsep.c:138-236 | On the real buffer the reader passes on what the session of its reads says. |
| `Pipe.CutsDoNotMatter` | src/collector/privsep.c:160-233 | However the stream is cut, the same messages are passed on up to the first EXIT, and all if there is none. |
| `Pipe.SameSession` | src/collector/privsep.c:160-233 | Two ways to cut the same stream lead to the same messages. |
| `Pipe.UpToExitMeans` | src/collector/privsep.c:160-233 | What is compared are all messages, or those to the first EXIT with that one. |
| `Pipe.DeliverMeans` | src/collector/privsep.c:190-215 | Messages of the three known kinds are passed on, each as often as it came, and no others. |
| `Pipe.FailureHarmless` | src/collector/privsep.c:223-232 | After any piece of the stream, a failed read is harmless for every possible continuation if and only if no part of a message waits. |
| `Pipe.CutHarmless` | src/collector/privsep.c:160-233 | Whether the stream is cut behind a piece does not matter, for everything that can be read, if and only if the piece has no message of length zero, or one before it that ends the session, or leaves less than a header of room in the buffer. |
| `Pipe.FailureLosesMessage` | src/collector/privsep.c:223-232 | An input for which it is not: the message {2, 4} is lost, and one of its halves taken for the head of another. |
| `Pipe.FlushDependsOnTheCut` | src/collector/privsep.c:183-187 | Inputs for which it does: behind a message of length zero a launch message is passed on only if it is read later. |
| `Launcher.SendLauncherMessage` | src/collector/launch.c:411-472 | The vector is built and gathered to the message with header, five lengths, strings and alignment. |
| `Launcher.NameArrives` | src/collector/launch.c:411-419 | The file name that is recovered is sub-directory, slash, "nfcapd." and time if that fits 4094 bytes, and the first 4094 of them otherwise. |
| `Launcher.TotalIsAligned` | src/collector/launch.c:437-455 | A message takes whole words, and less than one more than it needs. |
| `Launcher.ProcessMessage` | src/collector/launch.c:313-347 | In place the message is taken apart; the strings at the returned places are those of the message, and a message shorter than its lengths, added up in 32 bits, is left as it was. Required is only that the four writes that follow the test stay inside the message. |
| `Launcher.InsideExactly` | src/collector/launch.c:331-345 | The four writes stay inside the message if and only if no string length is 0 and the strings end inside it. |
| `Launcher.TestIsEnough` | src/collector/launch.c:319-326 | The test of the length sees to that, if no string length is 0 and the sum fits 32 bits. |
| `Launcher.TestIsNotEnough` | src/collector/launch.c:319-326 | A message whose lengths wrap passes the test and is written outside of. |
| `Launcher.RoundTrip` | src/collector/launch.c:313-347 | The five fields sent are the five fields recovered, up to a total of 65535 bytes. |
| `Launcher.OneFrame` | src/collector/launch.c:456-467 | The reader sees the message as one if and only if its total length fits the 16 bits of the header. |
| `Launcher.ParseAll` | src/collector/launch.c:411-472 | A sequence of messages is taken apart into exactly these. |
| `Launcher.EverythingArrives` | src/collector/launch.c:313-347 | Sender, pipe, reader and launcher together: every message is recovered, however the pipe cuts the stream. |
| `Utf8.StateRows` | src/libnffile/util.c:747-765 | The rows of the table by state. |
| `Utf8.ByteClasses` | src/libnffile/util.c:747-765 | The byte classes of the table by ranges. |
| `Utf8.RunContinues` | src/libnffile/util.c:778-792 | From every state the machine accepts exactly what the grammar still allows there. |
| `Utf8.Verdict` | src/libnffile/util.c:778-792 | From state 0: ACCEPT exactly for strings of the grammar in section 4 of RFC 3629, REJECT exactly if no continuation is one, any other state exactly for a proper prefix. |
| `Utf8.Pieces` | src/libnffile/util.c:778-792 | Validating in pieces with a carried state is validating the whole. |
| `Utf8.Validator.Validate` | src/libnffile/util.c:778-792 | The loop with its early exit computes the run of the machine. |
| `Barrier.StepKeepsInv` | src/libnffile/barrier.c:120-156 | Every step of any thread keeps: workersWaiting is the number of blocked workers, the controller sleeps only while too few are, and the phases agree. |
| `Barrier.RunKeepsInv` | src/libnffile/barrier.c:120-156 | So does every run without causeless worker wakeups; the controller may have them. |
| `Barrier.InvIsSafe` | src/libnffile/barrier.c:120-156 | Between the return of controller_wait and release all workers are blocked, and no two are more than one phase apart. |
| `Barrier.NoneIsStuck` | src/libnffile/barrier.c:120-156 | With exactly numWorkers workers some thread can always go on: no wakeup is lost. |
| `Barrier.ReleaseFreesAll` | src/libnffile/barrier.c:150-156 | One release frees every worker exactly once. |
| `Barrier.SafeExactly` | src/libnffile/barrier.c:120-156 | Every run is safe if and only if there are at most numWorkers workers. |
| `Barrier.TooManyWorkers` | src/libnffile/barrier.c:120-156 | With more there is a run in which one of them runs while the controller is in control. |
| `Barrier.WakeupsWithoutCause` | src/libnffile/barrier.c:120-132 | With a causeless wakeup of a worker, for any number of workers, there is one too, since the wait is not repeated. |
| `Barrier.ControlBarrier.WorkerWaits` | src/libnffile/barrier.c:120-132 | The critical section of the worker is a step of the model and keeps its invariant and safety. |
| `Barrier.ControlBarrier.ControllerLooks` | src/libnffile/barrier.c:136-146 | The test of the controller is a step of the model and keeps its invariant; it ends the wait exactly if all workers are blocked. |
| `Barrier.ControlBarrier.ControllerReleases` | src/libnffile/barrier.c:149-156 | The release is a step of the model and keeps its invariant; it wakes all workers, in the next phase. |
| `Itoa.DecMeans` | src/inline/itoa.c:35-163 | The reference: the decimal digits of a number, without leading zeros, have its value. |
| `Itoa.TenthOf` | src/inline/itoa.c:41 | (v*103)>>10 is v/10 on its range. |
| `Itoa.HundredthOf` | src/inline/itoa.c:63 | (v*5243)>>19 is v/100 for v <= 9999. |
| `Itoa.TenThousandthOf` | src/inline/itoa.c:116 | (v*109951163)>>40 is v/10000 for v < 10^8. |
| `Itoa.TensOfLanes` | src/inline/itoa.c:125-127 | The four tens are found at once: no lane carries into another, and 64 bits suffice. |
| `Itoa.HundredMillionthOf` | src/inline/itoa.c:108 | x*0x55E63B89>>57 is x/10^8 if and only if the given bound holds; there is no overflow below 10^10. |
| `Itoa.FirstFailure` | src/inline/itoa.c:108 | The first number that is not among the right ones is 5999999999; 6000000000 is one again. |
| `Itoa.HighIsRight` | src/inline/itoa.c:108 | From 10^8 on, with the overflow of 64 bits, the number in front is right and has at most two digits exactly for the right numbers. |
| `Itoa.FrontTells` | src/inline/itoa.c:107-114 | With the digits of that number in front and eight more behind, what is written is the decimal form exactly for the right numbers. |
| `Itoa.SmallDecimalToString` | src/inline/itoa.c:35-48 | Exactly the digits of x <= 99 are written, nothing for larger x. |
| `Itoa.SmallUlongToString` | src/inline/itoa.c:50-87 | Exactly the digits of x <= 9999, most significant first, and no other byte. |
| `Itoa.EightDigits` | src/inline/itoa.c:116-134 | The last eight digits, padded with zeros, computed in one word of 64 bits with its overflow. |
| `Itoa.MediumUlongToString` | src/inline/itoa.c:98-106 | Exactly the digits of five to eight, and no other byte. |
| `Itoa.LargeUlongToString` | src/inline/itoa.c:107-114 | From 10^8 on the digits are right if and only if the number is among the right ones; nothing behind them changes. |
| `Itoa.CopyTail` | src/inline/itoa.c:136-160 | Exactly the last digits of the word are copied, by fours, twos and ones. |
| `Itoa.Itoa` | src/inline/itoa.c:89-163 | For every 64-bit x: its decimal digits and their count come out if and only if x < 10^8, or x < 10^10 and x/10^8 * 24144128 + x%10^8 * 0x55E63B89 < 2^57. Nothing behind the digits changes. |

## Left out

- Failing `malloc`, `realloc` and system calls, and `free`: allocation succeeds, and nodes that are freed are only forgotten.
- The bits of packed flags in khash and the widths of counters in rbtree, kbtree and khash, which hold as long as sizes fit 32 bits; `kroundup32` is on 32-bit words.
- Keys of rbtree and kbtree are compared as integers, as any total order could be; hash values in khash are an arbitrary function of the key.
- HashTable.Table.Put: not for a table without any empty bucket, into which a new key cannot be put; the contract says when one arises, at 2^31 buckets. There kh_resize, asked for more, finds that the entries do not fit 16 buckets and does nothing, as here.
- KbTree.BTree.Del: requires the key to be present, as the source does; `n_nodes`, which merges do not count down, is not kept.
- `kb_itr_get`, the splay tree and the RBT wrappers of rbtree.h.
- `queue_producers`, `queue_length` and the statistics of the queue but for `maxUsed`; the polling loop of `queue_sync` is its broadcast only.
- NfFile.RunKeepsInv: the queue between producer and writers is the abstract FIFO that RingQueue and QueueThreads are proved to be, without its capacity; writes and reads of the disk succeed.
- Compression: compress and uncompress are an assumed inverse pair whose output fits a block and is not empty. Encryption and old file layouts.
- `SumStatRecords` on what is not counted or seen as a time, `MapRecordHandle`, and the contents of the appendix beyond being one block.
- SequencerTable.Sequencer.SequencerRun: for tables without nested sub-template lists (sections 4.5.2 and 4.5.3 of RFC 6313), and for good ones: with others the source stores outside of elements, as `SequencerSafety.SafeExactly` says.
- SequencerSetup.SetupIsSafe: for templates whose entries of type 0 are skips, that give a type one output length and stay inside their extensions, as SetSequence in ipfix.c builds them from its map, and whose elements fit into one record; SetSequence itself and CalcOutRecordSize are not modelled. The sizes in the table of extensions are a parameter.
- Fts.FTS.Read: for a logical walk without change of directory (as the expiry of profiles opens it) over a tree that does not change and can be read; so no `fts_children`, FTS_AGAIN, FTS_FOLLOW, FTS_XDEV, error entries, growth of the path buffer, or the names written behind the path while a directory is read. Paths are strings without limit.
- Fts.FTS.Set: only FTS_SKIP, and only for the entry returned last, as all callers use it.
- Fts.Open: at least one argument; with none the source follows a pointer that was never set. `qsort` sorts stably here, which makes no difference for different names.
- Expire.ExpireProfile: the walk of a channel is the sequence of entries fts_read returns, which Fts is about; whether a directory is removed when it gets empty, and the calendar (time strings are compared as given, the time of a file is a function of its name). The list of channels is a sequence. After an interruption the first time of the profile is that of the next file of one channel only, so nothing is said of it.
- Expire.ExpireDir: the question to a user at a terminal. The dated files of a walk are taken to come in the order of their names, as directories named by date give it; so are those of each channel in Expire.ExpireProfile.
- Expire.ExpireProfile also takes the books to be right before the run; the marks of a channel of which no file was tried are not in its contract.
- The linked list of messages behind `pipeReader` (`pushMessage`, `getMessage`), which is a plain FIFO, signals, and running the launcher's command.
- Launcher.ProcessMessage: for messages with room for their fixed part, and with lengths for which the source does not write outside of them; `Launcher.InsideExactly` says which these are.
- Barrier.RunKeepsInv: workers have no causeless wakeups; with them it fails, as shown.
- Itoa.Itoa: the buffer has room for the digits; for numbers that are not right it is not said which bytes are written in place of their digits.
