# TrapHandler, verified

Dafny models of the three hard parts of TrapHandler, with proofs:

1. the lock-free queue between one producer and one consumer (`TrapHandler/readerwriterqueue.h`);
2. the semaphore and the blocking queue built on it (`TrapHandler/atomicops.h`, `TrapHandler/readerwriterqueue.h`);
3. the SNMP trap decoder and the text form of object identifiers (`TrapHandler/CSnmpTrap.h`,
   `TrapHandler/asn1parsers.h`, `TrapHandler/snmpOid.cpp`).

`dafny verify dfyconfig.toml` checks everything.

## The queue

The queue is a ring of circular buffers. It is modelled twice.

**As two threads.** `HeapSteps` is the code as a machine: blocks linked by pointers, masked indices, slots that are raw
memory or hold one constructed element, and one atomic load or store per step of either thread. A failed assertion, a
construction over a live element, a read of a raw slot and a bad pointer are steps into a fault. Every interleaving is a
schedule (`Runs`), with allocation failing whenever the schedule says so. `RingSteps` is the same ring with unbounded
counters, logs instead of slots and no pointers; `Fifo` is an atomic object that keeps a sequential history. Each machine
refines the next (`HeapRefinement`, `RingRefinement`), so a run of any length, from any configuration that the constructor
builds (`Sizing`), is explained by a history that a FIFO queue allows (`Runs.RunExplained`). `QueueTheorems` draws the
conclusions: linearizability (one legal sequential history, which agrees with the answers, the accepted values and the
memory, and begins, at every moment between two consumer calls, with exactly the calls settled by then), conservation, the capacity guarantee, the memory bound, the absence of faults,
wait-freedom, and the destructor destroying exactly what is left. `Growth` adds what the two ways to enqueue do with memory:
`try_enqueue` allocates nothing; `enqueue` fails only if an allocation of its has failed; and the sizes of all blocks.

An enqueue takes effect when `tail` is stored if there is room, and when `tailBlock` is stored if the element went to
another block, where it was written and its `tail` stored before. A removal takes effect when `front` is stored. A call
that finds nothing takes effect at the load of `tail` that found the front block empty, although it learns only later,
from `tailBlock`, that the whole queue was empty then; its history entry is therefore inserted at an earlier place, but
never before the place where the call began.

**As a class.** `ReaderWriterQueue.Queue` has the fields, loops and in-place updates of the source, over heap blocks with
slot arrays (`QueueBlock.Block`). Its methods are proved against the sequence the memory represents. The producer may enqueue
any number of elements at five places of a consumer call: after the first look, after the load of `tailBlock`, after the
second look, after the look at the next block, and before the element is taken. So the second look (the one that the source's
comment explains) is needed by the proof.

## The semaphore and the blocking queue

`Semaphore` is the machine of one signalling and one waiting thread, access by access, with a kernel semaphore that is a
number of tokens and a timed wait that may expire at any moment. `LightweightSemaphore.Sema` is the class, with the spin
loop and the undo loop. `BlockingQueue` is the composition: the producer enqueues in the inner queue and then signals, the
consumer takes a permit and then calls the inner queue, all interleavings of both machines' accesses. Its runs project to
runs of the inner queue, so that the queue's theorems apply, and a ledger ties the semaphore's books to the number of
elements held; from it follow all four success assertions. What is stored and withdrawn is linearizable, real time included
(`BlockingQueue.BlockingLinearizable`). `BlockingWaits` says how its calls wait: the attempts never, a wait in the kernel only
after 10000 looks at the count, and a timed one until its time has run out there. `BlockingReaderWriterQueue.Queue` is the
class over the two classes, for calls that nothing interrupts.

Findings:

- `signal(0)` is accepted by the source's `assert(count >= 0)`. Given to a waiter that is blocked in the kernel it posts a
  token that no signal stands for, and the wait succeeds although nothing was signalled
  (`Semaphore.SignalZeroForgesPermit`). The books survive a signal exactly if its amount is at least one or nobody waits in
  the kernel (`Semaphore.SignalKeepsBooks`). The blocking queue always signals one.
- `peek` of the blocking queue does not ask the semaphore. It can show an element whose enqueue has not signalled yet, and a
  `try_dequeue` right after it can be refused (`BlockingQueue.LookOutrunsSignal` is such a run);
  `BlockingQueue.RefusedMeansNothingSignalled` says exactly when.

## The decoder

`Ber` and `TrapWire` are the specification: which octets stand for which message (`Carries`: any definite length form, numbers in
two's complement with any leading octets), and the shortest encoding (`Encode`). Where the code skips a length (around the
data of the request, the list and the bindings) `Carries` admits wrong ones too, so that the theorems cover them;
`TrapWire.TrueLengths` says which are right, and the examples and the shortest encodings have them. `Asn1Parsers` and `TrapDecoding` say what the cursor
parsers and `Decode` make of any octets at all, including rejections and behaviour that C++ leaves undefined (a read outside
the buffer, a read through the null pointer that `ParseInt` or `ParseBigInt` returns for too many octets). 32-bit and 64-bit
wrap-around is written out. The methods of `Asn1Parsers`, `SnmpOid.Oid` and `SnmpTrap.Trap` are the imperative code with its
loops, arrays and fields, proved to do what those functions say; `TrapWire.DecodeInverts` is the main theorem.

Three modules say what happens to octets that are no encoding of anything. `Asn1Outcomes` states for each cursor parser, in
terms of the octets alone, when it yields a value and which. `TrapGrammar` is a grammar of the packets that `Decode` accepts
(`TrapGrammar.DecodeIff`: these and no others). `TrapRejects` says which encodings are rejected. `OidReading` does the same for the
texts that `BuildFromWcsStr` reads.

Findings:

- `Decode` inverts an encoding if and only if the length of a v1 trap's address and of every null value is written in one
  octet, the generic code of a v1 trap with one octet of length and one of content, and no number that it keeps is negative
  (`TrapWire.DecodeInverts`). It compares the lengths of the address and the generic code with one octet, and rejects a v1
  trap with others (`TrapWire.LongAddressIsRejected`: 40 81 04, and 02 02 00 06). It skips one octet for the length of a
  null value: after 05 81 00 the loop stops on the zero as if the list were over, the packet is accepted and the later
  bindings are lost without notice (`TrapWire.LongNullDropsBindings`).
- The parsers take the octets of an INTEGER without a sign. It comes back exactly if its first bit is zero, that is, if it is
  not negative (`Asn1Parsers.IntComesBackIff`); a request with the number -1 is decoded with 255
  (`TrapWire.NegativeLosesSign`).
- For generic traps other than 6 the code makes the trap's identity the enterprise followed by the generic code plus one;
  section 3.1 of RFC 3584 has 1.3.6.1.6.3.1.1.5 followed by that number (`TrapWire.ColdStartDiffers`). The two agree exactly
  for generic trap 6 and for the enterprise 1.3.6.1.6.3.1.1.5 (`TrapWire.IdentityIff`). The model follows the code.
- `ParseOid` splits only a first subidentifier of 43. An object identifier comes back exactly if it starts with 1.3
  (`Asn1Parsers.OidRoundTripIff`).
- `ParseBool` expects the cursor at the length octet and `Decode` calls it after that: a boolean is read one octet late
  (`TrapWire.BoolReadsLate`).
- `operator const wchar_t*` of an identifier tests the wrong way round and never makes a text (`SnmpOid.Oid.ToConstText`).
- `BuildFromWcsStr` compares with `MAXOIDLEN` only after a dot, so it accepts 51 arcs. Text round trips hold exactly up to
  51 arcs (`OidText.RoundTrip`).
- `BuildFromWcsStr` deletes an old text and keeps the pointer to it. If the new text is not too long and begins with neither a
  dot nor one of the digits 1 to 8, it deletes the old one again (`SnmpOid.Oid.BuildFromWcsStr` says exactly when,
  `SnmpOid.TextDeletedTwice` is such a use).
- `MakeWcsStr` makes a text exactly if it has at most 253 characters (`OidText.PrintsIff`). It drops a longer one if some
  prefix of the arcs makes a text of 254 or 255 characters, as 200 arcs of one digit do (`OidText.DiscardExample`). If none
  does and the text has more than 255 characters, it writes beyond its buffer before it can notice (`OidText.OverrunsIff`);
  24 arcs are enough for that (`OidText.OverrunExample`).

## Model

| member | source | states |
|---|---|---|
| QueueTheorems.Linearizable | TrapHandler/readerwriterqueue.h:245-336 | in every run there is one sequential history that a FIFO queue allows, with the consumer's answers in order, the accepted values in order, ending in what the memory holds, and beginning, at every moment between two consumer calls, with exactly the calls settled by then |
| QueueTheorems.RealTimeOrder | TrapHandler/readerwriterqueue.h:60-73 | in that history an enqueue that returned before a consumer call was made comes before it, and the other way round |
| QueueTheorems.FirstInFirstOut | TrapHandler/readerwriterqueue.h:473-567 | in every run, what was removed followed by what is held in memory is what was accepted, in order |
| QueueTheorems.NeverFaults | TrapHandler/readerwriterqueue.h:258-316 | in no run does an assertion fail, an element get constructed over another, a raw slot get read or a pointer dangle |
| QueueTheorems.RingInEveryRun | TrapHandler/readerwriterqueue.h:500-555 | in every run the pointers form one cycle, blocks between front and tail are full, those after front up to tail non-empty, the others empty, and all indices are conservative counters modulo the block size |
| QueueTheorems.EmptiedSlotIsReserved | TrapHandler/readerwriterqueue.h:277-284 | in every run, while the consumer has emptied a slot and not stored `front`, the producer does not construct there |
| QueueTheorems.MissMeansEmpty | TrapHandler/readerwriterqueue.h:286-334 | a call reports an empty queue only if the queue was empty at some moment since the call |
| QueueTheorems.RefusalMeansFull | TrapHandler/readerwriterqueue.h:76-131 | an enqueue fails only if at least `maxSize` elements were held when it was called |
| QueueTheorems.MemoryBound | TrapHandler/readerwriterqueue.h:500-555 | no more blocks than the larger of the first count and 2 + peak / (block size - 1), and none allocated unless an enqueue found `maxSize` elements |
| Growth.RefusalMeansNoLeave | TrapHandler/readerwriterqueue.h:531-558 | in every run an enqueue that fails was called as `try_enqueue`, or an allocation of its has failed since the call; it leaves the number of blocks as it was |
| Growth.BlocksPerCall | TrapHandler/readerwriterqueue.h:212-238 | in every run `try_enqueue` allocates no block; `enqueue` allocates one at most, and fails if that fails |
| Growth.BlockSizes | TrapHandler/readerwriterqueue.h:533-539 | in every run the first blocks have the planned size, and each later one has twice the size of the one made before it, or the same once that has reached the maximum; `largestBlockSize` is the size of the last |
| QueueTheorems.PeekIsBinding | TrapHandler/readerwriterqueue.h:339-381 | the consumer's next call removes, or sees again, the very element that `peek` returned |
| QueueTheorems.DestroyedOnce | TrapHandler/readerwriterqueue.h:180-204 | over a run that ends in the destructor every accepted element is destroyed exactly once, in order, and every slot ends raw |
| QueueTheorems.EnqueueIsBounded | TrapHandler/readerwriterqueue.h:473-567 | in every run, while an enqueue is going on the producer makes fewer than 12 moves, whatever the consumer does |
| QueueTheorems.DequeueIsBounded | TrapHandler/readerwriterqueue.h:245-449 | the same for the consumer's calls: fewer than 14 moves |
| QueueTheorems.ProducerWaitFree | TrapHandler/readerwriterqueue.h:473-567 | every own step brings an enqueue nearer to its end, and leaves the consumer where it is |
| QueueTheorems.ConsumerWaitFree | TrapHandler/readerwriterqueue.h:245-336 | the same for the consumer's calls |
| Runs.RunExplained | TrapHandler/readerwriterqueue.h:245-567 | every run of the concrete machine is matched by the counted ring and by the atomic FIFO object |
| HeapRefinement.ProducerSimulates | TrapHandler/readerwriterqueue.h:473-567 | each atomic access of the producer, with pointers, masks and slots, is one step of the counted ring or none |
| HeapRefinement.ConsumerSimulates | TrapHandler/readerwriterqueue.h:245-449 | each atomic access of the consumer is one step of the counted ring or none |
| HeapView.HeldIs | TrapHandler/readerwriterqueue.h:60-71 | the slots in use from `frontBlock` round to `tailBlock` hold exactly the abstract contents |
| RingRefinement.ProducerRefines | TrapHandler/readerwriterqueue.h:486-555 | each step of an enqueue is a step of the atomic object: it appends, finds the queue full, or nothing visible happens |
| RingRefinement.ConsumerRefines | TrapHandler/readerwriterqueue.h:268-332 | each step of a consumer call is a step of the atomic object: it takes or sees the head, notes that the queue is empty, or nothing visible happens |
| RingRefinement.NoSpareBlock | TrapHandler/readerwriterqueue.h:502-558 | a producer that has to allocate has met at least the promised number of elements, and one more block is accounted for |
| RingSteps.NextNotDrained | TrapHandler/readerwriterqueue.h:300-311 | when the consumer gets to the next block, that block is not empty |
| RingSteps.ProducerKeepsOk | TrapHandler/readerwriterqueue.h:486-555 | every step of the producer keeps the ring's invariant, insertion of a block included |
| RingSteps.ConsumerKeepsOk | TrapHandler/readerwriterqueue.h:268-328 | every step of the consumer keeps the ring's invariant |
| RingSteps.StartOk | TrapHandler/readerwriterqueue.h:80-137 | the ring that the constructor leaves satisfies the invariant |
| Fifo.Conservation | TrapHandler/readerwriterqueue.h:241-243 | in a history that a FIFO queue allows, values put are values removed followed by the queue's contents |
| Fifo.LookBinds | TrapHandler/readerwriterqueue.h:339-343 | in such a history the answer after a look is about the element seen |
| Fifo.InsertMissed | TrapHandler/readerwriterqueue.h:286-334 | a failed call may be put into the history at a moment when the queue was empty |
| Slots.SuccIdx | TrapHandler/readerwriterqueue.h:281 | stepping with `& sizeMask` is counting modulo the block size |
| Slots.EmptyTests | TrapHandler/readerwriterqueue.h:272 | the index tests for an element decide the tests on counters |
| Slots.RoomTests | TrapHandler/readerwriterqueue.h:490-491 | the index tests for room decide the tests on counters, with the old and the new copy of `front` |
| Slots.DistanceTest | TrapHandler/readerwriterqueue.h:462 | the masked wrap-around difference is the number of elements in the block |
| Slots.Build | TrapHandler/readerwriterqueue.h:494-495 | the slot that `tail` indexes is raw, and constructing there disturbs no element |
| Slots.Take | TrapHandler/readerwriterqueue.h:277-279 | the slot that `front` indexes holds the head element, and emptying it disturbs no other |
| Slots.Release | TrapHandler/readerwriterqueue.h:281-284 | storing `front` hands the slot to the producer |
| Blocks.ContentsPush | TrapHandler/readerwriterqueue.h:494-498 | writing in the tail block appends to the contents |
| Blocks.ContentsAdvance | TrapHandler/readerwriterqueue.h:277-284 | advancing the front block removes the head |
| Blocks.ContentsRotate | TrapHandler/readerwriterqueue.h:316 | leaving a drained front block keeps the contents |
| Blocks.ContentsNext | TrapHandler/readerwriterqueue.h:305-322 | with a drained front block, the head is at the front of the next block |
| Blocks.ContentsPublish | TrapHandler/readerwriterqueue.h:524-527 | an element written in the next block joins the contents when `tailBlock` moves there |
| Blocks.ContentsCrowded | TrapHandler/readerwriterqueue.h:500-555 | when no block is free, all but the front block hold their full number of elements |
| Teardown.DestroyIs | TrapHandler/readerwriterqueue.h:180-204 | the destructor, run on any reachable idle memory, destroys the contents in order and leaves all slots raw |
| Sizing.SizedIsValid | TrapHandler/readerwriterqueue.h:90-97 | the constructor's arithmetic gives enough blocks for `maxSize` elements with one block to spare, or a single block |
| Sizing.BlocksSuffice | TrapHandler/readerwriterqueue.h:94-98 | the rounded-up division gives the least number of blocks that suffices |
| Sizing.SizedIs | TrapHandler/readerwriterqueue.h:90-97 | below twice the maximal block size there is one block, of the least power of two above `maxSize`; from there on there are blocks of that maximal size, as many as `maxSize` elements need with one to spare, and no more |
| Sizing.Plan | TrapHandler/readerwriterqueue.h:92-99 | in 64-bit words, the planned number and size of the first blocks if and only if `maxSize` is below 2^63; otherwise one block of no slots |
| Words.CeilToPow2 | TrapHandler/readerwriterqueue.h:578-590 | the least power of two not below x for every x from 1 to 2^63, otherwise 0 |
| Words.LeastPow2IsLeast | TrapHandler/readerwriterqueue.h:578-590 | that power of two is at least x, and no smaller one is |
| Words.MaskIsMod | TrapHandler/readerwriterqueue.h:637-640 | `& (size - 1)` is the remainder modulo size for every power of two |
| ReaderWriterQueue.Queue.constructor | TrapHandler/readerwriterqueue.h:80-137 | builds a valid empty queue of the planned number of blocks, each with an array of the planned size |
| ReaderWriterQueue.Queue.InnerEnqueue | TrapHandler/readerwriterqueue.h:473-567 | appends the element, or fails leaving the contents; it fails exactly if the tail block is full, the next one is the front block, and it may not allocate or cannot, and then at least the promised number is held; it adds a block, of the size of line 533, exactly if there was no room and it succeeds |
| ReaderWriterQueue.Queue.TryDequeue | TrapHandler/readerwriterqueue.h:245-336 | with any enqueues at five places of the call, removes and returns the head; fails only if the queue was empty when called |
| ReaderWriterQueue.Queue.Pop | TrapHandler/readerwriterqueue.h:386-449 | does to the contents what `try_dequeue` does, and succeeds and fails with it |
| ReaderWriterQueue.Queue.Peek | TrapHandler/readerwriterqueue.h:344-381 | returns the head and changes nothing but for what the producer enqueues meanwhile |
| ReaderWriterQueue.Queue.SizeApprox | TrapHandler/readerwriterqueue.h:453-466 | without concurrent calls, the number of elements held, modulo the word |
| ReaderWriterQueue.Queue.Destroy | TrapHandler/readerwriterqueue.h:180-204 | destroys exactly the contents, in order; every slot of every block ends raw |
| ReaderWriterQueue.Queue.EnqueueHere | TrapHandler/readerwriterqueue.h:494-498 | the fast path appends |
| ReaderWriterQueue.Queue.EnqueueNext | TrapHandler/readerwriterqueue.h:511-527 | the next block is empty (line 518) and the element goes there |
| ReaderWriterQueue.Queue.EnqueueNew | TrapHandler/readerwriterqueue.h:531-554 | a new block with the element, twice as large as the largest unless that has reached the maximum, is linked in behind the tail block |
| ReaderWriterQueue.Queue.Hop | TrapHandler/readerwriterqueue.h:300-316 | the next block is not empty (line 311); moving there keeps the contents |
| ReaderWriterQueue.Queue.Serve | TrapHandler/readerwriterqueue.h:277-284 | moves the head out of its slot and advances |
| QueueBlock.Block.Append | TrapHandler/readerwriterqueue.h:494-498 | constructs in a raw slot and stores `tail` |
| QueueBlock.Block.TakeOut | TrapHandler/readerwriterqueue.h:277-284 | moves the front element out, leaves its slot raw and stores `front` |
| QueueBlock.Block.DestroyAll | TrapHandler/readerwriterqueue.h:193-197 | destroys the block's elements in order and leaves all its slots raw |
| Semaphore.SignalKeepsBooks | TrapHandler/atomicops.h:640-649 | a signalling step keeps the books exactly if it is for at least one or nobody waits in the kernel |
| Semaphore.WaitKeepsBooks | TrapHandler/atomicops.h:570-627 | every step of the waiting thread keeps the books, the undo loop included |
| Semaphore.CountIsExact | TrapHandler/atomicops.h:570-649 | in every run the count is at least -1, waits never outnumber signals, line 644 holds, and between waits no token is left over |
| Semaphore.NoLostWakeUp | TrapHandler/atomicops.h:586-593 | blocked while signals outnumber waits: exactly one token is there or about to be posted, and it lets the waiter go |
| Semaphore.TimeoutIsHonest | TrapHandler/atomicops.h:596-610 | a timed-out wait gives up if and only if every signal is used up; the loop repeats only until the post |
| Semaphore.SignalZeroForgesPermit | TrapHandler/atomicops.h:640-649 | a run in which `signal(0)` makes a wait succeed although nothing was signalled |
| LightweightSemaphore.Sema.Signal | TrapHandler/atomicops.h:640-649 | adds to the count and posts a token exactly for a blocked waiter; the books stay in order if and only if the amount is at least one or nobody is blocked |
| LightweightSemaphore.Sema.TryWait | TrapHandler/atomicops.h:619-627 | takes one permit, or fails with every signal used up, at once |
| LightweightSemaphore.Sema.Spin | TrapHandler/atomicops.h:576-585 | takes one permit within 10000 looks, or goes on to the decrement after exactly that many |
| LightweightSemaphore.Sema.Block | TrapHandler/atomicops.h:589-595 | a token lets it go; it gives up only with a time limit, after exactly that many turns |
| LightweightSemaphore.Sema.Undo | TrapHandler/atomicops.h:601-610 | ends with a permit, or with nothing when nothing is left; no stray token either way |
| LightweightSemaphore.Sema.WaitWithPartialSpinning | TrapHandler/atomicops.h:570-611 | one permit exactly if true; false only with every signal used up, after the spins and the whole time limit in the kernel; a timed wait that has had more turns than that still waits only for a post under way |
| LightweightSemaphore.Sema.Wait | TrapHandler/atomicops.h:629-638 | the same for the whole call, after which the count is exact and no token is left |
| BlockingQueue.PermitYieldsElement | TrapHandler/readerwriterqueue.h:748-830 | in every run all four success assertions hold, no inner assertion fails, and `wait_dequeue` never returns without an element |
| BlockingQueue.EveryElementHasAPermit | TrapHandler/readerwriterqueue.h:697-790 | in every run the elements held are the signals not granted, at most one not signalled yet, and those a permit stands for |
| BlockingQueue.SizeIsExact | TrapHandler/readerwriterqueue.h:834-837 | between waits the semaphore's count is the number of elements held, but for one not signalled yet |
| BlockingQueue.RefusedMeansNothingSignalled | TrapHandler/readerwriterqueue.h:748-790 | a call is refused exactly if every element held, at most one, has not been signalled yet |
| BlockingQueue.LookOutrunsSignal | TrapHandler/readerwriterqueue.h:748-815 | a run in which `peek` returns an element and the `try_dequeue` right after it is refused |
| BlockingWaits.TimedWaitWaits | TrapHandler/readerwriterqueue.h:762-790 | in every run a timed wait comes back empty-handed only after 10000 looks at the count and after its time has run out while it was blocked in the kernel; `wait_dequeue` never does |
| BlockingWaits.AttemptsNeverWait | TrapHandler/readerwriterqueue.h:747-830 | in every run `try_dequeue` and `pop` neither spin nor block nor take anything back |
| BlockingWaits.BlockedUntil | TrapHandler/atomicops.h:575-595 | in every run a wait blocks only after exactly 10000 looks; the end of its time sends a timed wait on, and no other; a token lets it go; nothing else does |
| BlockingWaits.UndoneOnlyWhenRunOut | TrapHandler/atomicops.h:596-610 | in every run only a timed wait whose time has run out undoes its decrement |
| BlockingWaits.InnerCallIsAsked | TrapHandler/readerwriterqueue.h:747-830 | in every run the call made in the inner queue is the one that was asked for, and its answer the one returned |
| BlockingWaits.RefusalMeansNoLeave | TrapHandler/readerwriterqueue.h:697-739 | what `Growth.RefusalMeansNoLeave` says, for the runs of the blocking queue |
| BlockingQueue.NobodySleepsOnAnElement | TrapHandler/readerwriterqueue.h:763-770 | a consumer blocked while an element is held has a token waiting, or the producer is on its way to the post |
| BlockingQueue.BlockingLinearizable | TrapHandler/readerwriterqueue.h:697-830 | over every run, one history that a FIFO queue allows has what was stored and withdrawn, leaves what is held, and begins, whenever the consumer is between calls of the inner queue, with exactly what was stored and withdrawn by then |
| BlockingQueue.BlockingFirstInFirstOut | TrapHandler/readerwriterqueue.h:697-830 | over every run, what was withdrawn followed by what is held is what was stored, in order |
| BlockingQueue.RunExplained | TrapHandler/readerwriterqueue.h:683-849 | the inner queue of every run is in the state of a run of its own, explained by the atomic object |
| BlockingReaderWriterQueue.Queue.Enqueue | TrapHandler/readerwriterqueue.h:697-739 | appends and gives exactly one permit, or fails: exactly if there is no room and no leave or memory to make any |
| BlockingReaderWriterQueue.Queue.TryDequeue | TrapHandler/readerwriterqueue.h:747-757 | removes the head, the assertion holding, or finds the queue empty |
| BlockingReaderWriterQueue.Queue.WaitDequeue | TrapHandler/readerwriterqueue.h:762-790 | removes the head, the assertion holding; on an empty queue fails after 10000 looks and the whole time limit, and goes on waiting without one |
| BlockingReaderWriterQueue.Queue.Pop | TrapHandler/readerwriterqueue.h:821-830 | drops the head, the assertion holding, exactly if there is one |
| BlockingReaderWriterQueue.Queue.SizeApprox | TrapHandler/readerwriterqueue.h:834-837 | the number of elements held |
| Ber.LengthEncoded | TrapHandler/asn1parsers.h:14-40 | the shortest definite form stands for its length (section 8.1.3 of X.690) |
| Ber.IntEncoded | TrapHandler/asn1parsers.h:57-72 | the shortest two's complement octets stand for their number, negative ones included (section 8.3 of X.690) |
| Ber.SubIdEncoded | TrapHandler/asn1parsers.h:98-110 | base-128 octets stand for their subidentifier (section 8.19 of X.690) |
| Asn1Parsers.FieldLengthInverts | TrapHandler/asn1parsers.h:14-40 | both definite forms are understood: exactly below 2^32, modulo 2^32 beyond |
| Asn1Parsers.AccumulateIs | TrapHandler/asn1parsers.h:42-89 | any octets give the number they stand for modulo the width of the word |
| Asn1Outcomes.LengthOutcome | TrapHandler/asn1parsers.h:14-40 | for any octets: a length is read exactly if its octets are in the buffer; it is the one octet below 128, or the number of the counted octets modulo 2^32, 80 alone included |
| Asn1Outcomes.NumbersIff | TrapHandler/asn1parsers.h:42-89 | for any octets: up to four, or eight, give their number exactly; addresses of any length give it modulo 2^32; octets beyond the buffer or beyond that count give nothing |
| Asn1Outcomes.TextIff | TrapHandler/asn1parsers.h:137-151 | for any octets: those below 128 become themselves, the others 65536 - 256 more (FC becomes FFFC) |
| Asn1Outcomes.TextKeepsOctets | TrapHandler/asn1parsers.h:137-151 | two fields become the same text if and only if they have the same octets |
| Asn1Outcomes.OidIff | TrapHandler/asn1parsers.h:91-126 | for any octets: groups that end at the first octet below 128, or at the end of the field, become arcs modulo 2^32, a first 43 becoming 1.3 and nothing else being split |
| Asn1Outcomes.Groups | TrapHandler/asn1parsers.h:98-110 | any octets fall into such groups |
| Asn1Parsers.AccumulateBeyond | TrapHandler/asn1parsers.h:42-89 | octets that are not all in the buffer are read beyond its end |
| Asn1Parsers.IntInverts | TrapHandler/asn1parsers.h:57-89 | up to four, or eight, octets give the number they stand for without a sign |
| Asn1Parsers.IntComesBackIff | TrapHandler/asn1parsers.h:57-89 | an INTEGER of up to four, or eight, octets comes back if and only if its first bit is zero, that is, if it is not negative |
| Asn1Parsers.OidArcs | TrapHandler/asn1parsers.h:91-126 | for any octets: consumes exactly `fieldLen` of them and stores at most `fieldLen` + 1 arcs |
| Asn1Parsers.OidInverts | TrapHandler/asn1parsers.h:98-123 | what becomes of any encoded object identifier: itself under 1.3, otherwise the first two arcs stay one number |
| Asn1Parsers.OidRoundTripIff | TrapHandler/asn1parsers.h:98-123 | an object identifier that X.690 allows comes back if and only if it starts with 1.3 |
| Asn1Parsers.StrInvertsIff | TrapHandler/asn1parsers.h:137-151 | text comes back as its octets if and only if they are ASCII |
| Asn1Parsers.GetFieldLength | TrapHandler/asn1parsers.h:14-40 | the method does what `FieldLength` says, for any octets |
| Asn1Parsers.ParseInt | TrapHandler/asn1parsers.h:57-72 | the method does what `Int` says |
| Asn1Parsers.ParseBigInt | TrapHandler/asn1parsers.h:74-89 | the method does what `BigInt` says |
| Asn1Parsers.ParseIP | TrapHandler/asn1parsers.h:42-55 | the method does what `Ip` says |
| Asn1Parsers.ParseOid | TrapHandler/asn1parsers.h:91-126 | the loops do what `OidArcs` says, write only inside their array, leave the arcs in the object, and leave its old text |
| Asn1Parsers.ParseStr | TrapHandler/asn1parsers.h:137-151 | the loop does what `Str` says, which `Asn1Outcomes.TextIff` characterises |
| TrapWire.DecodeInverts | TrapHandler/CSnmpTrap.h:193-532 | an encoding of a v1 trap, v2 trap or inform decodes to that message, all fields and bindings in order, consuming the whole packet, if and only if the v1 address and all null values have one-octet lengths, the generic code one octet of length and one of content, and no kept number is negative; and what happens otherwise |
| TrapWire.RoundTrip | TrapHandler/CSnmpTrap.h:193-532 | the shortest encoding of every encodable message decodes to it if and only if it has no negative kept number and no generic code of 128 or more |
| TrapWire.LongNullDropsBindings | TrapHandler/CSnmpTrap.h:506-510 | a v2 trap with a null written 05 81 00, and true lengths, is accepted short of its end, its second binding lost |
| TrapGrammar.DecodeIff | TrapHandler/CSnmpTrap.h:193-532 | for any octets and any packet length: a packet is accepted, as a certain trap and up to a certain position, if and only if it has the shape that `PacketAt` spells out in tags, lengths and numbers |
| TrapGrammar.Accepted | TrapHandler/CSnmpTrap.h:193-532 | the positions of the fields of an accepted packet |
| TrapGrammar.AcceptedIs | TrapHandler/CSnmpTrap.h:193-532 | a packet of that shape is accepted as what its octets say |
| TrapGrammar.AcceptedIsTrap | TrapHandler/CSnmpTrap.h:197-254 | whatever is accepted is a SEQUENCE of exactly the packet's length, its request has tag A4, A6 or A7, found again at `pReqType`, and each variable has one of the seven types |
| TrapGrammar.ValueIff | TrapHandler/CSnmpTrap.h:480-525 | for any octets: which field of a variable is set, to what, from the type and the number of octets, all others staying as they were made |
| TrapRejects.RejectedIff | TrapHandler/CSnmpTrap.h:193-532 | an encoding that is right in everything else is rejected if and only if its outer length, its request's tag, a one-octet length of a v1 trap, or the type of a value that is read is wrong; nothing undefined happens |
| TrapRejects.OtherTagOrLength | TrapHandler/CSnmpTrap.h:205-254 | a message with another tag for its request, or another outer length, is rejected if and only if that tag is not one of its kind or that length is not the true one |
| TrapWire.LongAddressIsRejected | TrapHandler/CSnmpTrap.h:282-295 | a v1 trap with its address written 40 81 04, and one with its generic code written 02 02 00 06, both with true lengths, are rejected |
| TrapWire.IdentityIff | TrapHandler/CSnmpTrap.h:301-330 | the identity is that of section 3.1 of RFC 3584 if and only if the generic trap is 6 or the enterprise is that of the standard traps |
| TrapWire.ColdStartDiffers | TrapHandler/CSnmpTrap.h:307-312 | a v1 cold start whose identity is not the standard one |
| TrapWire.Example | TrapHandler/CSnmpTrap.h:362-531 | encodings of the kind the main theorem is about, with true lengths: a v2 trap with two bindings, a long length form, a short or long form for its null, and any octet for its request |
| TrapWire.V1Reads | TrapHandler/CSnmpTrap.h:261-356 | the v1 branch inverts the v1 encoding (section 4.1.6 of RFC 1157), or rejects it for a length it does not expect; generic trap 6 gives enterprise, 0, specific |
| TrapWire.V2Reads | TrapHandler/CSnmpTrap.h:362-457 | the v2 branch inverts the v2 encoding (sections 4.2.6 and 4.2.7 of RFC 3416) |
| TrapWire.VarsRead | TrapHandler/CSnmpTrap.h:464-529 | the loop reads all bindings in order up to the end of the packet, or up to a null value with a long length form |
| TrapWire.ValReads | TrapHandler/CSnmpTrap.h:480-525 | each kind of value comes back, numbers of up to eight octets included |
| TrapWire.BoolReadsLate | TrapHandler/CSnmpTrap.h:482-487 | a boolean is read from the octet behind it |
| TrapWire.NegativeLosesSign | TrapHandler/CSnmpTrap.h:366-371 | a v2 trap, with true lengths, whose request number -1 becomes 255 |
| TrapWire.EnvelopeReads | TrapHandler/CSnmpTrap.h:197-236 | the envelope is accepted with its exact length, version and community come back |
| SnmpTrap.Trap.Decode | TrapHandler/CSnmpTrap.h:193-532 | for any octets the verdict is that of `TrapDecoding.Decode`, which `TrapGrammar.DecodeIff` characterises; on success the fields hold its result, and the address is left alone but by a v1 trap |
| SnmpTrap.Trap.DecodeV1 | TrapHandler/CSnmpTrap.h:261-356 | the fields of the v1 branch, step by step |
| SnmpTrap.Trap.DecodeV2 | TrapHandler/CSnmpTrap.h:362-457 | the fields of the v2 branch, step by step |
| SnmpTrap.Trap.AddGeneric | TrapHandler/CSnmpTrap.h:301-331 | the generic and specific codes are appended to the enterprise |
| SnmpTrap.Trap.DecodeVars | TrapHandler/CSnmpTrap.h:464-529 | appends the variables in order, or ends as `Vars` says |
| SnmpOid.Oid.MakeWcsStr | TrapHandler/snmpOid.cpp:5-42 | fills the cache with the dotted text, drops it, or overruns, exactly as `OidText.Print` says |
| SnmpOid.Oid.ToText | TrapHandler/snmpOid.h:78-85 | the cached text, or the dotted one, made if and only if it has at most 253 characters |
| SnmpOid.Oid.ToConstText | TrapHandler/snmpOid.h:87-91 | the cached text only: one that is missing is never made |
| SnmpOid.Oid.BuildFromWcsStr | TrapHandler/snmpOid.cpp:44-149 | deletes an old text twice if and only if there is one and the new text cannot be begun; otherwise stays inside both buffers and leaves the arcs and text that `OidText.Build` says, which `OidReading.BuildIs` characterises |
| SnmpOid.Oid.FromText | TrapHandler/snmpOid.h:73-76 | arcs and text from a dotted text, with no old text to delete |
| SnmpOid.TextDeletedTwice | TrapHandler/snmpOid.cpp:46-83 | a use that deletes a text twice: ".1.3", then "x" |
| SnmpOid.Oid.Add | TrapHandler/snmpOid.cpp:151-185 | appends the arcs, even its own, and drops the cached text |
| SnmpOid.Oid.Equals | TrapHandler/snmpOid.cpp:192-202 | equality of the arcs |
| SnmpOid.Oid.Copy | TrapHandler/snmpOid.h:17-40 | equal arcs and text in arrays of its own |
| OidText.RoundTrip | TrapHandler/snmpOid.cpp:44-149 | reading what was printed gives arcs and text back if and only if there are at most 51 arcs and 255 characters |
| OidText.PrintThenBuild | TrapHandler/snmpOid.cpp:5-149 | the text exists if and only if it has at most 253 characters, and then round-trips if and only if there are at most 51 arcs |
| OidReading.BuildIs | TrapHandler/snmpOid.cpp:44-149 | numbers of any length separated by dots, with a dot in front or a first digit from 1 to 8, and anything behind them: the arcs are the numbers modulo 2^32 and the text the dotted one, if there are at most 255 characters and 51 numbers, 50 before a dot; otherwise nothing is kept |
| OidReading.BuildNothing | TrapHandler/snmpOid.cpp:73-83 | every other text leaves nothing |
| OidReading.TakenApart | TrapHandler/snmpOid.cpp:91-148 | those are all the texts there are |
| OidReading.WithoutFirstDot | TrapHandler/snmpOid.cpp:73-76 | a dotted text without its first dot is read as with it if its first digit is one of 1 to 8, and otherwise leaves nothing |
| OidReading.JunkIsDropped | TrapHandler/snmpOid.cpp:108-112 | a character that is neither a digit nor a dot, and anything behind it, is dropped; the arcs and the text in front of it are kept |
| OidReading.FinalDotIsDropped | TrapHandler/snmpOid.cpp:120-137 | so is a final dot |
| OidReading.ReadDigitsIs | TrapHandler/snmpOid.cpp:94-103 | any digits are read as the number they stand for, modulo 2^32 |
| OidReading.DecimalIs | TrapHandler/snmpOid.cpp:20-30 | a number is printed with the digits that stand for it and no zero in front |
| OidText.PrintsIff | TrapHandler/snmpOid.cpp:20-41 | printing arc by arc yields the text if and only if it has at most 253 characters |
| OidText.OverrunsIff | TrapHandler/snmpOid.cpp:22-38 | printing writes beyond the buffer if and only if the text has more than 255 characters and no prefix has 254 or 255; a longer text is otherwise dropped |
| OidText.OverrunExample | TrapHandler/snmpOid.cpp:22-38 | 24 arcs whose printing writes beyond the buffer |
| OidText.DiscardExample | TrapHandler/snmpOid.cpp:31-37 | 200 arcs, 400 characters, that are dropped without an overrun |
| OidText.BuildAgrees | TrapHandler/snmpOid.cpp:91-148 | whatever the input, the text kept reads as the arcs kept |
| OidText.DottedAgrees | TrapHandler/snmpOid.cpp:13-41 | a printed text reads as its arcs |

## Left out

- Weak memory: all accesses are sequentially consistent steps; fences, cache-line padding, alignment and `malloc` are not modelled, allocation failure is an input.
- Accesses of a thread to variables that only it writes are folded into the neighbouring step of the machine.
- ReaderWriterQueue.Queue.constructor: finds memory for the first blocks, and takes a `maxSize` below 2^63; from there on `Sizing.Plan` gives a block of no slots, whose first use is outside the model. The block size is a template parameter and taken to be below 2^63.
- The re-entrance guards of debug builds, move construction and move assignment of the queue.
- ReaderWriterQueue.Queue.TryDequeue: the producer acts by whole calls, at five places; calls under way are in the machine.
- ReaderWriterQueue.Queue.Pop: the same.
- ReaderWriterQueue.Queue.Peek: the same.
- BlockingReaderWriterQueue.Queue.Enqueue: for calls that nothing interrupts; `BlockingQueue` has every interleaving.
- BlockingReaderWriterQueue.Queue.TryDequeue: the same.
- BlockingReaderWriterQueue.Queue.WaitDequeue: the same; on an empty queue a wait is reported as waiting if it has no time limit or the turns that pass meanwhile are too few, as nobody signals.
- BlockingReaderWriterQueue.Queue.Pop: the same.
- BlockingReaderWriterQueue.Queue.SizeApprox: in the idle state; `BlockingQueue.SizeIsExact` covers the rest.
- `size_approx` during concurrent calls, where it promises nothing.
- The widths of `m_count` and of the numbers of signals and waits, which are unbounded here; the clocks and platform semaphores, which are a number of tokens and an expiry at any moment.
- LightweightSemaphore.Sema.Wait: the turns of the signalling thread are a list, and the time limit in the kernel is counted in turns; when the list is used up before that, the outcome is that the call still waits.
- Boolean bindings and object identifiers not under 1.3 are outside `Carries`; what becomes of them is stated by `TrapWire.BoolReadsLate` and `Asn1Parsers.OidInverts`.
- The loop guard that reads a tag before it checks the bounds is modelled as "in range and tag is SEQUENCE".
- Pointer arithmetic is that of a 64-bit build; with 32-bit pointers the length check of line 207 would wrap.
- SnmpTrap.Trap.Decode: after a rejection or an undefined outcome the fields hold what was assigned so far, about which the contract says nothing. Memory that leaks on a rejection is not modelled. The address of a v1 trap is left alone by the other branch.
- The variables of a decoded trap are values, not heap objects; their identifiers are sequences of arcs.
- The conversion of a variable to text (CSnmpTrap.h lines 100-165) beyond which number it takes.
- Assignment from an identifier and comparison with a text, which are stubs in the source.
- SnmpOid.Oid.BuildFromWcsStr: after a double deletion nothing is promised; an object's own cached text would be read after it is freed; here the text is a value.
- Sockets, service code, logging, stores, event classes and thresholds.
