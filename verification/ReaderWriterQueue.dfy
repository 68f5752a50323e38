/** `ReaderWriterQueue` as the class it is: blocks on the heap, linked by `next`, slots in arrays, each
    method proved against the sequence it represents.  The ghost field `s` is the state of `RingSteps`
    that the memory stands for.  At five places of a consumer call (see `TryDequeue`) the
    producer may enqueue any number of elements (`meanwhile`), so that the second look is not idle. */
module ReaderWriterQueue {
  import opened Wrappers
  import opened Fifo
  import opened Blocks
  import opened Words
  import opened Slots
  import opened Sizing
  import R = RingSteps
  import opened QueueBlock
  import opened BlockRing
  import opened QueueCalls

  class Queue<T> {
    var frontBlock: Block<T>
    var tailBlock: Block<T>
    var largestBlockSize: nat
    const maxBlockSize: nat
    ghost const cfg: R.Config
    ghost var ring: seq<Block<T>>
    ghost var s: R.State<T>
    ghost var Repr: set<object>

    /** The blocks of `ring` are distinct and `next` closes a cycle through them. */
    ghost predicate Shape()
      reads this`ring, this`frontBlock, this`Repr, Repr
    {
      && this !in Repr && 0 < |ring| && frontBlock == ring[0]
      && (forall i :: 0 <= i < |ring| ==> ring[i] in Repr && ring[i].data in Repr)
      && Apart(ring)
      && (forall i {:trigger NextIn(ring, i)} :: 0 <= i < |ring| ==> ring[i].next == NextIn(ring, i))
    }

    ghost predicate Represents(bs: seq<Blk<T>>)
      reads this`ring, this`frontBlock, this`Repr, Repr
      requires Shape()
    {
      |ring| == |bs| && forall i :: 0 <= i < |ring| ==> ring[i].Holds(bs[i])
    }

    /** The memory stands for `s`. */
    ghost predicate Mem()
      reads this, Repr
    {
      && Shape() && Represents(s.blocks)
      && s.tp < |s.blocks| && tailBlock == ring[s.tp]
      && largestBlockSize == s.largest && IsPow2(largestBlockSize) && maxBlockSize == cfg.maxBlock
      && largestBlockSize <= WORD && 2 * maxBlockSize <= WORD
    }

    ghost predicate Valid()
      reads this, Repr
    {
      Mem() && R.StateOk(cfg, s)
    }

    ghost function Contents(): seq<T>
      reads this`s
    {
      if s.tp < |s.blocks| then Blocks.Contents(s.blocks, s.tp) else []
    }

    /** The tail block is full, and the next block is the one that the consumer takes from. */
    ghost predicate NoRoom()
      reads this`s
    {
      s.tp + 1 == |s.blocks| && Full(s.blocks[s.tp])
    }

    /** To the blocks `repr` one has been added, twice as large as the largest so far, `largest`, or no larger if
        that has reached `maxBlockSize`. */
    ghost predicate OneMoreBlock(repr: set<object>, largest: nat)
      reads this
    {
      && tailBlock !in repr && tailBlock.data !in repr && Repr == repr + {tailBlock, tailBlock.data}
      && tailBlock.data.Length == largestBlockSize
      && largestBlockSize == if largest >= maxBlockSize then largest else 2 * largest
    }

    lemma NoRoomIs()
      requires s.tp < |s.blocks|
      ensures NoRoom() <==> s.tp + 1 == |s.blocks| && Full(s.blocks[s.tp])
    {
    }

    lemma OneMoreIs(repr: set<object>, largest: nat, size: nat)
      requires tailBlock !in repr && tailBlock.data !in repr && Repr == repr + {tailBlock, tailBlock.data}
      requires tailBlock.data.Length == size == largestBlockSize
      requires size == if largest >= maxBlockSize then largest else largest * 2
      ensures OneMoreBlock(repr, largest)
    {
    }

    lemma Opened()
      requires Valid()
      ensures Mem() && R.StateOk(cfg, s) && 0 < |ring| == |s.blocks| && s.tp < |s.blocks|
      ensures frontBlock == ring[0] && tailBlock == ring[s.tp]
      ensures largestBlockSize == s.largest && IsPow2(largestBlockSize) && maxBlockSize == cfg.maxBlock
      ensures largestBlockSize <= WORD && 2 * maxBlockSize <= WORD
      ensures Contents() == Blocks.Contents(s.blocks, s.tp)
    {
    }

    lemma MemOpened()
      requires Mem()
      ensures Represents(s.blocks) && largestBlockSize <= WORD
      ensures Shape() && 0 < |ring| == |s.blocks| && s.tp < |s.blocks| && frontBlock == ring[0] && tailBlock == ring[s.tp]
      ensures largestBlockSize == s.largest && IsPow2(largestBlockSize)
    {
    }

    lemma At(k: nat)
      requires Mem() && k < |ring|
      ensures |ring| == |s.blocks| && ring[k] in Repr && ring[k].data in Repr && this !in Repr
      ensures ring[k].Holds(s.blocks[k]) && ring[k].next == NextIn(ring, k)
      ensures k + 1 < |ring| ==> ring[k].next == ring[k + 1]
      ensures ring[k].next == ring[0] <==> k + 1 == |ring|
      ensures ring[k] == ring[0] <==> k == 0
    {
      assert ring[k].next == NextIn(ring, k);
      hide BufRep, Ok;
    }

    /** Nothing but the `k`-th block has changed, and its `next` has not. */
    twostate lemma Changed(new k: nat, new block: Block<T>, new b: Blk<T>)
      requires old(Mem()) && k < |ring| && R.StateOk(cfg, s)
      requires ring == old(ring) && frontBlock == old(frontBlock) && s.tp < |ring| && tailBlock == ring[s.tp]
      requires Repr == old(Repr) && largestBlockSize == old(largestBlockSize)
      requires block == ring[k] && (forall o :: o in Repr && o != block && o != block.data ==> unchanged(o))
      requires block.next == old(ring[k].next) && block.Holds(b)
      requires s.largest == old(s.largest) && s.blocks == old(s.blocks)[k := b]
      ensures Valid()
    {
      hide BufRep, R.StateOk, Ok, Apart;
      forall i | 0 <= i < |ring| && i != k
        ensures ring[i].Holds(old(s.blocks)[i])
        ensures ring[i].next == old(ring[i].next)
      {
        ApartOther(ring, i, k);
        assert unchanged(ring[i]) && unchanged(ring[i].data);
      }
    }

    /** A block `nb` has been linked in after the `k`-th, `last`. */
    twostate lemma Inserted(new k: nat, new last: Block<T>, new nb: Block<T>, new b: Blk<T>)
      requires old(Mem()) && k < |old(ring)| && nb !in old(Repr) && nb.data !in old(Repr) && nb.Holds(b)
      requires ring == InsertedAt(old(ring), k, nb) && Repr == old(Repr) + {nb, nb.data}
      requires frontBlock == old(frontBlock) && largestBlockSize == s.largest <= WORD && IsPow2(largestBlockSize)
      requires last == old(ring)[k] && (forall o :: o in old(Repr) && o != last ==> unchanged(o))
      requires last.Image() == old(ring[k].Image()) && last.next == nb && nb.next == old(ring[k].next)
      requires s.blocks == Insert(old(s.blocks), k, b) && s.tp < |ring| && tailBlock == ring[s.tp]
      ensures Mem() && (R.StateOk(cfg, s) ==> Valid())
    {
      hide BufRep, Ok, Apart, R.StateOk;
      ghost var r := old(ring);
      StillThere(k, last);
      ApartInserted(r, k, nb);
      InsertedClosed(r, k, nb);
      InsertedHolds(r, old(s.blocks), k, nb, b);
    }

    twostate lemma StillThere(new k: nat, new last: Block<T>)
      requires old(Mem()) && k < |old(ring)| && last == old(ring)[k] && last.Image() == old(ring[k].Image())
      requires forall o :: o in old(Repr) && o != last ==> unchanged(o)
      ensures var r := old(ring);
              && |r| == |old(s.blocks)|
              && (forall i :: 0 <= i < |r| ==> r[i] in old(Repr) && r[i].data in old(Repr) && r[i].Holds(old(s.blocks)[i]))
              && (forall i {:trigger NextIn(r, i)} :: 0 <= i < |r| && i != k ==> r[i].next == NextIn(r, i))
    {
      hide BufRep, Ok, Apart, R.StateOk;
      ghost var r := old(ring);
      forall i | 0 <= i < |r|
        ensures r[i].Holds(old(s.blocks)[i])
        ensures i != k ==> r[i].next == NextIn(r, i)
      {
        assert old(r[i].next) == NextIn(r, i);
        if i != k {
          ApartOther(r, i, k);
          assert unchanged(r[i]) && unchanged(r[i].data);
        }
      }
    }

    /** `frontBlock` has moved on to the next block. */
    twostate lemma Rotated()
      requires old(Mem()) && 1 < |old(ring)| && 0 < old(s.tp)
      requires ring == Turned(old(ring)) && Repr == old(Repr)
      requires frontBlock == ring[0] && tailBlock == old(tailBlock) && largestBlockSize == old(largestBlockSize)
      requires forall o :: o in Repr ==> unchanged(o)
      requires s.blocks == Rotate(old(s.blocks)) && s.tp == old(s.tp) - 1 && s.largest == old(s.largest)
      ensures Mem() && (R.StateOk(cfg, s) ==> Valid())
    {
      hide BufRep, Ok, Apart, R.StateOk;
      ghost var r, bs := old(ring), old(s.blocks);
      ApartRotated(r);
      forall i | 0 <= i < |r|
        ensures r[i].Holds(bs[i]) && r[i].next == NextIn(r, i)
      {
        assert unchanged(r[i]) && unchanged(r[i].data);
        assert old(r[i].next) == NextIn(r, i);
      }
      TurnedClosed(r);
      TurnedHolds(r, bs);
      AllIn(r);
    }

    lemma AllIn(r: seq<Block<T>>)
      requires r != [] && forall i :: 0 <= i < |r| ==> r[i] in Repr && r[i].data in Repr
      ensures var r' := Turned(r); forall i :: 0 <= i < |r'| ==> r'[i] in Repr && r'[i].data in Repr
    {
    }

    /** Only the threads' places in their calls have changed. */
    twostate lemma Recast()
      requires old(Valid()) && R.StateOk(cfg, s) && s == old(s).(prod := s.prod, cons := s.cons)
      requires ring == old(ring) && frontBlock == old(frontBlock) && tailBlock == old(tailBlock)
      requires Repr == old(Repr) && largestBlockSize == old(largestBlockSize) && forall o :: o in Repr ==> unchanged(o)
      ensures Valid()
    {
    }

    // ---- Construction ----

    /** A ring of equal blocks (lines 80-134). */
    constructor (maxSize: nat, maxBlock: nat)
      requires 1 <= maxSize < 0x8000_0000_0000_0000
      requires 2 <= maxBlock < 0x8000_0000_0000_0000 && IsPow2(maxBlock)
      ensures Valid() && s.prod.PIdle? && fresh(Repr) && s.cons.CIdle?
      ensures cfg == Sized(maxSize, maxBlock) && Contents() == []
      ensures maxBlockSize == maxBlock && largestBlockSize == cfg.size && |ring| == cfg.count
      ensures forall k :: 0 <= k < |ring| ==> ring[k].data.Length == cfg.size
    {
      hide *;
      SizedIsValid(maxSize, maxBlock);
      var size, count := Plan(maxSize, maxBlock);
      var first := new Block<T>(size);
      first.next := first;
      frontBlock, tailBlock, largestBlockSize, maxBlockSize := first, first, size, maxBlock;
      cfg, ring, Repr := Sized(maxSize, maxBlock), [first], {first, first.data};
      s := R.State([Fresh(size)], 0, size, R.PIdle, R.CIdle);
      new;
      OneBlock(size);
      LinkBlocks(count, size);
      MemOpened();
      AllFresh(cfg, s);
      Ready();
      forall k | 0 <= k < |ring| ensures ring[k].data.Length == size {
        LengthAt(k);
        FreshSize(k, size);
      }
    }

    lemma OneBlock(size: nat)
      requires ring == [frontBlock] && tailBlock == frontBlock && frontBlock.next == frontBlock && frontBlock.Holds(Fresh(size))
      requires s == R.State([Fresh(size)], 0, size, R.PIdle, R.CIdle) && Repr == {frontBlock, frontBlock.data}
      requires largestBlockSize == size <= WORD && IsPow2(size) && maxBlockSize == cfg.maxBlock && 2 * maxBlockSize <= WORD
      ensures Mem()
    {
    }

    lemma Ready()
      requires Mem() && R.StateOk(cfg, s)
      ensures Valid() && Contents() == Blocks.Contents(s.blocks, s.tp)
    {
      hide R.StateOk;
    }

    lemma LengthAt(k: nat)
      requires Mem() && k < |ring| == |s.blocks|
      ensures ring[k].data.Length == s.blocks[k].size
    {
    }

    lemma FreshSize(k: nat, size: nat)
      requires k < |s.blocks| && s.blocks[k] == Fresh<T>(size)
      ensures s.blocks[k].size == size
    {
    }

    method LinkBlocks(count: nat, size: nat)
      requires Mem() && |ring| == 1 <= count && IsPow2(size) && 2 <= size <= WORD
      requires s == R.State([Fresh(size)], 0, size, R.PIdle, R.CIdle)
      modifies this, Repr
      ensures Mem() && fresh(Repr - old(Repr))
      ensures s == R.State(s.blocks, 0, size, R.PIdle, R.CIdle) && |s.blocks| == count
      ensures forall k :: 0 <= k < count ==> s.blocks[k] == Fresh(size)
    {
      var last, i := frontBlock, 1;
      while i != count
        invariant 1 <= i <= count && Mem() && fresh(Repr - old(Repr))
        invariant |ring| == i == |s.blocks| && ring[i - 1] == last
        invariant s == R.State(s.blocks, 0, size, R.PIdle, R.CIdle)
        invariant forall k :: 0 <= k < i ==> s.blocks[k] == Fresh(size)
      {
        InsertLast(ring, s.blocks);
        last := LinkBlock(last, size);
        i := i + 1;
      }
    }

    method LinkBlock(last: Block<T>, size: nat) returns (block: Block<T>)
      requires Mem() && last == ring[|ring| - 1] && s.tp == 0 && IsPow2(size) && 2 <= size <= WORD
      modifies this, Repr
      ensures Mem() && fresh(Repr - old(Repr)) && old(Repr) <= Repr
      ensures ring == InsertedAt(old(ring), |old(ring)| - 1, block)
      ensures s == old(s).(blocks := Insert(old(s.blocks), |old(ring)| - 1, Fresh(size)))
    {
      hide *;
      MemOpened();
      ghost var k := |ring| - 1;
      At(k);
      block := new Block<T>(size);
      block.next := frontBlock;
      last.next := block;
      InsertedAtIs(ring, k, block);
      s := s.(blocks := Insert(s.blocks, k, Fresh(size)));
      ring, Repr := InsertedAt(ring, k, block), Repr + {block, block.data};
      Inserted(k, last, block, Fresh(size));
    }

    // ---- The producer ----

    /** Lines 486-491: is there room in the tail block? */
    method CheckTail(x: T, canAlloc: bool) returns (room: bool)
      requires Valid() && s.prod.PIdle?
      modifies this, Repr
      ensures Repr == old(Repr) && ring == old(ring)
      ensures Valid() && s == old(s).(blocks := s.blocks, prod := s.prod) && Contents() == old(Contents())
      ensures s.prod == if room then R.PRoom(x) else R.PNoRoom(x, canAlloc)
      ensures |s.blocks| == |old(s.blocks)| && s.tp < |s.blocks| && largestBlockSize == old(largestBlockSize)
      ensures room <==> !Full(s.blocks[s.tp])
      ensures NoRoom() <==> old(NoRoom())
    {
      hide *;
      Opened();
      At(s.tp);
      NoRoomIs();
      ghost var s' := Checked(cfg, s, x, canAlloc);
      room := tailBlock.SeeRoom(s.blocks[s.tp]);
      s := s';
      Changed(s.tp, tailBlock, s'.blocks[s.tp]);
      Opened();
      NoRoomIs();
    }

    /** Lines 494-498. */
    method EnqueueHere(x: T)
      requires Valid() && s.prod == R.PRoom(x)
      modifies this, Repr
      ensures Repr == old(Repr) && largestBlockSize == old(largestBlockSize)
      ensures Valid() && s.prod.PIdle? && s == old(s).(blocks := s.blocks, prod := R.PIdle)
      ensures Contents() == old(Contents()) + [x]
    {
      hide *;
      Opened();
      At(s.tp);
      ghost var s' := Appended(cfg, s, x);
      tailBlock.Append(x, s.blocks[s.tp]);
      s := s';
      Changed(s.tp, tailBlock, s'.blocks[s.tp]);
      Opened();
    }

    /** Lines 511-527: the next block is free. */
    method EnqueueNext(x: T, canAlloc: bool)
      requires Valid() && s.prod == R.PNoRoom(x, canAlloc) && s.tp + 1 < |ring|
      modifies this, Repr
      ensures Repr == old(Repr) && largestBlockSize == old(largestBlockSize)
      ensures Valid() && s.prod.PIdle? && s == old(s).(blocks := s.blocks, tp := old(s.tp) + 1, prod := R.PIdle)
      ensures Contents() == old(Contents()) + [x]
    {
      hide *;
      Opened();
      At(s.tp);
      At(s.tp + 1);
      ghost var s' := Spared(cfg, s, x, canAlloc);
      var next := tailBlock.next;
      next.Refill(x, s.blocks[s.tp + 1]);
      tailBlock := next;
      s := s';
      Changed(s.tp, next, s'.blocks[s.tp]);
      Opened();
    }

    /** Lines 531-554: a new block, with its first element, after the tail block. */
    method EnqueueNew(x: T)
      requires Valid() && s.prod == R.PNoRoom(x, true) && s.tp + 1 == |ring|
      modifies this, Repr
      ensures Valid() && s.prod.PIdle? && fresh(Repr - old(Repr)) && s.cons == old(s.cons) && s.tp == old(s.tp) + 1
      ensures Contents() == old(Contents()) + [x] && OneMoreBlock(old(Repr), old(largestBlockSize))
    {
      hide *;
      Opened();
      ghost var s' := Grown(cfg, s, x);
      var size := if largestBlockSize >= maxBlockSize then largestBlockSize else largestBlockSize * 2;
      NewSize(cfg, s);
      At(s.tp);
      var block := new Block<T>.WithFirst(size, x);
      LinkTail(block, size, Blk(size, 0, 1, 0, [x]), s');
      Opened();
      OneMoreIs(old(Repr), old(largestBlockSize), size);
    }

    /** Lines 544-554. */
    method LinkTail(block: Block<T>, size: nat, ghost b: Blk<T>, ghost s': R.State<T>)
      requires Mem() && block !in Repr && block.data !in Repr && block.Holds(b)
      requires s'.blocks == Insert(s.blocks, s.tp, b) && s'.tp == s.tp + 1 && s'.largest == size <= WORD && IsPow2(size)
      requires R.StateOk(cfg, s')
      modifies this, tailBlock, block
      ensures Valid() && s == s' && Repr == old(Repr) + {block, block.data} && tailBlock == block && largestBlockSize == size
    {
      hide *;
      MemOpened();
      At(s.tp);
      var last := tailBlock;
      block.next := last.next;
      last.next := block;
      tailBlock := block;
      largestBlockSize := size;
      InsertedAtIs(ring, s.tp, block);
      ring, Repr, s := InsertedAt(ring, s.tp, block), Repr + {block, block.data}, s';
      Inserted(old(s.tp), last, block, b);
    }

    /** `inner_enqueue`: it fails exactly if there is no room and it may not allocate, or cannot; then at least the
        promised number of elements is held.  A block is added exactly if there was no room and it succeeds. */
    method InnerEnqueue(x: T, canAlloc: bool, memory: bool) returns (ok: bool)
      requires Valid() && s.prod.PIdle?
      modifies this, Repr
      ensures Valid() && s.prod.PIdle? && fresh(Repr - old(Repr)) && s.cons == old(s.cons) && s.tp >= old(s.tp)
      ensures Contents() == old(Contents()) + (if ok then [x] else [])
      ensures ok <==> !old(NoRoom()) || (canAlloc && memory)
      ensures if ok && old(NoRoom()) then OneMoreBlock(old(Repr), old(largestBlockSize))
              else Repr == old(Repr) && largestBlockSize == old(largestBlockSize)
      ensures !ok ==> |Contents()| >= cfg.cap
    {
      hide *;
      ok := true;
      var room := CheckTail(x, canAlloc);
      NoRoomIs();
      if room {
        EnqueueHere(x);
      } else {
        ok := EnqueueElsewhere(x, canAlloc, memory);
      }
    }

    /** Lines 500-558: the tail block is full. */
    method EnqueueElsewhere(x: T, canAlloc: bool, memory: bool) returns (ok: bool)
      requires Valid() && s.prod == R.PNoRoom(x, canAlloc) && Full(s.blocks[s.tp])
      modifies this, Repr
      ensures Valid() && s.prod.PIdle? && fresh(Repr - old(Repr)) && s.cons == old(s.cons) && s.tp >= old(s.tp)
      ensures Contents() == old(Contents()) + (if ok then [x] else [])
      ensures ok <==> !old(NoRoom()) || (canAlloc && memory)
      ensures if ok && old(NoRoom()) then OneMoreBlock(old(Repr), old(largestBlockSize))
              else Repr == old(Repr) && largestBlockSize == old(largestBlockSize)
      ensures !ok ==> |Contents()| >= cfg.cap
    {
      hide *;
      Opened();
      At(s.tp);
      NoRoomIs();
      ok := true;
      if tailBlock.next != frontBlock {
        EnqueueNext(x, canAlloc);
      } else if canAlloc && memory {
        EnqueueNew(x);
      } else {
        ok := false;
        ghost var s' := Refused(cfg, s);
        s := s';
        Recast();
        Opened();
      }
    }

    // ---- The consumer ----

    /** What the producer enqueues in the `k`-th gap of a call. */
    function Turn(meanwhile: seq<seq<T>>, k: nat): seq<T> { if k < |meanwhile| then meanwhile[k] else [] }

    lemma TurnIs(meanwhile: seq<seq<T>>, k: nat)
      ensures Turn(meanwhile, k) == if k < |meanwhile| then meanwhile[k] else []
    {
    }

    /** Lines 268-272: the first look at the front block. */
    method Look(ghost call: Call) returns (some: bool)
      requires Valid() && s.prod.PIdle? && s.cons.CIdle?
      modifies this, Repr
      ensures Valid() && s.prod.PIdle? && Repr == old(Repr) && s == old(s).(blocks := s.blocks, cons := s.cons)
      ensures s.cons == if some then R.CTake(call) else R.CEmpty(call)
      ensures Contents() == old(Contents()) && |s.blocks| == |old(s.blocks)|
      ensures !some && s.tp == 0 ==> Contents() == []
    {
      hide *;
      Opened();
      At(0);
      ghost var s' := Looked(cfg, s, call);
      some := frontBlock.SeeElement(s.blocks[0]);
      s := s';
      Changed(0, frontBlock, s'.blocks[0]);
      Opened();
    }

    /** Lines 289-294: the second look, after `tailBlock` was seen elsewhere. */
    method LookAgain(ghost call: Call) returns (some: bool)
      requires Valid() && s.prod.PIdle? && s.cons == R.CEmpty(call) && 0 < s.tp
      modifies this, Repr
      ensures Valid() && s.prod.PIdle? && Repr == old(Repr) && s == old(s).(blocks := s.blocks, cons := s.cons)
      ensures s.cons == if some then R.CTake(call) else R.CDrained(call)
      ensures Contents() == old(Contents()) && |s.blocks| == |old(s.blocks)|
    {
      hide *;
      Opened();
      At(0);
      ghost var s' := LookedAgain(cfg, s, call);
      some := frontBlock.SeeElementAgain(s.blocks[0]);
      s := s';
      Changed(0, frontBlock, s'.blocks[0]);
      Opened();
    }

    /** Line 316: the front block is left to the producer. */
    method Hop(ghost call: Call)
      requires Valid() && s.prod.PIdle? && s.cons == R.CHop(call)
      modifies this, Repr
      ensures Valid() && s.prod.PIdle? && Repr == old(Repr) && s.cons == R.CTake(call)
      ensures Contents() == old(Contents())
    {
      hide *;
      Opened();
      At(0);
      ghost var s' := Hopped(cfg, s, call);
      HopsOn(cfg, s);
      TurnedFirst(ring);
      frontBlock := frontBlock.next;
      ring, s := Turned(ring), s';
      Rotated();
      Opened();
    }

    /** Lines 305-311. */
    method SeeNext(ghost call: Call)
      requires Valid() && s.prod.PIdle? && s.cons == R.CDrained(call) && !call.Peek?
      modifies this, Repr
      ensures Valid() && s.prod.PIdle? && Repr == old(Repr) && frontBlock == old(frontBlock) && ring == old(ring)
      ensures s == old(s).(blocks := s.blocks, cons := R.CHop(call)) && Contents() == old(Contents())
    {
      hide *;
      Opened();
      ghost var s' := SeenNext(cfg, s, call);
      At(0);
      At(1);
      var next := frontBlock.next;
      var some := next.SeeElementAgain(s.blocks[1]);
      assert some;  // line 311
      s := s';
      Changed(1, next, s'.blocks[1]);
      Opened();
    }

    /** Lines 277-284 and 320-328. */
    method Serve(ghost call: Call) returns (x: T)
      requires Valid() && s.prod.PIdle? && s.cons == R.CTake(call) && !call.Peek?
      modifies this, Repr
      ensures Valid() && s.prod.PIdle? && Repr == old(Repr) && s == old(s).(blocks := s.blocks, cons := R.CIdle)
      ensures old(Contents()) != [] && x == old(Contents())[0] && Contents() == old(Contents())[1..]
    {
      hide *;
      Opened();
      At(0);
      ghost var s' := Served(cfg, s, call);
      x := frontBlock.TakeOut(s.blocks[0]);
      s := s';
      Changed(0, frontBlock, s'.blocks[0]);
      Opened();
    }

    /** The producer's calls that fall between two accesses of the consumer. */
    method EnqueueAll(xs: seq<T>)
      requires Valid() && s.prod.PIdle?
      modifies this, Repr
      ensures Valid() && s.prod.PIdle? && fresh(Repr - old(Repr)) && s.cons == old(s.cons) && s.tp >= old(s.tp)
      ensures Contents() == old(Contents()) + xs
    {
      hide *;
      var i := 0;
      while i < |xs|
        invariant 0 <= i <= |xs| && Valid() && s.prod.PIdle? && fresh(Repr - old(Repr)) && s.cons == old(s.cons) && s.tp >= old(s.tp)
        invariant Contents() == old(Contents()) + xs[..i]
      {
        var ok := InnerEnqueue(xs[i], true, true);
        i := i + 1;
      }
    }

    /** The producer's calls at the `k`-th of the places where it may act during a consumer call; `ran`
        collects what is enqueued during the consumer's call. */
    method Interleave(meanwhile: seq<seq<T>>, k: nat, ran: seq<T>, ghost before: seq<T>) returns (ran': seq<T>)
      requires Valid() && s.prod.PIdle? && Contents() == before + ran
      modifies this, Repr
      ensures Valid() && s.prod.PIdle? && fresh(Repr - old(Repr)) && s.cons == old(s.cons) && s.tp >= old(s.tp)
      ensures Contents() == before + ran'
      ensures (ran == [] ==> ran' == Turn(meanwhile, k)) && (meanwhile == [] ==> ran' == ran)
    {
      hide *;
      var xs := if k < |meanwhile| then meanwhile[k] else [];
      assert xs == Turn(meanwhile, k) by { TurnIs(meanwhile, k); }
      EnqueueAll(xs);
      ran' := ran + xs;
      assert before + ran + xs == before + ran';
    }

    /** `try_dequeue`, with the producer's calls in each gap: after the first look, after the load of
        `tailBlock`, after the second look, after the look at the next block, and before the element is
        taken. */
    method TryDequeue(meanwhile: seq<seq<T>>) returns (reply: Option<T>, ran: seq<T>)
      requires Valid() && s.prod.PIdle? && s.cons.CIdle?
      modifies this, Repr
      ensures Valid() && s.prod.PIdle? && s.cons.CIdle? && fresh(Repr - old(Repr))
      ensures meanwhile == [] ==> ran == []
      ensures var q := old(Contents()) + ran;
              match reply
              case Some(x) => q != [] && x == q[0] && Contents() == q[1..]
              case None => old(Contents()) == [] && Contents() == q && ran == Turn(meanwhile, 0)
    {
      var found;
      found, ran := Reach(meanwhile, Call.TryDequeue);
      if !found {
        return None, ran;
      }
      var x := Serve(Call.TryDequeue);
      reply := Some(x);
    }

    /** `pop`: what `try_dequeue` does to the queue, without handing the element out. */
    method Pop(meanwhile: seq<seq<T>>) returns (ok: bool, ran: seq<T>)
      requires Valid() && s.prod.PIdle? && s.cons.CIdle?
      modifies this, Repr
      ensures Valid() && s.prod.PIdle? && s.cons.CIdle? && fresh(Repr - old(Repr))
      ensures meanwhile == [] ==> ran == []
      ensures var q := old(Contents()) + ran;
              if ok then q != [] && Contents() == q[1..]
              else old(Contents()) == [] && Contents() == q && ran == Turn(meanwhile, 0)
    {
      ok, ran := Reach(meanwhile, Call.Pop);
      if ok {
        var x := Serve(Call.Pop);
      }
    }

    /** The part that `try_dequeue` and `pop` share (lines 268-316 and 393-430): up to the element to be taken,
        or to the end of a call that finds none. */
    method Reach(meanwhile: seq<seq<T>>, ghost call: Call) returns (found: bool, ran: seq<T>)
      requires Valid() && s.prod.PIdle? && s.cons.CIdle? && !call.Peek?
      modifies this, Repr
      ensures Valid() && s.prod.PIdle? && fresh(Repr - old(Repr)) && s.cons == (if found then R.CTake(call) else R.CIdle)
      ensures Contents() == old(Contents()) + ran && (meanwhile == [] ==> ran == [])
      ensures !found ==> old(Contents()) == [] && ran == Turn(meanwhile, 0)
    {
      hide *;
      ghost var before := Contents();
      found := Look(call);
      ran := [];
      assert before + ran == before;
      ran := Interleave(meanwhile, 0, ran, before);
      if !found {
        found := SeeTailBlock(call);
        if !found {
          return;
        }
        ran := Interleave(meanwhile, 1, ran, before);
        var some := LookAgain(call);
        ran := Interleave(meanwhile, 2, ran, before);
        if !some {
          SeeNext(call);
          ran := Interleave(meanwhile, 3, ran, before);
          Hop(call);
        }
      }
      ran := Interleave(meanwhile, 4, ran, before);
    }

    /** Line 286.  Without another block to go to, the call is over. */
    method SeeTailBlock(ghost call: Call) returns (elsewhere: bool)
      requires Valid() && s.prod.PIdle? && s.cons == R.CEmpty(call)
      modifies this`s
      ensures Valid() && s.prod.PIdle? && elsewhere == (0 < s.tp)
      ensures s == (if elsewhere then old(s) else old(s).(cons := R.CIdle)) && Contents() == old(Contents())
    {
      hide *;
      Opened();
      At(s.tp);
      elsewhere := frontBlock != tailBlock;
      if !elsewhere {
        GaveUp(cfg, s, call);
        s := s.(cons := R.CIdle);
        Recast();
        Opened();
      }
    }

    /** `peek`: what it returns is what `try_dequeue` would, and stays where it is. */
    method Peek(meanwhile: seq<seq<T>>) returns (reply: Option<T>, ran: seq<T>)
      requires Valid() && s.prod.PIdle? && s.cons.CIdle?
      modifies this, Repr
      ensures Valid() && s.prod.PIdle? && s.cons.CIdle? && fresh(Repr - old(Repr))
      ensures meanwhile == [] ==> ran == []
      ensures var q := old(Contents()) + ran;
              && Contents() == q
              && match reply
                 case Some(x) => q != [] && x == q[0]
                 case None => old(Contents()) == [] && ran == Turn(meanwhile, 0)
    {
      hide *;
      ghost var before := Contents();
      var some := Look(Call.Peek);
      ran := [];
      assert before + ran == before;
      ran := Interleave(meanwhile, 0, ran, before);
      if !some {
        var elsewhere := SeeTailBlock(Call.Peek);
        if !elsewhere {
          return None, ran;
        }
        ran := Interleave(meanwhile, 1, ran, before);
        some := LookAgain(Call.Peek);
        ran := Interleave(meanwhile, 2, ran, before);
      }
      var x := ShowFirst(some);
      reply := Some(x);
    }

    /** Lines 358 and 371-377: the front element, here or in the next block. */
    method ShowFirst(here: bool) returns (x: T)
      requires Valid() && s.prod.PIdle? && s.cons == if here then R.CTake(Call.Peek) else R.CDrained(Call.Peek)
      modifies this`s
      ensures Valid() && s.prod.PIdle? && s == old(s).(cons := R.CIdle)
      ensures Contents() == old(Contents()) != [] && x == Contents()[0]
    {
      hide *;
      Opened();
      ghost var s' := Shown(cfg, s, here);
      At(0);
      if here {
        x := frontBlock.First(s.blocks[0]);
      } else {
        At(1);
        x := frontBlock.next.First(s.blocks[1]);
      }
      s := s';
      Recast();
      Opened();
    }

    // ---- Size and destruction ----

    /** `size_approx`, exact when nobody else is at work (lines 453-466). */
    method SizeApprox() returns (n: nat)
      requires Valid() && s.prod.PIdle?
      ensures n == |Contents()| % WORD
    {
      hide Mem, Valid, R.StateOk, Cat, Blocks.Contents, Contents, Block.Holds;
      Opened();
      At(0);
      var block, more := frontBlock, true;
      n := 0;
      ghost var i := 0;
      CatNone(s.blocks);
      while more
        invariant 0 <= i <= |ring| && (more <==> i < |ring|) && (more ==> block == ring[i])
        invariant n == |Cat(s.blocks[..i])| % WORD
        decreases |ring| - i
      {
        At(i);
        var used := block.InUse(s.blocks[i]);
        CatSnoc(s.blocks, i);
        AddWrapped(|Cat(s.blocks[..i])|, used);
        n := (n + used) % WORD;
        block := block.next;
        i := i + 1;
        more := block != frontBlock;
      }
      AllContents(cfg, s);
    }

    /** The destructor (lines 186-203): every element held is destroyed once, in queue order, and no slot
        is left constructed. */
    method Destroy() returns (destroyed: seq<T>)
      requires Valid() && s.prod.PIdle?
      modifies Repr
      ensures destroyed == old(Contents())
      ensures forall i :: 0 <= i < |ring| ==> AllRaw(ring[i].data[..])
    {
      hide *;
      Opened();
      At(0);
      var block, more := frontBlock, true;
      destroyed := [];
      ghost var i := 0;
      Untouched();
      CatNone(s.blocks);
      while more
        invariant 0 <= i <= |ring| && (more <==> i < |ring|) && (more ==> block == ring[i])
        invariant DestroyedUpto(i) && destroyed == Cat(s.blocks[..i])
        decreases |ring| - i
      {
        NextToDestroy(i);
        label Before:
        var here := block.DestroyAll(s.blocks[i]);
        DestroyedOneMore@Before(i, block);
        CatSnoc(s.blocks, i);
        destroyed := destroyed + here;
        block := block.next;
        i := i + 1;
        more := block != frontBlock;
      }
      AllContents(cfg, s);
      AllDestroyed();
    }

    /** The first `i` blocks of the ring are raw, the others as the queue left them. */
    ghost predicate DestroyedUpto(i: nat)
      reads this, Repr
    {
      && Shape() && |ring| == |s.blocks| && i <= |ring|
      && (forall k :: 0 <= k < i ==> AllRaw(ring[k].data[..]))
      && (forall k :: i <= k < |ring| ==> ring[k].Holds(s.blocks[k]))
    }

    lemma Untouched()
      requires Mem()
      ensures DestroyedUpto(0)
    {
      hide Block.Holds;
    }

    lemma AllDestroyed()
      requires DestroyedUpto(|ring|)
      ensures forall i :: 0 <= i < |ring| ==> AllRaw(ring[i].data[..])
    {
    }

    lemma NextToDestroy(i: nat)
      requires DestroyedUpto(i) && i < |ring|
      ensures |ring| == |s.blocks| && ring[i].Holds(s.blocks[i]) && ring[i].data in Repr && this !in Repr
      ensures if i + 1 == |ring| then ring[i].next == frontBlock else ring[i].next == ring[i + 1] && ring[i + 1] != frontBlock
    {
      hide Block.Holds;
      assert ring[i].next == NextIn(ring, i);
    }

    twostate lemma DestroyedOneMore(new i: nat, new block: Block<T>)
      requires old(DestroyedUpto(i)) && i < |ring| && block == ring[i] && unchanged(this)
      requires AllRaw(block.data[..]) && forall o :: o in Repr && o != block.data ==> unchanged(o)
      ensures DestroyedUpto(i + 1)
    {
      hide BufRep, AllRaw, Apart;
      forall k | 0 <= k < |ring|
        ensures ring[k].next == old(ring[k].next) && ring[k].next == NextIn(ring, k)
        ensures k < i ==> AllRaw(ring[k].data[..])
        ensures i < k ==> ring[k].Holds(s.blocks[k])
      {
        assert ring[k] in Repr && ring[k].data in Repr;
        ghost var o: object := ring[k];
        assert o is Block<T> && o != block.data && unchanged(ring[k]);
        assert old(ring[k].next) == NextIn(ring, k);
        if k != i {
          ApartOther(ring, k, i);
          assert unchanged(ring[k].data) && ring[k].data[..] == old(ring[k].data[..]);
        }
      }
    }
  }
}
