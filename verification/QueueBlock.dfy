/** A block of the queue on the heap: the fields that the two threads update, and an array of slots.
    `Holds` ties it to the counted block it stands for. */
module QueueBlock {
  import opened Wrappers
  import opened Blocks
  import opened Words
  import opened Slots

  class Block<T> {
    var front: nat
    var localTail: nat
    var tail: nat
    var localFront: nat
    var next: Block?<T>
    const sizeMask: nat
    const data: array<Slot<T>>

    function Image(): Buf<T>
      reads this`front, this`localTail, this`tail, this`localFront, data
    {
      Buf(sizeMask, front, localTail, tail, localFront, data[..])
    }

    ghost predicate Holds(b: Blk<T>)
      reads this`front, this`localTail, this`tail, this`localFront, data
    {
      Ok(b) && BufRep(Image(), b, false, None) && sizeMask < WORD
    }

    constructor (size: nat)
      requires IsPow2(size) && 2 <= size <= WORD
      ensures next == null && fresh(data) && sizeMask + 1 == size && Holds(Fresh(size))
    {
      front, localTail, tail, localFront, next := 0, 0, 0, 0, null;
      sizeMask := size - 1;
      data := new Slot<T>[size](_ => Raw);
      new;
      FreshRep<T>(size, data[..]);
    }

    /** A new block with its first element (lines 532-542). */
    constructor WithFirst(size: nat, x: T)
      requires IsPow2(size) && 2 <= size <= WORD
      ensures fresh(data) && data.Length == size && Holds(Blk(size, 0, 1, 0, [x]))
    {
      front, localTail, tail, localFront, next := 0, 1, 1, 0, null;
      sizeMask := size - 1;
      data := new Slot<T>[size](_ => Raw);
      new;
      FreshRep<T>(size, data[..]);
      NewRep(Buf(size - 1, 0, 0, 0, 0, data[..]), size, x);
      data[0] := Cell(x);
    }

    /** The producer's test for room: its old copy of `front` first, then `front` itself. */
    method SeeRoom(ghost b: Blk<T>) returns (room: bool)
      requires Holds(b)
      modifies this`localFront
      ensures Holds(if HasRoom(b) then b else SeeFront(b))
      ensures room == (HasRoom(b) || HasRoom(SeeFront(b)))
    {
      RoomTests(Image(), b, false, None);
      SeeRep(Image(), b, false, None);
      var nextTail := And(tail + 1, sizeMask);
      room := nextTail != localFront;
      if !room {
        localFront := front;
        room := nextTail != localFront;
      }
    }

    /** Constructs an element in the slot that `tail` indexes, then stores `tail`. */
    method Append(x: T, ghost b: Blk<T>)
      requires Holds(b) && HasRoom(b)
      modifies this`tail, data
      ensures Holds(Push(b, x))
    {
      ghost var f := Image();
      Build(f, b, false, x);
      Publish(f.(slots := f.slots[f.tail := Cell(x)]), b, false, x);
      data[tail] := Cell(x);
      tail := And(tail + 1, sizeMask);
    }

    /** The consumer's test for an element: its old copy of `tail` first, then `tail` itself. */
    method SeeElement(ghost b: Blk<T>) returns (some: bool)
      requires Holds(b)
      modifies this`localTail
      ensures Holds(if b.front != b.localTail then b else SeeTail(b))
      ensures some == !Drained(b)
    {
      EmptyTests(Image(), b, false, None);
      SeeRep(Image(), b, false, None);
      some := front != localTail;
      if !some {
        localTail := tail;
        some := front != localTail;
      }
    }

    /** The second look goes to `tail` at once. */
    method SeeElementAgain(ghost b: Blk<T>) returns (some: bool)
      requires Holds(b)
      modifies this`localTail
      ensures Holds(SeeTail(b)) && some == !Drained(b)
    {
      EmptyTests(Image(), b, false, None);
      SeeRep(Image(), b, false, None);
      localTail := tail;
      some := front != localTail;
    }

    /** Lines 511-524: into an empty block, with a new look at `front`. */
    method Refill(x: T, ghost b: Blk<T>)
      requires Holds(b) && Drained(b)
      modifies this`localFront, this`tail, data
      ensures Holds(Push(SeeFront(b), x))
    {
      EmptyTests(Image(), b, false, None);
      SeeRep(Image(), b, false, None);
      localFront := front;
      assert front == tail;
      Append(x, SeeFront(b));
    }

    method First(ghost b: Blk<T>) returns (x: T)
      requires Holds(b) && b.front < |b.log|
      ensures x == b.log[b.front]
    {
      FrontCell(Image(), b, None);
      x := data[front].x;
    }

    /** The masked difference that `size_approx` adds up. */
    method InUse(ghost b: Blk<T>) returns (n: nat)
      requires Holds(b)
      ensures n == |Live(b)|
    {
      DistanceTest(Image(), b, false, None);
      n := And(Minus(tail, front), sizeMask);
    }

    /** With index `i` for `front`, the block holds `rest`. */
    ghost predicate Left(i: nat, rest: Blk<T>)
      reads this`front, this`localTail, this`tail, this`localFront, data
    {
      && rest.localFront <= rest.front <= |rest.log| < rest.localFront + rest.size
      && BufRep(Image().(front := i), rest, false, None)
    }

    lemma LeftAtFirst(b: Blk<T>)
      requires Holds(b)
      ensures Left(front, b) && Live(b) == b.log[b.front..] && b.front <= |b.log|
    {
      assert Image().(front := front) == Image();
    }

    lemma LeftAtLast(rest: Blk<T>)
      requires Left(tail, rest)
      ensures rest.front == |rest.log| && AllRaw(data[..])
    {
      DrainedIsRaw(Image().(front := tail), rest);
    }

    method DestroyOne(i: nat, ghost rest: Blk<T>) returns (x: T, i': nat)
      requires Left(i, rest) && i != tail
      modifies data
      ensures rest.front < |rest.log| && x == rest.log[rest.front] && Left(i', Advance(rest))
    {
      ghost var f := Image().(front := i);
      NotDrained(f, rest);
      DestroyStep(f, rest);
      hide BufRep, Live, AllRaw;
      x := data[i].x;
      data[i] := Raw;
      i' := And(i + 1, sizeMask);
      assert Image().(front := i') == f.(slots := f.slots[i := Raw], front := i');
    }

    /** The destructor's inner loop (lines 193-197). */
    method DestroyAll(ghost b: Blk<T>) returns (destroyed: seq<T>)
      requires Holds(b)
      modifies data
      ensures destroyed == Live(b) && AllRaw(data[..])
    {
      hide Holds, Left, Live, AllRaw;
      LeftAtFirst(b);
      var i := front;
      destroyed := [];
      ghost var rest := b;
      while i != tail
        invariant rest == b.(front := rest.front) && b.front <= rest.front <= |b.log|
        invariant Left(i, rest) && destroyed == b.log[b.front..rest.front]
        decreases |b.log| - rest.front
      {
        var x;
        x, i := DestroyOne(i, rest);
        destroyed := destroyed + [x];
        rest := Advance(rest);
      }
      LeftAtLast(rest);
    }

    /** Moves the front element out, destroys it and stores `front`. */
    method TakeOut(ghost b: Blk<T>) returns (x: T)
      requires Holds(b) && b.front < b.localTail
      modifies this`front, data
      ensures x == b.log[b.front] && Holds(Advance(b))
    {
      ghost var f := Image();
      Take(f, b, None);
      Release(f.(slots := f.slots[f.front := Raw]), b, None);
      x := data[front].x;
      data[front] := Raw;
      front := And(front + 1, sizeMask);
    }
  }

  /** One element destroyed, seen on the slots. */
  lemma DestroyStep<T>(f: Buf<T>, b: Blk<T>)
    requires BufRep(f, b, false, None) && b.localFront <= b.front < |b.log| < b.localFront + b.size
    ensures f.front < |f.slots| && f.slots[f.front] == Cell(b.log[b.front])
    ensures BufRep(f.(slots := f.slots[f.front := Raw], front := And(f.front + 1, f.sizeMask)), Advance(b), false, None)
  {
    hide SlotsRep, Idx, And, IsPow2, Ok;
    Take(f, b, None);
    SuccIdx(f, b.front);
    ReleaseSlot(f.slots[f.front := Raw], b, None);
  }

  /** While the destructor's index is not at `tail`, there is an element to destroy. */
  lemma NotDrained<T>(f: Buf<T>, b: Blk<T>)
    requires BufRep(f, b, false, None) && b.front <= |b.log| < b.localFront + b.size && b.localFront <= b.front
    requires f.front != f.tail
    ensures b.front < |b.log|
  {
  }

  lemma DrainedIsRaw<T>(f: Buf<T>, b: Blk<T>)
    requires BufRep(f, b, false, None) && b.front <= |b.log| < b.localFront + b.size && b.localFront <= b.front
    requires f.front == f.tail
    ensures Drained(b) && AllRaw(f.slots)
  {
    IdxInjective(b.front, |b.log|, b.size);
    forall j | 0 <= j < |f.slots| ensures f.slots[j] == Raw { DrainedRaw(f.slots, b, j); }
  }
}
