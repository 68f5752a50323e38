/** A block as it lies in memory: masked indices into an array of slots, each of which is raw memory
    or holds one constructed element.  `BufRep` ties it to the counted form of `Blocks`; the lemmas
    say that every test on indices decides the test on counters, and what building, publishing,
    taking and releasing a slot do. */
module Slots {
  import opened Wrappers
  import opened Blocks
  import opened Words

  datatype Slot<T> = Raw | Cell(x: T)

  /** The fields of a block other than `next`. */
  datatype Buf<T> = Buf(sizeMask: nat, front: nat, localTail: nat, tail: nat, localFront: nat, slots: seq<Slot<T>>)

  function Idx(k: nat, size: nat): nat
    requires 0 < size
  {
    k % size
  }

  /** The next index round the block. */
  function Succ<T>(f: Buf<T>, i: nat): nat { And(i + 1, f.sizeMask) }

  /** What slot number `k`, counted like the elements, holds.  `taken`: the front element was moved
      out but `front` not yet advanced; `built`: an element is constructed but not yet published. */
  ghost function Want<T>(b: Blk<T>, taken: bool, built: Option<T>, k: nat): Slot<T> {
    if k < |b.log| then (if taken && k == b.front then Raw else Cell(b.log[k]))
    else if k == |b.log| && built.Some? then Cell(built.value)
    else Raw
  }

  ghost predicate SlotsRep<T>(slots: seq<Slot<T>>, b: Blk<T>, taken: bool, built: Option<T>) {
    && 0 < b.size == |slots|
    && forall k {:trigger Idx(k, b.size)} :: b.front <= k < b.front + b.size ==>
         slots[Idx(k, b.size)] == Want(b, taken, built, k)
  }

  ghost predicate BufRep<T>(f: Buf<T>, b: Blk<T>, taken: bool, built: Option<T>) {
    && IsPow2(b.size)
    && f.sizeMask + 1 == b.size
    && f.front == Idx(b.front, b.size)
    && f.localTail == Idx(b.localTail, b.size)
    && f.tail == Idx(|b.log|, b.size)
    && f.localFront == Idx(b.localFront, b.size)
    && SlotsRep(f.slots, b, taken, built)
  }

  predicate AllRaw<T>(slots: seq<Slot<T>>) { forall j :: 0 <= j < |slots| ==> slots[j] == Raw }

  // ---- Indices ----

  /** Counters less than a block apart have the same index only if they are equal. */
  lemma IdxInjective(j: nat, k: nat, size: nat)
    requires 0 < size && j <= k < j + size
    ensures Idx(j, size) == Idx(k, size) <==> j == k
  {
    if Idx(j, size) == Idx(k, size) {
      var q, p := j / size, k / size;
      assert j == size * q + j % size && k == size * p + k % size;
      MulStep(size, q, p);
      MulStep(size, p, q);
    }
  }

  lemma IdxNext(k: nat, size: nat)
    requires 0 < size
    ensures Idx(k + size, size) == Idx(k, size)
    ensures Idx(Idx(k, size) + 1, size) == Idx(k + 1, size)
  {
    var q, r := k / size, k % size;
    assert k == size * q + r;
    ModOf(k + size, size, q + 1, r);
    if r + 1 < size {
      ModOf(k + 1, size, q, r + 1);
      ModOf(r + 1, size, 0, r + 1);
    } else {
      ModOf(k + 1, size, q + 1, 0);
      ModOf(size, size, 1, 0);
    }
  }

  lemma SuccIdx<T>(f: Buf<T>, k: nat)
    requires IsPow2(f.sizeMask + 1)
    ensures Succ(f, Idx(k, f.sizeMask + 1)) == Idx(k + 1, f.sizeMask + 1)
  {
    var size := f.sizeMask + 1;
    MaskIsMod(Idx(k, size) + 1, size);
    IdxNext(k, size);
  }

  // ---- Tests ----

  lemma EmptyTests<T>(f: Buf<T>, b: Blk<T>, taken: bool, built: Option<T>)
    requires Ok(b) && BufRep(f, b, taken, built)
    ensures f.front == f.localTail <==> b.front == b.localTail
    ensures f.front == f.tail <==> Drained(b)
  {
    IdxInjective(b.front, b.localTail, b.size);
    IdxInjective(b.front, |b.log|, b.size);
  }

  lemma RoomTests<T>(f: Buf<T>, b: Blk<T>, taken: bool, built: Option<T>)
    requires Ok(b) && BufRep(f, b, taken, built)
    ensures Succ(f, f.tail) != f.localFront <==> HasRoom(b)
    ensures Succ(f, f.tail) != f.front <==> HasRoom(SeeFront(b))
  {
    SuccIdx(f, |b.log|);
    WrapTest(b.localFront, |b.log| + 1, b.size);
    WrapTest(b.front, |b.log| + 1, b.size);
  }

  lemma WrapTest(j: nat, k: nat, size: nat)
    requires 0 < size && j < k <= j + size
    ensures Idx(j, size) == Idx(k, size) <==> k == j + size
  {
    IdxNext(j, size);
    if k < j + size {
      IdxInjective(j, k, size);
    }
  }

  /** The masked difference that `size_approx` adds up is the number of elements in the block. */
  lemma DistanceTest<T>(f: Buf<T>, b: Blk<T>, taken: bool, built: Option<T>)
    requires Ok(b) && BufRep(f, b, taken, built) && b.size <= WORD
    ensures And(Minus(f.tail, f.front), f.sizeMask) == |Live(b)|
  {
    IdxDistance(b.front, |b.log| - b.front, b.size);
    MaskedDifference(f.tail, f.front, b.size);
  }

  lemma IdxDistance(k: nat, n: nat, size: nat)
    requires n < size
    ensures Idx(k, size) + n < size ==> Idx(k + n, size) == Idx(k, size) + n
    ensures size <= Idx(k, size) + n ==> Idx(k + n, size) == Idx(k, size) + n - size
  {
    var q, r := k / size, k % size;
    assert k == size * q + r;
    if r + n < size {
      ModOf(k + n, size, q, r + n);
    } else {
      ModOf(k + n, size, q + 1, r + n - size);
    }
  }

  // ---- Updates ----

  lemma FreshRep<T>(size: nat, slots: seq<Slot<T>>)
    requires IsPow2(size) && |slots| == size && (forall j :: 0 <= j < size ==> slots[j] == Raw)
    ensures BufRep(Buf(size - 1, 0, 0, 0, 0, slots), Fresh<T>(size), false, None)
  {
  }

  lemma SeeRep<T>(f: Buf<T>, b: Blk<T>, taken: bool, built: Option<T>)
    requires BufRep(f, b, taken, built)
    ensures BufRep(f.(localTail := f.tail), SeeTail(b), taken, built)
    ensures BufRep(f.(localFront := f.front), SeeFront(b), taken, built)
  {
  }

  /** A new block comes with its first element. */
  lemma NewRep<T>(f: Buf<T>, size: nat, x: T)
    requires BufRep(f, Fresh<T>(size), false, None) && 2 <= size
    ensures BufRep(f.(slots := f.slots[0 := Cell(x)], tail := 1, localTail := 1), Blk(size, 0, 1, 0, [x]), false, None)
  {
    Build(f, Fresh<T>(size), false, x);
    Publish(f.(slots := f.slots[0 := Cell(x)]), Fresh<T>(size), false, x);
    SuccIdx(f, 0);
  }

  /** The slot that `tail` indexes is raw: constructing there destroys nothing. */
  lemma Build<T>(f: Buf<T>, b: Blk<T>, taken: bool, x: T)
    requires Ok(b) && BufRep(f, b, taken, None)
    ensures f.tail < |f.slots| && f.slots[f.tail] == Raw
    ensures BufRep(f.(slots := f.slots[f.tail := Cell(x)]), b, taken, Some(x))
  {
    assert f.slots[Idx(|b.log|, b.size)] == Want(b, taken, None, |b.log|);
    forall k {:trigger Idx(k, b.size)} | b.front <= k < b.front + b.size
      ensures f.slots[f.tail := Cell(x)][Idx(k, b.size)] == Want(b, taken, Some(x), k)
    {
      if k < |b.log| {
        IdxInjective(k, |b.log|, b.size);
      } else {
        IdxInjective(|b.log|, k, b.size);
      }
    }
  }

  lemma Publish<T>(f: Buf<T>, b: Blk<T>, taken: bool, x: T)
    requires BufRep(f, b, taken, Some(x)) && b.front <= |b.log| && (taken ==> b.front < |b.log|)
    ensures BufRep(f.(tail := Succ(f, f.tail)), Push(b, x), taken, None)
  {
    SuccIdx(f, |b.log|);
  }

  /** The slot that `front` indexes holds the element to be served. */
  lemma FrontCell<T>(f: Buf<T>, b: Blk<T>, built: Option<T>)
    requires BufRep(f, b, false, built) && b.front < |b.log|
    ensures f.front < |f.slots| && f.slots[f.front] == Cell(b.log[b.front])
  {
    assert f.slots[Idx(b.front, b.size)] == Want(b, false, built, b.front);
  }

  lemma TakeSlot<T>(slots: seq<Slot<T>>, b: Blk<T>, built: Option<T>)
    requires SlotsRep(slots, b, false, built) && b.front < |b.log|
    ensures slots[Idx(b.front, b.size)] == Cell(b.log[b.front])
    ensures SlotsRep(slots[Idx(b.front, b.size) := Raw], b, true, built)
  {
    assert slots[Idx(b.front, b.size)] == Want(b, false, built, b.front);
    forall k {:trigger Idx(k, b.size)} | b.front <= k < b.front + b.size
      ensures slots[Idx(b.front, b.size) := Raw][Idx(k, b.size)] == Want(b, true, built, k)
    {
      IdxInjective(b.front, k, b.size);
    }
  }

  /** Once the front slot is released, its number is that of the last free slot of the next lap. */
  lemma ReleaseSlot<T>(slots: seq<Slot<T>>, b: Blk<T>, built: Option<T>)
    requires SlotsRep(slots, b, true, built) && b.front < |b.log| < b.front + b.size
    ensures SlotsRep(slots, Advance(b), false, built)
  {
    IdxNext(b.front, b.size);
    assert slots[Idx(b.front, b.size)] == Want(b, true, built, b.front);
    forall k {:trigger Idx(k, b.size)} | b.front + 1 <= k < b.front + 1 + b.size
      ensures slots[Idx(k, b.size)] == Want(Advance(b), false, built, k)
    {
      if k < b.front + b.size {
        assert slots[Idx(k, b.size)] == Want(b, true, built, k);
      }
    }
  }

  lemma Take<T>(f: Buf<T>, b: Blk<T>, built: Option<T>)
    requires BufRep(f, b, false, built) && b.front < |b.log|
    ensures f.front < |f.slots| && f.slots[f.front] == Cell(b.log[b.front])
    ensures BufRep(f.(slots := f.slots[f.front := Raw]), b, true, built)
  {
    TakeSlot(f.slots, b, built);
  }

  lemma Release<T>(f: Buf<T>, b: Blk<T>, built: Option<T>)
    requires BufRep(f, b, true, built) && Ok(b) && b.front < |b.log|
    ensures BufRep(f.(front := Succ(f, f.front)), Advance(b), false, built)
  {
    SuccIdx(f, b.front);
    ReleaseSlot(f.slots, b, built);
  }

  /** A drained block holds no element in any slot. */
  lemma DrainedRaw<T>(slots: seq<Slot<T>>, b: Blk<T>, j: nat)
    requires SlotsRep(slots, b, false, None) && Drained(b) && j < b.size
    ensures slots[j] == Raw
  {
    var r := Idx(b.front, b.size);
    var d := if r <= j then j - r else j + b.size - r;
    IdxDistance(b.front, d, b.size);
    assert slots[Idx(b.front + d, b.size)] == Want(b, false, None, b.front + d);
  }
}
