/** The ring of blocks as values.  A block's `front` and `tail` are counted without wrap-around and
    its elements are kept in a log: `log[k]` is the k-th element ever enqueued in the block, `|log|`
    its tail counter.  Masked indices, raw slots and pointers come in with `Slots` and `HeapSteps`. */
module Blocks {

  datatype Blk<T> = Blk(size: nat, front: nat, localTail: nat, localFront: nat, log: seq<T>)

  /** A block's shadow indices are conservative: each side's copy of the other's counter lags behind
      it, and even by the producer's old copy of `front` the block holds no more than it has room for
      (one slot of every block stays unused). */
  predicate Ok<T>(b: Blk<T>) {
    && 2 <= b.size
    && b.localFront <= b.front <= b.localTail <= |b.log|
    && |b.log| - b.localFront < b.size
  }

  predicate Full<T>(b: Blk<T>) { b.front + b.size == |b.log| + 1 }

  /** Judged by the producer's old copy of `front`. */
  predicate HasRoom<T>(b: Blk<T>) { |b.log| + 1 < b.localFront + b.size }

  predicate Drained<T>(b: Blk<T>) { b.front == |b.log| }

  function Fresh<T>(size: nat): Blk<T> { Blk(size, 0, 0, 0, []) }

  function Live<T>(b: Blk<T>): seq<T> { if b.front <= |b.log| then b.log[b.front..] else [] }

  /** The live elements of consecutive blocks, in queue order. */
  function Cat<T>(bs: seq<Blk<T>>): seq<T> {
    if bs == [] then [] else Live(bs[0]) + Cat(bs[1..])
  }

  lemma {:induction false} CatConcat<T>(a: seq<Blk<T>>, b: seq<Blk<T>>)
    ensures Cat(a + b) == Cat(a) + Cat(b)
    decreases |a|
  {
    if a == [] {
      assert a + b == b;
    } else {
      assert (a + b)[1..] == a[1..] + b;
      CatConcat(a[1..], b);
    }
  }

  lemma CatOne<T>(b: Blk<T>)
    ensures Cat([b]) == Live(b)
  {
    assert [b][1..] == [];
  }

  lemma CatSnoc<T>(bs: seq<Blk<T>>, i: nat)
    requires i < |bs|
    ensures Cat(bs[..i + 1]) == Cat(bs[..i]) + Live(bs[i])
  {
    hide Cat, Live;
    CatConcat(bs[..i], [bs[i]]);
    CatOne(bs[i]);
    assert bs[..i + 1] == bs[..i] + [bs[i]];
  }

  lemma CatAround<T>(a: seq<Blk<T>>, b: Blk<T>, c: seq<Blk<T>>)
    ensures Cat(a + ([b] + c)) == Cat(a) + (Live(b) + Cat(c))
  {
    hide Cat, Live;
    CatConcat(a, [b] + c);
    CatConcat([b], c);
    CatOne(b);
  }

  lemma {:induction false} CatDrained<T>(bs: seq<Blk<T>>)
    requires forall i :: 0 <= i < |bs| ==> Drained(bs[i])
    ensures Cat(bs) == []
    decreases |bs|
  {
    if bs == [] {
    } else {
      assert Drained(bs[0]);
      assert forall i :: 0 <= i < |bs[1..]| ==> bs[1..][i] == bs[i + 1];
      CatDrained(bs[1..]);
    }
  }

  /** Full blocks of at least `size` slots hold at least `size - 1` elements each. */
  lemma {:induction false} CatFull<T>(bs: seq<Blk<T>>, size: nat)
    requires 1 <= size
    requires forall i :: 0 <= i < |bs| ==> Full(bs[i]) && size <= bs[i].size
    ensures |Cat(bs)| >= |bs| * (size - 1)
    decreases |bs|
  {
    if bs == [] {
    } else {
      var b, rest := bs[0], bs[1..];
      assert Full(b);
      assert |Live(b)| >= size - 1;
      CatFull(rest, size);
      assert |Cat(bs)| == |Live(b)| + |Cat(rest)|;
      assert (1 + |rest|) * (size - 1) == |rest| * (size - 1) + (size - 1);
    }
  }

  /** The blocks from the front block (position 0) round the ring, the tail block at `tp`. */
  ghost predicate RingOk<T>(bs: seq<Blk<T>>, tp: nat) {
    && tp < |bs|
    && (forall i :: 0 <= i < |bs| ==> Ok(bs[i]))
    && (forall i :: 0 < i < tp ==> Full(bs[i]))
    && (0 < tp ==> !Drained(bs[tp]))
  }

  /** Every block after the tail block is empty, apart from an element of the producer's that is
      written but not yet published. */
  ghost predicate SpareOk<T>(bs: seq<Blk<T>>, tp: nat, unpublished: bool) {
    && (forall i :: tp + (if unpublished then 1 else 0) < i < |bs| ==> Drained(bs[i]))
    && (unpublished ==> tp + 1 < |bs| && bs[tp + 1].front + 1 == |bs[tp + 1].log|)
  }

  function Contents<T>(bs: seq<Blk<T>>, tp: nat): seq<T>
    requires tp < |bs|
  {
    Cat(bs[..tp + 1])
  }

  // ---- The consumer's updates ----

  function SeeTail<T>(b: Blk<T>): Blk<T> { b.(localTail := |b.log|) }

  function Advance<T>(b: Blk<T>): Blk<T> { b.(front := b.front + 1) }

  function Rotate<T>(bs: seq<Blk<T>>): seq<Blk<T>>
    requires bs != []
  {
    bs[1..] + [bs[0]]
  }

  // ---- The producer's updates ----

  function SeeFront<T>(b: Blk<T>): Blk<T> { b.(localFront := b.front) }

  function Push<T>(b: Blk<T>, x: T): Blk<T> { b.(log := b.log + [x]) }

  function Insert<T>(bs: seq<Blk<T>>, tp: nat, b: Blk<T>): seq<Blk<T>>
    requires tp < |bs|
  {
    bs[..tp + 1] + [b] + bs[tp + 1..]
  }

  // ---- What the updates do to the contents ----

  lemma LiveSame<T>(bs: seq<Blk<T>>, i: nat, b: Blk<T>)
    requires i < |bs| && Live(b) == Live(bs[i])
    ensures Cat(bs[i := b]) == Cat(bs)
  {
    hide Cat, Live;
    var a, c := bs[..i], bs[i + 1..];
    assert bs == a + ([bs[i]] + c) && bs[i := b] == a + ([b] + c);
    CatAround(a, bs[i], c);
    CatAround(a, b, c);
  }

  /** Updating a block without touching its live elements, or one past the tail, keeps the contents. */
  lemma ContentsSame<T>(bs: seq<Blk<T>>, tp: nat, i: nat, b: Blk<T>)
    requires tp < |bs| && i < |bs|
    requires Live(b) == Live(bs[i]) || tp < i
    ensures Contents(bs[i := b], tp) == Contents(bs, tp)
  {
    if tp < i {
      assert bs[i := b][..tp + 1] == bs[..tp + 1];
    } else {
      LiveSame(bs[..tp + 1], i, b);
      assert bs[..tp + 1][i := b] == bs[i := b][..tp + 1];
    }
  }

  lemma ContentsFirst<T>(bs: seq<Blk<T>>, tp: nat)
    requires tp < |bs|
    ensures Contents(bs, tp) == Live(bs[0]) + Cat(bs[1..tp + 1])
  {
    assert bs[..tp + 1][1..] == bs[1..tp + 1];
  }

  lemma ContentsLast<T>(bs: seq<Blk<T>>, tp: nat)
    requires tp < |bs|
    ensures Contents(bs, tp) == Cat(bs[..tp]) + Live(bs[tp])
  {
    hide Cat, Live;
    CatConcat(bs[..tp], [bs[tp]]);
    CatOne(bs[tp]);
    assert bs[..tp + 1] == bs[..tp] + [bs[tp]];
  }

  lemma ContentsPush<T>(bs: seq<Blk<T>>, tp: nat, x: T)
    requires RingOk(bs, tp)
    ensures Contents(bs[tp := Push(bs[tp], x)], tp) == Contents(bs, tp) + [x]
  {
    hide Cat;
    var b := Push(bs[tp], x);
    ContentsLast(bs, tp);
    ContentsLast(bs[tp := b], tp);
    assert bs[tp := b][..tp] == bs[..tp];
    assert Live(b) == Live(bs[tp]) + [x];
    assert Cat(bs[..tp]) + (Live(bs[tp]) + [x]) == Cat(bs[..tp]) + Live(bs[tp]) + [x];
  }

  lemma ContentsAdvance<T>(bs: seq<Blk<T>>, tp: nat)
    requires tp < |bs| && bs[0].front < |bs[0].log|
    ensures Contents(bs, tp) != [] && Contents(bs, tp)[0] == bs[0].log[bs[0].front]
    ensures Contents(bs[0 := Advance(bs[0])], tp) == Contents(bs, tp)[1..]
  {
    hide Cat;
    var b, rest := Advance(bs[0]), Cat(bs[1..tp + 1]);
    ContentsFirst(bs, tp);
    ContentsFirst(bs[0 := b], tp);
    assert bs[0 := b][1..tp + 1] == bs[1..tp + 1];
    assert Live(b) == Live(bs[0])[1..];
    assert (Live(bs[0]) + rest)[1..] == Live(bs[0])[1..] + rest;
  }

  lemma ContentsRotate<T>(bs: seq<Blk<T>>, tp: nat)
    requires RingOk(bs, tp) && 0 < tp && Drained(bs[0])
    ensures Contents(Rotate(bs), tp - 1) == Contents(bs, tp)
  {
    ContentsFirst(bs, tp);
    assert bs[1..tp + 1] == Rotate(bs)[..tp];
  }

  /** When the front block is drained and the tail is elsewhere, the head is in the next block. */
  lemma ContentsNext<T>(bs: seq<Blk<T>>, tp: nat)
    requires RingOk(bs, tp) && 0 < tp && Drained(bs[0])
    ensures !Drained(bs[1])
    ensures Contents(bs, tp) != [] && Contents(bs, tp)[0] == bs[1].log[bs[1].front]
  {
    assert Full(bs[1]) || tp == 1;
    hide Cat;
    ContentsRotate(bs, tp);
    ContentsFirst(Rotate(bs), tp - 1);
  }

  lemma ContentsPublish<T>(bs: seq<Blk<T>>, tp: nat)
    requires tp + 1 < |bs| && bs[tp + 1].front + 1 == |bs[tp + 1].log|
    ensures Contents(bs, tp + 1) == Contents(bs, tp) + [bs[tp + 1].log[bs[tp + 1].front]]
  {
    ContentsLast(bs, tp + 1);
  }

  lemma ContentsEmpty<T>(bs: seq<Blk<T>>)
    requires bs != []
    ensures Contents(bs, 0) == Live(bs[0])
  {
    ContentsLast(bs, 0);
  }

  /** The producer finds no room and no free block only when all blocks but the front one are full;
      they then hold `size - 1` elements each. */
  lemma ContentsCrowded<T>(bs: seq<Blk<T>>, tp: nat, size: nat)
    requires RingOk(bs, tp) && tp + 1 == |bs| && Full(bs[tp]) && 1 <= size
    requires forall i :: 0 <= i < |bs| ==> size <= bs[i].size
    ensures |Contents(bs, tp)| >= tp * (size - 1)
    ensures tp == 0 ==> |Contents(bs, tp)| >= size - 1
  {
    hide Cat, Live;
    if tp == 0 {
      FullFront(bs[0]);
      ContentsEmpty(bs);
    } else {
      var rest := bs[1..];
      ContentsFirst(bs, tp);
      assert bs[1..tp + 1] == rest;
      assert forall i :: 0 <= i < |rest| ==> rest[i] == bs[i + 1];
      CatFull(rest, size);
    }
  }

  lemma FullFront<T>(b: Blk<T>)
    requires Full(b) && 1 <= b.size
    ensures |Live(b)| == b.size - 1
  {
  }

  /** The blocks outside the arc from front to tail add nothing. */
  lemma ContentsAll<T>(blocks: seq<Blk<T>>, tp: nat)
    requires tp < |blocks| && forall i :: tp < i < |blocks| ==> Drained(blocks[i])
    ensures Cat(blocks) == Contents(blocks, tp)
  {
    var spare := blocks[tp + 1..];
    assert blocks == blocks[..tp + 1] + spare;
    CatConcat(blocks[..tp + 1], spare);
    CatDrained(spare);
  }
}
