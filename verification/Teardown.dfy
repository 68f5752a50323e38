/** The destructor: it walks the ring from `frontBlock` and destroys, in each block, the elements
    from `front` to `tail`.  `None` stands for destroying a raw slot or running off the ring. */
module Teardown {
  import opened Wrappers
  import opened Blocks
  import opened Words
  import opened Slots
  import opened HeapSteps
  import opened HeapRefinement
  import R = RingSteps

  /** The inner loop (lines 193-197), from index `i` on: the slots left, and the elements destroyed. */
  function DestroyBlock<T>(f: Buf<T>, i: nat, fuel: nat): Option<(seq<Slot<T>>, seq<T>)>
    decreases fuel
  {
    if i == f.tail then Some((f.slots, []))
    else if fuel == 0 || i >= |f.slots| || f.slots[i].Raw? then None
    else
      match DestroyBlock(f.(slots := f.slots[i := Raw]), Succ(f, i), fuel - 1)
      case None => None
      case Some(r) => Some((r.0, [f.slots[i].x] + r.1))
  }

  /** The outer loop (lines 188-203), from block `id` on until it is back at `start`. */
  function DestroyRing<T>(nodes: seq<Node<T>>, id: Id, start: Id, fuel: nat): Option<(seq<Node<T>>, seq<T>)>
    decreases fuel
  {
    if id >= |nodes| || fuel == 0 then None
    else
      var f := nodes[id].buf;
      match DestroyBlock(f, f.front, |f.slots|)
      case None => None
      case Some(r) =>
        var nodes' := SetBuf(nodes, id, f.(slots := r.0));
        if nodes[id].next == Some(start) then Some((nodes', r.1))
        else if nodes[id].next.None? then None
        else
          match DestroyRing(nodes', nodes[id].next.value, start, fuel - 1)
          case None => None
          case Some(q) => Some((q.0, r.1 + q.1))
  }

  function Destroy<T>(c: State<T>): Option<(seq<Node<T>>, seq<T>)> {
    DestroyRing(c.nodes, c.frontBlock, c.frontBlock, |c.nodes|)
  }

  lemma {:induction false} DestroyBlockIs<T>(f: Buf<T>, b: Blk<T>, i: nat, fuel: nat)
    requires IsPow2(b.size) && f.sizeMask + 1 == b.size && SlotsRep(f.slots, b, false, None)
    requires i == Idx(b.front, b.size) && f.tail == Idx(|b.log|, b.size)
    requires b.front <= |b.log| < b.front + b.size && |b.log| - b.front <= fuel
    ensures var r := DestroyBlock(f, i, fuel);
            r.Some? && r.value.1 == Live(b) && |r.value.0| == |f.slots| && AllRaw(r.value.0)
    decreases fuel
  {
    IdxInjective(b.front, |b.log|, b.size);
    if Drained(b) {
      forall j | 0 <= j < |f.slots| ensures f.slots[j] == Raw { DrainedRaw(f.slots, b, j); }
    } else {
      TakeSlot(f.slots, b, None);
      ReleaseSlot(f.slots[i := Raw], b, None);
      SuccIdx(f, b.front);
      DestroyBlockIs(f.(slots := f.slots[i := Raw]), Advance(b), Succ(f, i), fuel - 1);
      assert Live(b) == [b.log[b.front]] + Live(Advance(b));
    }
  }

  /** The blocks from the `k`-th on are still as the queue left them. */
  ghost predicate Intact<T>(nodes: seq<Node<T>>, blocks: seq<Blk<T>>, order: seq<Id>, k: nat) {
    && Linked(nodes, order, |nodes|) && |blocks| == |order|
    && forall i :: k <= i < |order| ==> Ok(blocks[i]) && BufRep(nodes[order[i]].buf, blocks[i], false, None)
  }

  lemma DestroyOne<T>(nodes: seq<Node<T>>, blocks: seq<Blk<T>>, order: seq<Id>, k: nat)
    returns (slots: seq<Slot<T>>)
    requires Intact(nodes, blocks, order, k) && k < |order|
    ensures var f := nodes[order[k]].buf;
            && DestroyBlock(f, f.front, |f.slots|) == Some((slots, Live(blocks[k]))) && AllRaw(slots)
            && Intact(SetBuf(nodes, order[k], f.(slots := slots)), blocks, order, k + 1)
  {
    var f, b := nodes[order[k]].buf, blocks[k];
    assert Ok(b) && BufRep(f, b, false, None);
    DestroyBlockIs(f, b, f.front, |f.slots|);
    slots := DestroyBlock(f, f.front, |f.slots|).value.0;
    BufUpdate(nodes, order, |nodes|, k, f.(slots := slots));
  }

  /** The result of emptying the ring from the `k`-th block on. */
  ghost predicate Emptied<T>(nodes: seq<Node<T>>, blocks: seq<Blk<T>>, order: seq<Id>, k: nat,
                             r: Option<(seq<Node<T>>, seq<T>)>)
    requires k <= |blocks| == |order| && forall i :: 0 <= i < |order| ==> order[i] < |nodes|
  {
    && r.Some? && r.value.1 == Cat(blocks[k..]) && |r.value.0| == |nodes|
    && (forall i :: k <= i < |order| ==> AllRaw(r.value.0[order[i]].buf.slots))
    && (forall i :: 0 <= i < k ==> r.value.0[order[i]] == nodes[order[i]])
  }

  lemma CatFrom<T>(blocks: seq<Blk<T>>, k: nat)
    requires k < |blocks|
    ensures Cat(blocks[k..]) == Live(blocks[k]) + Cat(blocks[k + 1..])
    ensures k + 1 == |blocks| ==> Cat(blocks[k..]) == Live(blocks[k])
  {
    assert blocks[k..] == [blocks[k]] + blocks[k + 1..];
    CatConcat([blocks[k]], blocks[k + 1..]);
    CatOne(blocks[k]);
  }

  lemma EmptiedStep<T>(nodes: seq<Node<T>>, blocks: seq<Blk<T>>, order: seq<Id>, k: nat, nodes': seq<Node<T>>,
                       f: Buf<T>, q: Option<(seq<Node<T>>, seq<T>)>)
    requires Linked(nodes, order, |nodes|) && |blocks| == |order| && k + 1 < |order|
    requires nodes' == SetBuf(nodes, order[k], f) && AllRaw(f.slots)
    requires Emptied(nodes', blocks, order, k + 1, q)
    ensures q.Some? && Emptied(nodes, blocks, order, k, Some((q.value.0, Live(blocks[k]) + q.value.1)))
  {
    BufUpdate(nodes, order, |nodes|, k, f);
    CatFrom(blocks, k);
    hide Cat, Live;
    assert q.value.0[order[k]] == nodes'[order[k]];
  }

  lemma EmptiedLast<T>(nodes: seq<Node<T>>, blocks: seq<Blk<T>>, order: seq<Id>, k: nat, f: Buf<T>)
    requires Linked(nodes, order, |nodes|) && |blocks| == |order| == k + 1 && AllRaw(f.slots)
    ensures Emptied(nodes, blocks, order, k, Some((SetBuf(nodes, order[k], f), Live(blocks[k]))))
  {
    BufUpdate(nodes, order, |nodes|, k, f);
    CatFrom(blocks, k);
  }

  /** All blocks of the ring but the first `k` are emptied; the elements destroyed are theirs, in order. */
  lemma {:induction false} DestroyRingIs<T>(nodes: seq<Node<T>>, blocks: seq<Blk<T>>, order: seq<Id>, k: nat, fuel: nat)
    requires Intact(nodes, blocks, order, k) && k < |order| <= k + fuel
    ensures Emptied(nodes, blocks, order, k, DestroyRing(nodes, order[k], order[0], fuel))
    decreases fuel
  {
    hide Emptied, BufRep, Live, DestroyBlock, AllRaw, Ok, Cat;
    var slots := DestroyOne(nodes, blocks, order, k);
    var f := nodes[order[k]].buf.(slots := slots);
    var nodes' := SetBuf(nodes, order[k], f);
    assert nodes[order[k]].next == Some(After(order, k));
    if k + 1 < |order| {
      assert order[k + 1] != order[0];
      DestroyRingIs(nodes', blocks, order, k + 1, fuel - 1);
      EmptiedStep(nodes, blocks, order, k, nodes', f, DestroyRing(nodes', order[k + 1], order[0], fuel - 1));
    } else {
      EmptiedLast(nodes, blocks, order, k, f);
    }
  }

  // ---- No block is left out ----

  ghost function Below(n: nat): set<nat> {
    if n == 0 then {} else Below(n - 1) + {n - 1}
  }

  lemma {:induction false} BelowIs(n: nat)
    ensures |Below(n)| == n
    ensures forall i: nat :: i in Below(n) <==> i < n
    decreases n
  {
    if n == 0 {
    } else {
      BelowIs(n - 1);
    }
  }

  ghost function Ids(order: seq<Id>): set<Id> { set i | 0 <= i < |order| :: order[i] }

  lemma {:induction false} IdsSize(order: seq<Id>)
    requires forall i, j :: 0 <= i < j < |order| ==> order[i] != order[j]
    ensures |Ids(order)| == |order|
    decreases |order|
  {
    if order == [] {
    } else {
      var rest, last := order[..|order| - 1], order[|order| - 1];
      IdsSize(rest);
      assert Ids(order) == Ids(rest) + {last};
    }
  }

  lemma EveryBlockInRing<T>(nodes: seq<Node<T>>, order: seq<Id>, id: Id)
    requires Linked(nodes, order, |nodes|) && id < |nodes|
    ensures exists i :: 0 <= i < |order| && order[i] == id
  {
    IdsSize(order);
    BelowIs(|nodes|);
    assert Ids(order) <= Below(|nodes|);
    Saturated(Ids(order), Below(|nodes|));
    assert id in Ids(order);
  }

  lemma {:induction false} Saturated(a: set<nat>, b: set<nat>)
    requires a <= b && |a| == |b|
    ensures a == b
    decreases |a|
  {
    if a == {} {
    } else {
      var x :| x in a;
      Saturated(a - {x}, b - {x});
      assert a == (a - {x}) + {x} && b == (b - {x}) + {x};
    }
  }

  /** When both sides are idle the destructor destroys exactly the elements in the queue, in order, and
      leaves no element in any slot of any block. */
  lemma DestroyIs<T>(cfg: Config, c: State<T>, s: R.State<T>, order: seq<Id>)
    requires Rel(cfg, c, s, order) && c.prod.PIdle? && c.cons.CIdle?
    ensures var r := Destroy(c);
            && r.Some? && r.value.1 == Contents(s.blocks, s.tp) && |r.value.0| == |c.nodes|
            && forall id :: 0 <= id < |c.nodes| ==> AllRaw(r.value.0[id].buf.slots)
  {
    AllIntact(cfg, c, s, order);
    ContentsAll(s.blocks, s.tp);
    hide BufRep, Cat;
    DestroyRingIs(c.nodes, s.blocks, order, 0, |c.nodes|);
    assert s.blocks[0..] == s.blocks;
    forall id | 0 <= id < |c.nodes|
      ensures AllRaw(Destroy(c).value.0[id].buf.slots)
    {
      EveryBlockInRing(c.nodes, order, id);
    }
  }

  lemma AllIntact<T>(cfg: Config, c: State<T>, s: R.State<T>, order: seq<Id>)
    requires Rel(cfg, c, s, order) && c.prod.PIdle? && c.cons.CIdle?
    ensures Intact(c.nodes, s.blocks, order, 0) && c.frontBlock == order[0]
    ensures forall i :: s.tp < i < |s.blocks| ==> Drained(s.blocks[i])
  {
    forall i | 0 <= i < |order|
      ensures Ok(s.blocks[i]) && BufRep(c.nodes[order[i]].buf, s.blocks[i], false, None)
    {
      assert BufRep(c.nodes[order[i]].buf, s.blocks[i], c.cons.CStFront? && i == 0, BuiltAt(c.prod, s.tp, i));
    }
  }
}
