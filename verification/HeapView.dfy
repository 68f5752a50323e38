/** What is in the queue, read off the memory alone: the slots from `front` to `tail` of each block,
    from `frontBlock` along `next` to `tailBlock`. */
module HeapView {
  import opened Wrappers
  import opened Blocks
  import opened Words
  import opened Slots
  import opened HeapSteps
  import opened HeapRefinement
  import R = RingSteps

  /** The number of slots in use, as `size_approx` counts it. */
  function InUse<T>(f: Buf<T>): nat {
    if f.front <= f.tail then f.tail - f.front
    else if f.front <= f.tail + f.sizeMask + 1 then f.tail + f.sizeMask + 1 - f.front
    else 0
  }

  function SlotAt<T>(f: Buf<T>, k: nat): Slot<T> {
    var j := Idx(k, f.sizeMask + 1);
    if j < |f.slots| then f.slots[j] else Raw
  }

  function Window<T>(f: Buf<T>): seq<Slot<T>> {
    seq(InUse(f), d requires 0 <= d => SlotAt(f, f.front + d))
  }

  function Span<T>(nodes: seq<Node<T>>, id: Id, last: Id, fuel: nat): seq<Slot<T>>
    decreases fuel
  {
    if id >= |nodes| then []
    else
      Window(nodes[id].buf) +
      (if id == last || fuel == 0 || nodes[id].next.None? then []
       else Span(nodes, nodes[id].next.value, last, fuel - 1))
  }

  /** The slots in use, in queue order. */
  function Held<T>(c: State<T>): seq<Slot<T>> {
    Span(c.nodes, c.frontBlock, c.tailBlock, |c.nodes|)
  }

  function Cells<T>(q: seq<T>): seq<Slot<T>> { seq(|q|, i requires 0 <= i < |q| => Cell(q[i])) }

  /** The element being taken has left its slot, while `front` still counts it. */
  function Hole<T>(q: seq<Slot<T>>, taken: bool): seq<Slot<T>> {
    if taken && q != [] then [Raw] + q[1..] else q
  }

  lemma CellsConcat<T>(p: seq<T>, q: seq<T>)
    ensures Cells(p + q) == Cells(p) + Cells(q)
  {
  }

  lemma AddMod(k: nat, d: nat, size: nat, q: nat, r: nat, q': nat, r': nat)
    requires k == size * q + r && r + d == size * q' + r' && r' < size
    ensures (k + d) % size == r'
  {
    assert size * (q + q') == size * q + size * q';
    ModOf(k + d, size, q + q', r');
  }

  lemma IdxAdd(k: nat, d: nat, size: nat)
    requires 0 < size
    ensures Idx(Idx(k, size) + d, size) == Idx(k + d, size)
  {
    var r := Idx(k, size);
    AddMod(k, d, size, k / size, r, (r + d) / size, Idx(r + d, size));
  }

  lemma WindowAt<T>(f: Buf<T>, b: Blk<T>, taken: bool, built: Option<T>, d: nat)
    requires BufRep(f, b, taken, built) && d < b.size
    ensures SlotAt(f, f.front + d) == Want(b, taken, built, b.front + d)
  {
    IdxAdd(b.front, d, b.size);
    assert f.slots[Idx(b.front + d, b.size)] == Want(b, taken, built, b.front + d);
  }

  lemma InUseIs<T>(f: Buf<T>, b: Blk<T>, taken: bool, built: Option<T>)
    requires Ok(b) && BufRep(f, b, taken, built)
    ensures InUse(f) == |b.log| - b.front
  {
    hide SlotsRep;
    IdxDistance(b.front, |b.log| - b.front, b.size);
  }

  lemma WindowIs<T>(f: Buf<T>, b: Blk<T>, taken: bool, built: Option<T>)
    requires Ok(b) && BufRep(f, b, taken, built) && (taken ==> b.front < |b.log|)
    ensures Window(f) == Hole(Cells(Live(b)), taken)
  {
    InUseIs(f, b, taken, built);
    hide BufRep, SlotAt;
    var w, h := Window(f), Hole(Cells(Live(b)), taken);
    assert |w| == |h|;
    forall d | 0 <= d < |w|
      ensures w[d] == h[d]
    {
      WindowAt(f, b, taken, built, d);
    }
  }

  lemma HoleConcat<T>(p: seq<Slot<T>>, q: seq<Slot<T>>, taken: bool)
    requires taken ==> p != []
    ensures Hole(p + q, taken) == Hole(p, taken) + q
  {
  }

  /** One block further along. */
  lemma SpanStep<T>(c: State<T>, s: R.State<T>, order: seq<Id>, k: nat, fuel: nat)
    requires Shape(c, s, order) && k < s.tp && 0 < fuel
    ensures Span(c.nodes, order[k], order[s.tp], fuel)
         == Window(c.nodes[order[k]].buf) + Span(c.nodes, order[k + 1], order[s.tp], fuel - 1)
  {
    hide Reps, Window;
    assert order[k] != order[s.tp];
    assert c.nodes[order[k]].next == Some(After(order, k));
  }

  lemma SpanLast<T>(nodes: seq<Node<T>>, id: Id, fuel: nat)
    requires id < |nodes|
    ensures Span(nodes, id, id, fuel) == Window(nodes[id].buf)
  {
    hide Window;
  }

  lemma CatStep<T>(bs: seq<Blk<T>>, k: nat, tp: nat)
    requires k <= tp < |bs|
    ensures Cat(bs[k..tp + 1]) == Live(bs[k]) + Cat(bs[k + 1..tp + 1])
    ensures k == tp ==> Cat(bs[k..tp + 1]) == Live(bs[k])
  {
    assert bs[k..tp + 1] == [bs[k]] + bs[k + 1..tp + 1];
    CatConcat([bs[k]], bs[k + 1..tp + 1]);
    CatOne(bs[k]);
  }

  /** The cells from the `k`-th block of the ring on. */
  ghost function Rest<T>(s: R.State<T>, k: nat): seq<Slot<T>>
    requires k <= s.tp < |s.blocks|
  {
    Cells(Cat(s.blocks[k..s.tp + 1]))
  }

  lemma RestStep<T>(s: R.State<T>, k: nat, taken: bool)
    requires k <= s.tp < |s.blocks| && (taken ==> s.blocks[k].front < |s.blocks[k].log|)
    ensures k < s.tp ==> Hole(Rest(s, k), taken) == Hole(Cells(Live(s.blocks[k])), taken) + Rest(s, k + 1)
    ensures k == s.tp ==> Hole(Rest(s, k), taken) == Hole(Cells(Live(s.blocks[k])), taken)
  {
    hide Hole, Cells;
    CatStep(s.blocks, k, s.tp);
    WindowNonEmpty(s.blocks[k], taken);
    CellsConcat(Live(s.blocks[k]), Cat(s.blocks[k + 1..s.tp + 1]));
    if k < s.tp {
      HoleConcat(Cells(Live(s.blocks[k])), Rest(s, k + 1), taken);
    }
  }

  lemma WindowAtBlock<T>(c: State<T>, s: R.State<T>, order: seq<Id>, k: nat, taken: bool)
    requires Shape(c, s, order) && k < |order| && Ok(s.blocks[k])
    requires taken == (c.cons.CStFront? && k == 0) && (taken ==> s.blocks[k].front < |s.blocks[k].log|)
    ensures Window(c.nodes[order[k]].buf) == Hole(Cells(Live(s.blocks[k])), taken)
  {
    WindowIs(c.nodes[order[k]].buf, s.blocks[k], taken, BuiltAt(c.prod, s.tp, k));
  }

  lemma {:induction false} SpanIs<T>(c: State<T>, s: R.State<T>, order: seq<Id>, k: nat, fuel: nat, taken: bool)
    requires Shape(c, s, order) && k <= s.tp <= k + fuel
    requires forall i :: 0 <= i < |order| ==> Ok(s.blocks[i])
    requires taken == (c.cons.CStFront? && k == 0) && (taken ==> s.blocks[k].front < |s.blocks[k].log|)
    ensures Span(c.nodes, order[k], order[s.tp], fuel) == Hole(Rest(s, k), taken)
    decreases fuel
  {
    hide BufRep, Span, Window, Rest, Hole, Cells, Live, Reps;
    WindowAtBlock(c, s, order, k, taken);
    RestStep(s, k, taken);
    if k < s.tp {
      assert Span(c.nodes, order[k + 1], order[s.tp], fuel - 1) == Rest(s, k + 1) by {
        SpanIs(c, s, order, k + 1, fuel - 1, false);
        HoleNone(Rest(s, k + 1));
      }
      SpanStep(c, s, order, k, fuel);
    } else {
      SpanLast(c.nodes, order[k], fuel);
    }
  }

  lemma WindowNonEmpty<T>(b: Blk<T>, taken: bool)
    requires taken ==> b.front < |b.log|
    ensures taken ==> Cells(Live(b)) != []
  {
  }

  lemma HoleNone<T>(q: seq<Slot<T>>)
    ensures Hole(q, false) == q
  {
  }

  /** In every related pair of states the memory holds exactly the abstract contents. */
  lemma HeldIs<T>(cfg: Config, c: State<T>, s: R.State<T>, order: seq<Id>)
    requires Rel(cfg, c, s, order)
    ensures Held(c) == Hole(Cells(Contents(s.blocks, s.tp)), c.cons.CStFront?)
    ensures |Held(c)| == |Contents(s.blocks, s.tp)|
  {
    SpanIs(c, s, order, 0, |c.nodes|, c.cons.CStFront?);
    assert s.blocks[0..s.tp + 1] == s.blocks[..s.tp + 1];
  }
}
