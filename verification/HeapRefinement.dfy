/** Every step of `HeapSteps` is a step of `RingSteps`, or none, with the same calls and returns.
    `order` lists the ring's blocks from `frontBlock` on. */
module HeapRefinement {
  import opened Wrappers
  import opened Fifo
  import opened Blocks
  import opened Words
  import opened Slots
  import opened HeapSteps
  import R = RingSteps

  function After(order: seq<Id>, i: nat): Id
    requires i < |order|
  {
    if i + 1 == |order| then order[0] else order[i + 1]
  }

  /** `next` closes one cycle through the first `m` blocks allocated, all of them. */
  ghost predicate Linked<T>(nodes: seq<Node<T>>, order: seq<Id>, m: nat) {
    && 0 < |order| == m <= |nodes|
    && (forall i :: 0 <= i < |order| ==> order[i] < m)
    && (forall i, j :: 0 <= i < j < |order| ==> order[i] != order[j])
    && (forall i {:trigger After(order, i)} :: 0 <= i < |order| ==> nodes[order[i]].next == Some(After(order, i)))
  }

  ghost function BuiltAt<T>(p: Prod<T>, tp: nat, i: nat): Option<T> {
    match p
    case StTail(x, _, _) => if i == tp then Some(x) else None
    case StSpareTail(x, _, _) => if i == tp + 1 then Some(x) else None
    case _ => None
  }

  ghost predicate Reps<T>(c: State<T>, s: R.State<T>, order: seq<Id>)
    requires |order| == |s.blocks| && forall i :: 0 <= i < |order| ==> order[i] < |c.nodes|
  {
    forall i :: 0 <= i < |order| ==>
      BufRep(c.nodes[order[i]].buf, s.blocks[i], c.cons.CStFront? && i == 0, BuiltAt(c.prod, s.tp, i))
  }

  /** The number of allocated blocks that are in the ring: all but one that waits to be linked. */
  function InRing<T>(c: State<T>): int {
    |c.nodes| - (if c.prod.LdNextForNew? || c.prod.StNext? then 1 else 0)
  }

  ghost predicate Shape<T>(c: State<T>, s: R.State<T>, order: seq<Id>) {
    && 0 <= InRing(c) && Linked(c.nodes, order, InRing(c))
    && |order| == |s.blocks| && s.tp < |order|
    && c.frontBlock == order[0] && c.tailBlock == order[s.tp]
    && c.largest == s.largest && IsPow2(c.largest)
    && Reps(c, s, order)
  }

  ghost predicate ProdRel<T>(c: State<T>, s: R.State<T>, order: seq<Id>)
    requires Shape(c, s, order)
  {
    var t := order[s.tp];
    match c.prod
    case PIdle => s.prod.PIdle?
    case LdTailBlock(x, alloc) => s.prod == R.PCheck(x, alloc)
    case LdTail(x, alloc, tb) => s.prod == R.PCheck(x, alloc) && tb == t
    case LdFront(x, alloc, tb, bt) =>
      s.prod == R.PCheck(x, alloc) && tb == t && bt == c.nodes[t].buf.tail && !HasRoom(s.blocks[s.tp])
    case Construct(x, tb, bt) => s.prod == R.PRoom(x) && tb == t && bt == c.nodes[t].buf.tail
    case StTail(x, tb, bt) => s.prod == R.PRoom(x) && tb == t && bt == c.nodes[t].buf.tail
    case LdNext(x, alloc, tb) => s.prod == R.PNoRoom(x, alloc) && tb == t
    case LdFrontBlock(x, alloc, tb, nb) =>
      s.prod == R.PNoRoom(x, alloc) && tb == t && c.nodes[t].next == Some(nb)
    case LdNextAgain(x, tb) => s.prod == R.PSpare(x) && tb == t
    case LdSpareFront(x, nb) => s.prod == R.PSpare(x) && IsSpare(c, s, order, nb)
    case LdSpareTail(x, nb, nf) =>
      s.prod == R.PSpareSeen(x) && IsSpare(c, s, order, nb) && nf == c.nodes[nb].buf.localFront
    case ConstructSpare(x, nb, nt) =>
      s.prod == R.PSpareSeen(x) && IsSpare(c, s, order, nb) && nt == c.nodes[nb].buf.tail
    case StSpareTail(x, nb, nt) =>
      s.prod == R.PSpareSeen(x) && IsSpare(c, s, order, nb) && nt == c.nodes[nb].buf.tail
    case StTailBlock(x, nb) => s.prod == R.PWritten(x) && IsSpare(c, s, order, nb)
    case Alloc(x, tb) => s.prod == R.PAlloc(x) && tb == t
    case LdNextForNew(x, tb, nb) =>
      && s.prod.PLink? && s.prod.x == x && tb == t && nb == InRing(c)
      && BufRep(c.nodes[nb].buf, s.prod.b, false, None)
    case StNext(x, tb, nb) =>
      && s.prod.PLink? && s.prod.x == x && tb == t && nb == InRing(c)
      && BufRep(c.nodes[nb].buf, s.prod.b, false, None)
      && c.nodes[nb].next == c.nodes[t].next
    case PReturn(x, ok) => s.prod == R.PReturn(x, ok)
    case PFault => false
  }

  /** `nb` is the block after the tail block. */
  ghost predicate IsSpare<T>(c: State<T>, s: R.State<T>, order: seq<Id>, nb: Id)
    requires Shape(c, s, order)
  {
    s.tp + 1 < |order| && nb == order[s.tp + 1]
  }

  ghost predicate ConsRel<T>(c: State<T>, s: R.State<T>, order: seq<Id>)
    requires Shape(c, s, order)
  {
    var f := c.nodes[order[0]].buf;
    match c.cons
    case CIdle => s.cons.CIdle?
    case CLdFrontBlock(call) => s.cons == R.CCheck(call)
    case CLdFront(call, fb) => s.cons == R.CCheck(call) && fb == order[0]
    case CLdTail(call, fb, bf) =>
      s.cons == R.CCheck(call) && fb == order[0] && bf == f.front && s.blocks[0].front == s.blocks[0].localTail
    case CTake(call, fb, bf) => s.cons == R.CTake(call) && fb == order[0] && bf == f.front
    case CStFront(call, fb, bf, x) => s.cons == R.CTaken(call, x) && fb == order[0] && bf == f.front
    case CLdTailBlock(call, fb) => s.cons == R.CEmpty(call) && fb == order[0]
    case CLdFrontBlockAgain(call) => s.cons == R.CAhead(call)
    case CLdTailAgain(call, fb) => s.cons == R.CAhead(call) && fb == order[0]
    case CLdFrontAgain(call, fb, bt) =>
      && fb == order[0] && bt == f.localTail
      && s.cons == if s.blocks[0].front == s.blocks[0].localTail then R.CDrained(call) else R.CTake(call)
    case CLdNext(call, fb) => s.cons == R.CDrained(call) && fb == order[0]
    case CLdNextFront(call, nb) => s.cons == R.CDrained(call) && 1 < |order| && nb == order[1]
    case CLdNextTail(call, nb, nf) =>
      s.cons == R.CDrained(call) && 1 < |order| && nb == order[1] && nf == c.nodes[nb].buf.front
    case CStFrontBlock(call, nb, nf) =>
      s.cons == R.CHop(call) && 1 < |order| && nb == order[1] && nf == c.nodes[nb].buf.front
    case CReturn(call, reply) => s.cons == R.CReturn(call, reply)
    case CFault => false
  }

  /** The relation, without the ring machine's own invariant. */
  ghost predicate Joined<T>(c: State<T>, s: R.State<T>, order: seq<Id>) {
    Shape(c, s, order) && ProdRel(c, s, order) && ConsRel(c, s, order)
  }

  ghost predicate Rel<T>(cfg: Config, c: State<T>, s: R.State<T>, order: seq<Id>) {
    R.StateOk(cfg, s) && Joined(c, s, order)
  }

  // ---- Updating one block ----

  lemma BufUpdate<T>(nodes: seq<Node<T>>, order: seq<Id>, m: nat, j: nat, f: Buf<T>)
    requires Linked(nodes, order, m) && j < |order|
    ensures Linked(SetBuf(nodes, order[j], f), order, m)
    ensures SetBuf(nodes, order[j], f)[order[j]].buf == f
    ensures forall i :: 0 <= i < |order| && i != j ==> SetBuf(nodes, order[j], f)[order[i]] == nodes[order[i]]
  {
    forall i | 0 <= i < |order| && i != j ensures order[i] != order[j] {
      if i < j {
        assert order[i] != order[j];
      } else {
        assert order[j] != order[i];
      }
    }
  }

  /** One block of the ring is updated, and nothing else that `Shape` speaks of. */
  ghost predicate OneBlock<T>(c: State<T>, s: R.State<T>, order: seq<Id>, j: nat, f: Buf<T>, b: Blk<T>,
                              c': State<T>, s': R.State<T>)
  {
    && Shape(c, s, order) && j < |order|
    && c'.nodes == SetBuf(c.nodes, order[j], f)
    && c'.frontBlock == c.frontBlock && c'.tailBlock == c.tailBlock && c'.largest == c.largest
    && InRing(c') == InRing(c)
    && s'.blocks == s.blocks[j := b] && s'.tp == s.tp && s'.largest == s.largest
    && BufRep(f, b, c'.cons.CStFront? && j == 0, BuiltAt(c'.prod, s.tp, j))
    && (j != 0 ==> c'.cons.CStFront? == c.cons.CStFront?)
    && (forall i :: 0 <= i < |order| && i != j ==> BuiltAt(c'.prod, s.tp, i) == BuiltAt(c.prod, s.tp, i))
  }

  lemma OneBlockShape<T>(c: State<T>, s: R.State<T>, order: seq<Id>, j: nat, f: Buf<T>, b: Blk<T>,
                         c': State<T>, s': R.State<T>)
    requires OneBlock(c, s, order, j, f, b, c', s')
    ensures Shape(c', s', order)
  {
    BufUpdate(c.nodes, order, InRing(c), j, f);
    forall i | 0 <= i < |order|
      ensures BufRep(c'.nodes[order[i]].buf, s'.blocks[i], c'.cons.CStFront? && i == 0, BuiltAt(c'.prod, s'.tp, i))
    {
    }
  }

  /** The producer's relation depends on `tail`, `localFront`, `next` and its own variables only. */
  lemma ProdFrame<T>(c: State<T>, s: R.State<T>, order: seq<Id>, c': State<T>, s': R.State<T>)
    requires Shape(c, s, order) && ProdRel(c, s, order) && Shape(c', s', order)
    requires c'.prod == c.prod && s'.prod == s.prod && s'.tp == s.tp && InRing(c') == InRing(c)
    requires HasRoom(s'.blocks[s.tp]) <==> HasRoom(s.blocks[s.tp])
    requires InRing(c) < |c.nodes| ==> c'.nodes[InRing(c)] == c.nodes[InRing(c)]
    requires forall i :: 0 <= i < |order| ==>
      && c'.nodes[order[i]].buf.tail == c.nodes[order[i]].buf.tail
      && c'.nodes[order[i]].buf.localFront == c.nodes[order[i]].buf.localFront
      && c'.nodes[order[i]].next == c.nodes[order[i]].next
    ensures ProdRel(c', s', order)
  {
    hide Reps;
  }

  /** An update of the consumer's fields leaves alone what the producer relies on. */
  lemma ConsumerUpdate<T>(c: State<T>, s: R.State<T>, order: seq<Id>, j: nat, f: Buf<T>, b: Blk<T>,
                          c': State<T>, s': R.State<T>)
    requires OneBlock(c, s, order, j, f, b, c', s') && c'.prod == c.prod && s'.prod == s.prod
    requires ProdRel(c, s, order)
    requires f.tail == c.nodes[order[j]].buf.tail && f.localFront == c.nodes[order[j]].buf.localFront
    requires b.localFront == s.blocks[j].localFront && b.size == s.blocks[j].size && b.log == s.blocks[j].log
    ensures Shape(c', s', order) && ProdRel(c', s', order)
  {
    hide ProdRel, BufRep;
    OneBlockShape(c, s, order, j, f, b, c', s');
    BufUpdate(c.nodes, order, InRing(c), j, f);
    ProdFrame(c, s, order, c', s');
  }

  lemma ConsFrame<T>(c: State<T>, s: R.State<T>, order: seq<Id>, c': State<T>, s': R.State<T>, order': seq<Id>)
    requires Shape(c, s, order) && ConsRel(c, s, order) && Shape(c', s', order')
    requires c'.cons == c.cons && s'.cons == s.cons
    requires order'[0] == order[0] && c'.nodes[order[0]].buf.front == c.nodes[order[0]].buf.front
    requires c'.nodes[order[0]].buf.localTail == c.nodes[order[0]].buf.localTail
    requires s'.blocks[0].front == s.blocks[0].front && s'.blocks[0].localTail == s.blocks[0].localTail
    requires c.cons.CLdNextFront? || c.cons.CLdNextTail? || c.cons.CStFrontBlock? ==>
      && 1 < |order| && 1 < |order'| && order'[1] == order[1]
      && c'.nodes[order[1]].buf.front == c.nodes[order[1]].buf.front
    ensures ConsRel(c', s', order')
  {
    hide Reps;
  }

  /** An update of the producer's fields leaves alone what the consumer relies on. */
  lemma ProducerUpdate<T>(c: State<T>, s: R.State<T>, order: seq<Id>, j: nat, f: Buf<T>, b: Blk<T>,
                          c': State<T>, s': R.State<T>)
    requires OneBlock(c, s, order, j, f, b, c', s') && c'.cons == c.cons && s'.cons == s.cons
    requires ConsRel(c, s, order)
    requires f.front == c.nodes[order[j]].buf.front && f.localTail == c.nodes[order[j]].buf.localTail
    requires b.front == s.blocks[j].front && b.localTail == s.blocks[j].localTail
    ensures Shape(c', s', order) && ConsRel(c', s', order)
  {
    hide BufRep;
    OneBlockShape(c, s, order, j, f, b, c', s');
    BufUpdate(c.nodes, order, InRing(c), j, f);
    ConsFrame(c, s, order, c', s', order);
  }

  // ---- The consumer ----

  /** Some step of the ring machine, or none, with the same label. */
  ghost predicate ConsumerMatched<T>(s: R.State<T>, s': R.State<T>, i: Input<T>, l: Label<T>)
    requires R.Steppable(s)
  {
    (s', l) == R.ConsumerNext(s, i) || (s', l) == (s, Tau)
  }

  /** The consumer changes no block. */
  lemma ConsumerQuiet<T>(c: State<T>, s: R.State<T>, order: seq<Id>, c': State<T>, s': R.State<T>)
    requires Shape(c, s, order)
    requires ProdRel(c, s, order)
    requires c' == c.(cons := c'.cons) && s' == s.(cons := s'.cons) && !c.cons.CStFront? && !c'.cons.CStFront?
    ensures Shape(c', s', order) && ProdRel(c', s', order)
  {
  }

  lemma ConsumerOwnLoads<T>(c: State<T>, s: R.State<T>, order: seq<Id>, i: Input<T>)
    returns (s': R.State<T>)
    requires Joined(c, s, order) && R.Steppable(s) && (c.cons.CIdle? || c.cons.CLdFrontBlock? || c.cons.CLdFrontBlockAgain? || c.cons.CReturn?)
    ensures var (c', l) := ConsumerNext(c, i);
            Joined(c', s', order) && ConsumerMatched(s, s', i, l)
  {
    hide ProdRel;
    if c.cons.CLdFrontBlock? || c.cons.CLdFrontBlockAgain? {
      s' := s;
    } else {
      s' := R.ConsumerNext(s, i).0;
    }
    ConsumerQuiet(c, s, order, ConsumerNext(c, i).0, s');
  }

  lemma ConsumerComparesFront<T>(c: State<T>, s: R.State<T>, order: seq<Id>, i: Input<T>)
    returns (s': R.State<T>)
    requires Joined(c, s, order) && R.Steppable(s) && (c.cons.CLdFront? || c.cons.CLdFrontAgain?)
    requires Ok(s.blocks[0])
    ensures var (c', l) := ConsumerNext(c, i);
            Joined(c', s', order) && ConsumerMatched(s, s', i, l)
  {
    hide ProdRel;
    EmptyTests(c.nodes[order[0]].buf, s.blocks[0], false, BuiltAt(c.prod, s.tp, 0));
    var c' := ConsumerNext(c, i).0;
    s' := if c.cons.CLdFront? && c'.cons.CTake? then R.ConsumerNext(s, i).0 else s;
    ConsumerQuiet(c, s, order, c', s');
  }

  lemma ConsumerComparesTailBlock<T>(c: State<T>, s: R.State<T>, order: seq<Id>, i: Input<T>)
    returns (s': R.State<T>)
    requires Joined(c, s, order) && R.Steppable(s) && c.cons.CLdTailBlock?
    ensures var (c', l) := ConsumerNext(c, i);
            Joined(c', s', order) && ConsumerMatched(s, s', i, l)
  {
    hide ProdRel;
    s' := R.ConsumerNext(s, i).0;
    assert c.tailBlock == c.frontBlock <==> s.tp == 0;
    ConsumerQuiet(c, s, order, ConsumerNext(c, i).0, s');
  }

  // Going round the front block: `next`, then the next block's `front` and `tail`.

  lemma ConsumerNextFront<T>(c: State<T>, s: R.State<T>, order: seq<Id>, i: Input<T>)
    returns (s': R.State<T>)
    requires Joined(c, s, order) && R.Steppable(s) && (c.cons.CLdNext? || c.cons.CLdNextFront?)
    ensures var (c', l) := ConsumerNext(c, i);
            Joined(c', s', order) && ConsumerMatched(s, s', i, l)
  {
    hide ProdRel;
    s' := s;
    assert c.cons.CLdNext? ==> c.nodes[order[0]].next == Some(After(order, 0));
    ConsumerQuiet(c, s, order, ConsumerNext(c, i).0, s');
  }

  lemma NextCell<T>(c: State<T>, s: R.State<T>, order: seq<Id>)
    requires Joined(c, s, order) && c.cons.CLdNextTail? && Ok(s.blocks[1]) && !Drained(s.blocks[1])
    ensures var f, b := c.nodes[order[1]].buf, s.blocks[1];
            && f.front != f.tail && f.front < |f.slots| && b.front < |b.log|
            && f.slots[f.front] == Cell(b.log[b.front])
  {
    EmptyTests(c.nodes[order[1]].buf, s.blocks[1], false, BuiltAt(c.prod, s.tp, 1));
    FrontCell(c.nodes[order[1]].buf, s.blocks[1], BuiltAt(c.prod, s.tp, 1));
  }

  lemma ConsumerPeeksNext<T>(c: State<T>, s: R.State<T>, order: seq<Id>, i: Input<T>)
    returns (s': R.State<T>)
    requires Joined(c, s, order) && R.Steppable(s) && c.cons.CLdNextTail? && c.cons.call.Peek?
    requires Ok(s.blocks[1]) && !Drained(s.blocks[1])
    ensures var (c', l) := ConsumerNext(c, i);
            Joined(c', s', order) && ConsumerMatched(s, s', i, l)
  {
    hide ProdRel, BufRep;
    NextCell(c, s, order);
    s' := R.ConsumerNext(s, i).0;
    ConsumerQuiet(c, s, order, ConsumerNext(c, i).0, s');
  }

  lemma ConsumerEntersNext<T>(c: State<T>, s: R.State<T>, order: seq<Id>, i: Input<T>)
    returns (s': R.State<T>)
    requires Joined(c, s, order) && R.Steppable(s) && c.cons.CLdNextTail? && !c.cons.call.Peek?
    requires Ok(s.blocks[1]) && !Drained(s.blocks[1])
    ensures var (c', l) := ConsumerNext(c, i);
            Joined(c', s', order) && ConsumerMatched(s, s', i, l)
  {
    hide ProdRel, BufRep;
    NextCell(c, s, order);
    var f := c.nodes[order[1]].buf;
    SeeRep(f, s.blocks[1], false, BuiltAt(c.prod, s.tp, 1));
    s' := R.ConsumerNext(s, i).0;
    ConsumerUpdate(c, s, order, 1, f.(localTail := f.tail), SeeTail(s.blocks[1]), ConsumerNext(c, i).0, s');
  }

  lemma ConsumerSeesTail<T>(c: State<T>, s: R.State<T>, order: seq<Id>, i: Input<T>)
    returns (s': R.State<T>)
    requires Joined(c, s, order) && R.Steppable(s) && c.cons.CLdTail?
    requires Ok(s.blocks[0])
    ensures var (c', l) := ConsumerNext(c, i);
            Joined(c', s', order) && ConsumerMatched(s, s', i, l)
  {
    hide ProdRel, BufRep;
    var f := c.nodes[order[0]].buf;
    EmptyTests(f, s.blocks[0], false, BuiltAt(c.prod, s.tp, 0));
    SeeRep(f, s.blocks[0], false, BuiltAt(c.prod, s.tp, 0));
    s' := R.ConsumerNext(s, i).0;
    ConsumerUpdate(c, s, order, 0, f.(localTail := f.tail), SeeTail(s.blocks[0]), ConsumerNext(c, i).0, s');
  }

  lemma ConsumerSeesTailAgain<T>(c: State<T>, s: R.State<T>, order: seq<Id>, i: Input<T>)
    returns (s': R.State<T>)
    requires Joined(c, s, order) && R.Steppable(s) && c.cons.CLdTailAgain?
    requires Ok(s.blocks[0])
    ensures var (c', l) := ConsumerNext(c, i);
            Joined(c', s', order) && ConsumerMatched(s, s', i, l)
  {
    hide ProdRel, BufRep;
    var f := c.nodes[order[0]].buf;
    EmptyTests(f, s.blocks[0], false, BuiltAt(c.prod, s.tp, 0));
    SeeRep(f, s.blocks[0], false, BuiltAt(c.prod, s.tp, 0));
    s' := R.ConsumerNext(s, i).0;
    ConsumerUpdate(c, s, order, 0, f.(localTail := f.tail), SeeTail(s.blocks[0]), ConsumerNext(c, i).0, s');
  }

  lemma ConsumerReleases<T>(c: State<T>, s: R.State<T>, order: seq<Id>, i: Input<T>)
    returns (s': R.State<T>)
    requires Joined(c, s, order) && R.Steppable(s) && c.cons.CStFront?
    requires Ok(s.blocks[0]) && s.blocks[0].front < |s.blocks[0].log|
    ensures var (c', l) := ConsumerNext(c, i);
            Joined(c', s', order) && ConsumerMatched(s, s', i, l)
  {
    hide ProdRel;
    var f, b := c.nodes[order[0]].buf, s.blocks[0];
    Release(f, b, BuiltAt(c.prod, s.tp, 0));
    s' := R.ConsumerNext(s, i).0;
    ConsumerUpdate(c, s, order, 0, f.(front := Succ(f, f.front)), Advance(b), ConsumerNext(c, i).0, s');
  }

  lemma ConsumerPeeks<T>(c: State<T>, s: R.State<T>, order: seq<Id>, i: Input<T>)
    returns (s': R.State<T>)
    requires Joined(c, s, order) && R.Steppable(s) && c.cons.CTake? && c.cons.call.Peek?
    ensures var (c', l) := ConsumerNext(c, i);
            Joined(c', s', order) && ConsumerMatched(s, s', i, l)
  {
    hide ProdRel;
    FrontCell(c.nodes[order[0]].buf, s.blocks[0], BuiltAt(c.prod, s.tp, 0));
    s' := R.ConsumerNext(s, i).0;
    ConsumerQuiet(c, s, order, ConsumerNext(c, i).0, s');
  }

  lemma ConsumerTakes<T>(c: State<T>, s: R.State<T>, order: seq<Id>, i: Input<T>)
    returns (s': R.State<T>)
    requires Joined(c, s, order) && R.Steppable(s) && c.cons.CTake? && !c.cons.call.Peek?
    ensures var (c', l) := ConsumerNext(c, i);
            Joined(c', s', order) && ConsumerMatched(s, s', i, l)
  {
    hide ProdRel;
    var f, b := c.nodes[order[0]].buf, s.blocks[0];
    Take(f, b, BuiltAt(c.prod, s.tp, 0));
    s' := R.ConsumerNext(s, i).0;
    ConsumerUpdate(c, s, order, 0, f.(slots := f.slots[f.front := Raw]), b, ConsumerNext(c, i).0, s');
  }

  function Turn(order: seq<Id>): seq<Id>
    requires order != []
  {
    order[1..] + [order[0]]
  }

  lemma TurnLinked<T>(nodes: seq<Node<T>>, order: seq<Id>, m: nat)
    requires Linked(nodes, order, m)
    ensures Linked(nodes, Turn(order), m)
  {
    var o, n := Turn(order), |order|;
    assert forall i :: 0 <= i < n - 1 ==> o[i] == order[i + 1];
    assert o[n - 1] == order[0];
    forall i | 0 <= i < n
      ensures nodes[o[i]].next == Some(After(o, i))
    {
      var k := if i + 1 == n then 0 else i + 1;
      assert o[i] == order[k] && After(o, i) == After(order, k);
    }
  }

  lemma TurnReps<T>(c: State<T>, s: R.State<T>, order: seq<Id>, c': State<T>, s': R.State<T>)
    requires Shape(c, s, order) && 0 < s.tp && c.cons.CStFrontBlock?
    requires c' == c.(frontBlock := order[1], cons := c'.cons) && !c'.cons.CStFront?
    requires s' == s.(blocks := Rotate(s.blocks), tp := s.tp - 1, cons := s'.cons)
    requires c.prod.StSpareTail? ==> s.tp + 1 < |order|
    ensures Shape(c', s', Turn(order))
  {
    var o := Turn(order);
    TurnLinked(c.nodes, order, InRing(c));
    forall k | 0 <= k < |o|
      ensures BufRep(c'.nodes[o[k]].buf, s'.blocks[k], c'.cons.CStFront? && k == 0, BuiltAt(c'.prod, s'.tp, k))
    {
      var k' := if k + 1 == |o| then 0 else k + 1;
      assert o[k] == order[k'] && s'.blocks[k] == s.blocks[k'];
      assert BufRep(c.nodes[order[k']].buf, s.blocks[k'], false, BuiltAt(c.prod, s.tp, k'));
    }
  }

  lemma TurnProd<T>(c: State<T>, s: R.State<T>, order: seq<Id>, c': State<T>, s': R.State<T>)
    requires Shape(c, s, order) && Shape(c', s', Turn(order)) && ProdRel(c, s, order) && 0 < s.tp
    requires c' == c.(frontBlock := order[1], cons := c'.cons)
    requires s' == s.(blocks := Rotate(s.blocks), tp := s.tp - 1, cons := s'.cons)
    ensures ProdRel(c', s', Turn(order))
  {
    assert Turn(order)[s'.tp] == order[s.tp];
    assert s'.blocks[s'.tp] == s.blocks[s.tp];
  }

  lemma ConsumerHops<T>(c: State<T>, s: R.State<T>, order: seq<Id>, i: Input<T>)
    returns (s': R.State<T>)
    requires Joined(c, s, order) && R.Steppable(s) && c.cons.CStFrontBlock?
    requires c.prod.StSpareTail? ==> s.tp + 1 < |order|
    ensures var (c', l) := ConsumerNext(c, i);
            Joined(c', s', Turn(order)) && ConsumerMatched(s, s', i, l)
  {
    hide ProdRel, BufRep;
    s' := R.ConsumerNext(s, i).0;
    TurnReps(c, s, order, ConsumerNext(c, i).0, s');
    TurnProd(c, s, order, ConsumerNext(c, i).0, s');
  }

  /** What the steps below need of the ring machine's invariant. */
  lemma ConsumerFacts<T>(cfg: Config, c: State<T>, s: R.State<T>, order: seq<Id>)
    requires Rel(cfg, c, s, order)
    ensures Ok(s.blocks[0]) && c.cons != CFault
    ensures c.cons.CStFront? ==> s.blocks[0].front < |s.blocks[0].log|
    ensures c.cons.CLdNextTail? ==> 1 < |s.blocks| && Ok(s.blocks[1]) && !Drained(s.blocks[1])
    ensures c.prod.StSpareTail? ==> s.tp + 1 < |order|
  {
    hide Reps, Linked;
    if s.cons.CDrained? {
      R.NextNotDrained(cfg, s);
    }
  }

  lemma ConsumerMatches<T>(c: State<T>, s: R.State<T>, order: seq<Id>, i: Input<T>)
    returns (s': R.State<T>, order': seq<Id>)
    requires Joined(c, s, order) && R.Steppable(s) && Ok(s.blocks[0]) && c.cons != CFault
    requires c.cons.CStFront? ==> s.blocks[0].front < |s.blocks[0].log|
    requires c.cons.CLdNextTail? ==> 1 < |s.blocks| && Ok(s.blocks[1]) && !Drained(s.blocks[1])
    requires c.prod.StSpareTail? ==> s.tp + 1 < |order|
    ensures var (c', l) := ConsumerNext(c, i);
            Joined(c', s', order') && ConsumerMatched(s, s', i, l)
  {
    assert order != [];
    hide Shape, ProdRel, ConsRel, ConsumerNext, ConsumerMatched;
    order' := order;
    match c.cons
    case CIdle => s' := ConsumerOwnLoads(c, s, order, i);
    case CLdFrontBlock(_) => s' := ConsumerOwnLoads(c, s, order, i);
    case CLdFront(_, _) => s' := ConsumerComparesFront(c, s, order, i);
    case CLdTail(_, _, _) => s' := ConsumerSeesTail(c, s, order, i);
    case CTake(call, _, _) =>
      if call.Peek? { s' := ConsumerPeeks(c, s, order, i); } else { s' := ConsumerTakes(c, s, order, i); }
    case CStFront(_, _, _, _) => s' := ConsumerReleases(c, s, order, i);
    case CLdTailBlock(_, _) => s' := ConsumerComparesTailBlock(c, s, order, i);
    case CLdFrontBlockAgain(_) => s' := ConsumerOwnLoads(c, s, order, i);
    case CLdTailAgain(_, _) => s' := ConsumerSeesTailAgain(c, s, order, i);
    case CLdFrontAgain(_, _, _) => s' := ConsumerComparesFront(c, s, order, i);
    case CLdNext(_, _) => s' := ConsumerNextFront(c, s, order, i);
    case CLdNextFront(_, _) => s' := ConsumerNextFront(c, s, order, i);
    case CLdNextTail(call, _, _) =>
      if call.Peek? { s' := ConsumerPeeksNext(c, s, order, i); } else { s' := ConsumerEntersNext(c, s, order, i); }
    case CStFrontBlock(_, _, _) =>
      s' := ConsumerHops(c, s, order, i);
      order' := Turn(order);
    case CReturn(_, _) => s' := ConsumerOwnLoads(c, s, order, i);
  }

  lemma ConsumerSimulates<T>(cfg: Config, c: State<T>, s: R.State<T>, order: seq<Id>, i: Input<T>)
    returns (s': R.State<T>, order': seq<Id>)
    requires Rel(cfg, c, s, order)
    ensures var (c', l) := ConsumerNext(c, i);
            Rel(cfg, c', s', order') && ConsumerMatched(s, s', i, l)
  {
    hide Joined, ConsumerNext, R.ConsumerNext, R.StateOk, R.Steppable;
    R.ConsumerKeepsOk(cfg, s, i);
    ConsumerFacts(cfg, c, s, order);
    s', order' := ConsumerMatches(c, s, order, i);
  }

  // ---- The producer ----

  ghost predicate ProducerMatched<T>(cfg: Config, s: R.State<T>, s': R.State<T>, i: Input<T>, l: Label<T>)
    requires R.Steppable(s)
  {
    (s', l) == R.ProducerNext(cfg, s, i) || (s', l) == (s, Tau)
  }

  /** Whether a constructed element waits for its `tail` to be stored. */
  predicate Building<T>(p: Prod<T>) { p.StTail? || p.StSpareTail? }

  /** The producer changes no block. */
  lemma ProducerQuiet<T>(c: State<T>, s: R.State<T>, order: seq<Id>, c': State<T>, s': R.State<T>)
    requires Shape(c, s, order) && ConsRel(c, s, order)
    requires c' == c.(prod := c'.prod) && s' == s.(prod := s'.prod)
    requires !Building(c.prod) && !Building(c'.prod) && InRing(c') == InRing(c)
    ensures Shape(c', s', order) && ConsRel(c', s', order)
  {
  }

  lemma SpareTest<T>(f: Buf<T>, b: Blk<T>)
    requires Ok(b) && BufRep(f, b, false, None) && Drained(b) && b.localFront == b.front
    ensures f.localFront == f.tail
  {
  }

  lemma ProducerOwnLoads<T>(cfg: Config, c: State<T>, s: R.State<T>, order: seq<Id>, i: Input<T>)
    returns (s': R.State<T>)
    requires Joined(c, s, order) && R.Steppable(s) && (c.prod.PIdle? || c.prod.LdTailBlock? || c.prod.PReturn?)
    ensures var (c', l) := ProducerNext(cfg, c, i);
            Joined(c', s', order) && ProducerMatched(cfg, s, s', i, l)
  {
    hide ConsRel, BufRep;
    s' := if c.prod.LdTailBlock? then s else R.ProducerNext(cfg, s, i).0;
    ProducerQuiet(c, s, order, ProducerNext(cfg, c, i).0, s');
  }

  lemma ProducerChecksRoom<T>(cfg: Config, c: State<T>, s: R.State<T>, order: seq<Id>, i: Input<T>)
    returns (s': R.State<T>)
    requires Joined(c, s, order) && R.Steppable(s) && c.prod.LdTail?
    requires Ok(s.blocks[s.tp])
    ensures var (c', l) := ProducerNext(cfg, c, i);
            Joined(c', s', order) && ProducerMatched(cfg, s, s', i, l)
  {
    hide ConsRel, BufRep;
    RoomTests(c.nodes[order[s.tp]].buf, s.blocks[s.tp], c.cons.CStFront? && s.tp == 0, None);
    s' := if HasRoom(s.blocks[s.tp]) then R.ProducerNext(cfg, s, i).0 else s;
    ProducerQuiet(c, s, order, ProducerNext(cfg, c, i).0, s');
  }

  lemma ProducerSeesFront<T>(cfg: Config, c: State<T>, s: R.State<T>, order: seq<Id>, i: Input<T>)
    returns (s': R.State<T>)
    requires Joined(c, s, order) && R.Steppable(s) && c.prod.LdFront?
    requires Ok(s.blocks[s.tp])
    ensures var (c', l) := ProducerNext(cfg, c, i);
            Joined(c', s', order) && ProducerMatched(cfg, s, s', i, l)
  {
    hide ConsRel, BufRep;
    var f, b := c.nodes[order[s.tp]].buf, s.blocks[s.tp];
    RoomTests(f, b, c.cons.CStFront? && s.tp == 0, None);
    SeeRep(f, b, c.cons.CStFront? && s.tp == 0, None);
    s' := R.ProducerNext(cfg, s, i).0;
    ProducerUpdate(c, s, order, s.tp, f.(localFront := f.front), SeeFront(b), ProducerNext(cfg, c, i).0, s');
  }

  lemma ProducerBuilds<T>(cfg: Config, c: State<T>, s: R.State<T>, order: seq<Id>, i: Input<T>)
    returns (s': R.State<T>)
    requires Joined(c, s, order) && R.Steppable(s) && c.prod.Construct?
    requires Ok(s.blocks[s.tp])
    ensures var (c', l) := ProducerNext(cfg, c, i);
            Joined(c', s', order) && ProducerMatched(cfg, s, s', i, l)
  {
    hide ConsRel, BufRep;
    var f, b := c.nodes[order[s.tp]].buf, s.blocks[s.tp];
    Build(f, b, c.cons.CStFront? && s.tp == 0, c.prod.x);
    s' := s;
    ProducerUpdate(c, s, order, s.tp, f.(slots := f.slots[f.tail := Cell(c.prod.x)]), b, ProducerNext(cfg, c, i).0, s');
  }

  lemma ProducerStores<T>(cfg: Config, c: State<T>, s: R.State<T>, order: seq<Id>, i: Input<T>)
    returns (s': R.State<T>)
    requires Joined(c, s, order) && R.Steppable(s) && c.prod.StTail?
    requires Ok(s.blocks[s.tp]) && (c.cons.CStFront? && s.tp == 0 ==> s.blocks[0].front < |s.blocks[0].log|)
    ensures var (c', l) := ProducerNext(cfg, c, i);
            Joined(c', s', order) && ProducerMatched(cfg, s, s', i, l)
  {
    hide ConsRel, BufRep;
    var f, b := c.nodes[order[s.tp]].buf, s.blocks[s.tp];
    Publish(f, b, c.cons.CStFront? && s.tp == 0, c.prod.x);
    s' := R.ProducerNext(cfg, s, i).0;
    ProducerUpdate(c, s, order, s.tp, f.(tail := Succ(f, f.tail)), Push(b, c.prod.x), ProducerNext(cfg, c, i).0, s');
  }

  lemma ProducerLoadsNext<T>(cfg: Config, c: State<T>, s: R.State<T>, order: seq<Id>, i: Input<T>)
    returns (s': R.State<T>)
    requires Joined(c, s, order) && R.Steppable(s) && (c.prod.LdNext? || c.prod.LdNextAgain?)
    ensures var (c', l) := ProducerNext(cfg, c, i);
            Joined(c', s', order) && ProducerMatched(cfg, s, s', i, l)
  {
    hide ConsRel, BufRep;
    assert c.nodes[order[s.tp]].next == Some(After(order, s.tp));
    s' := s;
    ProducerQuiet(c, s, order, ProducerNext(cfg, c, i).0, s');
  }

  lemma ProducerComparesNext<T>(cfg: Config, c: State<T>, s: R.State<T>, order: seq<Id>, i: Input<T>)
    returns (s': R.State<T>)
    requires Joined(c, s, order) && R.Steppable(s) && c.prod.LdFrontBlock?
    ensures var (c', l) := ProducerNext(cfg, c, i);
            Joined(c', s', order) && ProducerMatched(cfg, s, s', i, l)
  {
    hide ConsRel, BufRep;
    assert c.nodes[order[s.tp]].next == Some(After(order, s.tp));
    assert s.tp + 1 < |order| ==> order[s.tp + 1] != order[0];
    s' := R.ProducerNext(cfg, s, i).0;
    ProducerQuiet(c, s, order, ProducerNext(cfg, c, i).0, s');
  }

  lemma ProducerSeesSpare<T>(cfg: Config, c: State<T>, s: R.State<T>, order: seq<Id>, i: Input<T>)
    returns (s': R.State<T>)
    requires Joined(c, s, order) && R.Steppable(s) && c.prod.LdSpareFront?
    ensures var (c', l) := ProducerNext(cfg, c, i);
            Joined(c', s', order) && ProducerMatched(cfg, s, s', i, l)
  {
    hide ConsRel, BufRep;
    var f, b := c.nodes[order[s.tp + 1]].buf, s.blocks[s.tp + 1];
    SeeRep(f, b, false, None);
    s' := R.ProducerNext(cfg, s, i).0;
    ProducerUpdate(c, s, order, s.tp + 1, f.(localFront := f.front), SeeFront(b), ProducerNext(cfg, c, i).0, s');
  }

  lemma ProducerChecksSpare<T>(cfg: Config, c: State<T>, s: R.State<T>, order: seq<Id>, i: Input<T>)
    returns (s': R.State<T>)
    requires Joined(c, s, order) && R.Steppable(s) && c.prod.LdSpareTail?
    requires Ok(s.blocks[s.tp + 1]) && Drained(s.blocks[s.tp + 1]) && s.blocks[s.tp + 1].localFront == s.blocks[s.tp + 1].front
    ensures var (c', l) := ProducerNext(cfg, c, i);
            Joined(c', s', order) && ProducerMatched(cfg, s, s', i, l)
  {
    hide ConsRel, BufRep;
    var f, b := c.nodes[order[s.tp + 1]].buf, s.blocks[s.tp + 1];
    SpareTest(f, b);
    s' := s;
    ProducerUpdate(c, s, order, s.tp + 1, f, b, ProducerNext(cfg, c, i).0, s');
  }

  lemma ProducerBuildsSpare<T>(cfg: Config, c: State<T>, s: R.State<T>, order: seq<Id>, i: Input<T>)
    returns (s': R.State<T>)
    requires Joined(c, s, order) && R.Steppable(s) && c.prod.ConstructSpare?
    requires Ok(s.blocks[s.tp + 1])
    ensures var (c', l) := ProducerNext(cfg, c, i);
            Joined(c', s', order) && ProducerMatched(cfg, s, s', i, l)
  {
    hide ConsRel, BufRep;
    var f, b := c.nodes[order[s.tp + 1]].buf, s.blocks[s.tp + 1];
    Build(f, b, false, c.prod.x);
    s' := s;
    ProducerUpdate(c, s, order, s.tp + 1, f.(slots := f.slots[f.tail := Cell(c.prod.x)]), b, ProducerNext(cfg, c, i).0, s');
  }

  lemma ProducerStoresSpare<T>(cfg: Config, c: State<T>, s: R.State<T>, order: seq<Id>, i: Input<T>)
    returns (s': R.State<T>)
    requires Joined(c, s, order) && R.Steppable(s) && c.prod.StSpareTail?
    requires Ok(s.blocks[s.tp + 1])
    ensures var (c', l) := ProducerNext(cfg, c, i);
            Joined(c', s', order) && ProducerMatched(cfg, s, s', i, l)
  {
    hide ConsRel, BufRep;
    var f, b := c.nodes[order[s.tp + 1]].buf, s.blocks[s.tp + 1];
    Publish(f, b, false, c.prod.x);
    s' := R.ProducerNext(cfg, s, i).0;
    ProducerUpdate(c, s, order, s.tp + 1, f.(tail := Succ(f, f.tail)), Push(b, c.prod.x), ProducerNext(cfg, c, i).0, s');
  }

  lemma ProducerPublishes<T>(cfg: Config, c: State<T>, s: R.State<T>, order: seq<Id>, i: Input<T>)
    returns (s': R.State<T>)
    requires Joined(c, s, order) && R.Steppable(s) && c.prod.StTailBlock?
    ensures var (c', l) := ProducerNext(cfg, c, i);
            Joined(c', s', order) && ProducerMatched(cfg, s, s', i, l)
  {
    hide ConsRel, BufRep;
    s' := R.ProducerNext(cfg, s, i).0;
    ConsFrame(c, s, order, ProducerNext(cfg, c, i).0, s', order);
  }

  // A new block: allocated and filled out of sight, then linked in behind the tail block.

  lemma NewBlockPow2(largest: nat, maxBlock: nat)
    requires IsPow2(largest) && 2 <= largest
    ensures IsPow2(R.NewBlockSize(largest, maxBlock)) && 2 <= R.NewBlockSize(largest, maxBlock)
  {
    DoubleIsPow2(largest);
  }

  /** Nodes that are not in the ring may be added or changed. */
  lemma OutsideShape<T>(c: State<T>, s: R.State<T>, order: seq<Id>, c': State<T>, s': R.State<T>)
    requires Shape(c, s, order)
    requires |c.nodes| <= |c'.nodes| && InRing(c') == InRing(c) && c'.cons == c.cons
    requires c'.frontBlock == c.frontBlock && c'.tailBlock == c.tailBlock
    requires s' == s.(prod := s'.prod, largest := s'.largest)
    requires c'.largest == s'.largest && IsPow2(c'.largest) && !Building(c.prod) && !Building(c'.prod)
    requires forall id :: 0 <= id < InRing(c) ==> c'.nodes[id] == c.nodes[id]
    ensures Shape(c', s', order)
  {
  }

  lemma ProducerFailsToAllocate<T>(cfg: Config, c: State<T>, s: R.State<T>, order: seq<Id>, i: Input<T>)
    returns (s': R.State<T>)
    requires Joined(c, s, order) && R.Steppable(s) && c.prod.Alloc? && i.NoMemory?
    ensures var (c', l) := ProducerNext(cfg, c, i);
            Joined(c', s', order) && ProducerMatched(cfg, s, s', i, l)
  {
    hide ConsRel, BufRep;
    s' := R.ProducerNext(cfg, s, i).0;
    ProducerQuiet(c, s, order, ProducerNext(cfg, c, i).0, s');
  }

  lemma ProducerAllocates<T>(cfg: Config, c: State<T>, s: R.State<T>, order: seq<Id>, i: Input<T>)
    returns (s': R.State<T>)
    requires Joined(c, s, order) && R.Steppable(s) && c.prod.Alloc? && !i.NoMemory? && 2 <= s.largest
    ensures var (c', l) := ProducerNext(cfg, c, i);
            Joined(c', s', order) && ProducerMatched(cfg, s, s', i, l)
  {
    hide BufRep;
    NewBlockPow2(s.largest, cfg.maxBlock);
    s' := R.ProducerNext(cfg, s, i).0;
    var c' := ProducerNext(cfg, c, i).0;
    FreshRep<T>(s'.largest, FreshNode<T>(s'.largest, None).buf.slots);
    NewRep(FreshNode<T>(s'.largest, None).buf, s'.largest, c.prod.x);
    OutsideShape(c, s, order, c', s');
    ConsFrame(c, s, order, c', s', order);
  }

  lemma ProducerPointsNewOn<T>(cfg: Config, c: State<T>, s: R.State<T>, order: seq<Id>, i: Input<T>)
    returns (s': R.State<T>)
    requires Joined(c, s, order) && R.Steppable(s) && c.prod.LdNextForNew?
    ensures var (c', l) := ProducerNext(cfg, c, i);
            Joined(c', s', order) && ProducerMatched(cfg, s, s', i, l)
  {
    hide BufRep;
    s' := s;
    var c' := ProducerNext(cfg, c, i).0;
    OutsideShape(c, s, order, c', s');
    ConsFrame(c, s, order, c', s', order);
  }

  function InsertId(order: seq<Id>, tp: nat, nb: Id): seq<Id>
    requires tp < |order|
  {
    order[..tp + 1] + [nb] + order[tp + 1..]
  }

  lemma InsertLinked<T>(nodes: seq<Node<T>>, order: seq<Id>, tp: nat)
    requires Linked(nodes, order, |order|) && tp < |order| < |nodes|
    requires nodes[|order|].next == nodes[order[tp]].next
    ensures Linked(nodes[order[tp] := nodes[order[tp]].(next := Some(|order|))], InsertId(order, tp, |order|), |order| + 1)
  {
    var n, t := |order|, order[tp];
    var o, nodes' := InsertId(order, tp, n), nodes[t := nodes[t].(next := Some(n))];
    assert forall i :: 0 <= i <= tp ==> o[i] == order[i];
    assert o[tp + 1] == n;
    assert forall i :: tp + 1 < i < n + 1 ==> o[i] == order[i - 1];
    forall i | 0 <= i < n + 1
      ensures nodes'[o[i]].next == Some(After(o, i))
    {
      assert nodes[t].next == Some(After(order, tp));
      if i < tp {
        assert nodes[order[i]].next == Some(After(order, i));
        assert order[i] != order[tp];
      } else if tp + 1 < i {
        assert nodes[order[i - 1]].next == Some(After(order, i - 1));
        assert order[tp] != order[i - 1];
      }
    }
  }

  lemma InsertShape<T>(c: State<T>, s: R.State<T>, order: seq<Id>, c': State<T>, s': R.State<T>, b: Blk<T>)
    requires Shape(c, s, order) && c.prod.StNext? && |c.nodes| == |order| + 1
    requires c.nodes[|order|].next == c.nodes[order[s.tp]].next && BufRep(c.nodes[|order|].buf, b, false, None)
    requires c'.nodes == c.nodes[order[s.tp] := c.nodes[order[s.tp]].(next := Some(|order|))]
    requires c' == c.(nodes := c'.nodes, prod := c'.prod) && c'.prod.StTailBlock?
    requires s' == s.(blocks := Blocks.Insert(s.blocks, s.tp, b), prod := s'.prod)
    ensures Shape(c', s', InsertId(order, s.tp, |order|))
  {
    var n, tp := |order|, s.tp;
    var o := InsertId(order, tp, n);
    InsertLinked(c.nodes, order, tp);
    forall k | 0 <= k < n + 1
      ensures BufRep(c'.nodes[o[k]].buf, s'.blocks[k], c'.cons.CStFront? && k == 0, BuiltAt(c'.prod, s'.tp, k))
    {
      if k <= tp {
        assert o[k] == order[k] && s'.blocks[k] == s.blocks[k];
        assert BufRep(c.nodes[order[k]].buf, s.blocks[k], c.cons.CStFront? && k == 0, None);
      } else if k > tp + 1 {
        assert o[k] == order[k - 1] && s'.blocks[k] == s.blocks[k - 1];
        assert BufRep(c.nodes[order[k - 1]].buf, s.blocks[k - 1], false, None);
      }
    }
  }

  lemma ProducerInserts<T>(cfg: Config, c: State<T>, s: R.State<T>, order: seq<Id>, i: Input<T>)
    returns (s': R.State<T>)
    requires Joined(c, s, order) && R.Steppable(s) && c.prod.StNext?
    requires c.cons.CLdNextFront? || c.cons.CLdNextTail? || c.cons.CStFrontBlock? ==> 0 < s.tp
    ensures var (c', l) := ProducerNext(cfg, c, i);
            Joined(c', s', InsertId(order, s.tp, |order|)) && ProducerMatched(cfg, s, s', i, l)
  {
    hide BufRep, Reps;
    s' := R.ProducerNext(cfg, s, i).0;
    var c', o := ProducerNext(cfg, c, i).0, InsertId(order, s.tp, |order|);
    InsertShape(c, s, order, c', s', s.prod.b);
    ConsFrame(c, s, order, c', s', o);
  }

  /** What the steps need of the ring machine's invariant. */
  ghost predicate ProducerNeeds<T>(c: State<T>, s: R.State<T>)
    requires s.tp < |s.blocks|
  {
    && c.prod != PFault && Ok(s.blocks[s.tp]) && 2 <= s.largest
    && (c.cons.CStFront? ==> s.blocks[0].front < |s.blocks[0].log|)
    && (c.cons.CLdNextFront? || c.cons.CLdNextTail? || c.cons.CStFrontBlock? ==> 0 < s.tp)
    && (s.tp + 1 < |s.blocks| ==> Ok(s.blocks[s.tp + 1]))
    && (s.prod.PSpareSeen? ==> s.tp + 1 < |s.blocks| && Drained(s.blocks[s.tp + 1])
                               && s.blocks[s.tp + 1].localFront == s.blocks[s.tp + 1].front)
  }

  lemma ProducerFacts<T>(cfg: Config, c: State<T>, s: R.State<T>, order: seq<Id>)
    requires Rel(cfg, c, s, order)
    ensures ProducerNeeds(c, s)
  {
    hide Reps, Linked;
  }

  lemma ProducerMatches<T>(cfg: Config, c: State<T>, s: R.State<T>, order: seq<Id>, i: Input<T>)
    returns (s': R.State<T>, order': seq<Id>)
    requires Joined(c, s, order) && R.Steppable(s) && ProducerNeeds(c, s)
    ensures var (c', l) := ProducerNext(cfg, c, i);
            Joined(c', s', order') && ProducerMatched(cfg, s, s', i, l)
  {
    hide Reps, Linked, ConsRel, ProducerNext, ProducerMatched;
    order' := order;
    match c.prod
    case PIdle => s' := ProducerOwnLoads(cfg, c, s, order, i);
    case LdTailBlock(_, _) => s' := ProducerOwnLoads(cfg, c, s, order, i);
    case LdTail(_, _, _) => s' := ProducerChecksRoom(cfg, c, s, order, i);
    case LdFront(_, _, _, _) => s' := ProducerSeesFront(cfg, c, s, order, i);
    case Construct(_, _, _) => s' := ProducerBuilds(cfg, c, s, order, i);
    case StTail(_, _, _) => s' := ProducerStores(cfg, c, s, order, i);
    case LdNext(_, _, _) => s' := ProducerLoadsNext(cfg, c, s, order, i);
    case LdFrontBlock(_, _, _, _) => s' := ProducerComparesNext(cfg, c, s, order, i);
    case LdNextAgain(_, _) => s' := ProducerLoadsNext(cfg, c, s, order, i);
    case LdSpareFront(_, _) => s' := ProducerSeesSpare(cfg, c, s, order, i);
    case LdSpareTail(_, _, _) => s' := ProducerChecksSpare(cfg, c, s, order, i);
    case ConstructSpare(_, _, _) => s' := ProducerBuildsSpare(cfg, c, s, order, i);
    case StSpareTail(_, _, _) => s' := ProducerStoresSpare(cfg, c, s, order, i);
    case StTailBlock(_, _) => s' := ProducerPublishes(cfg, c, s, order, i);
    case Alloc(_, _) =>
      if i.NoMemory? {
        s' := ProducerFailsToAllocate(cfg, c, s, order, i);
      } else {
        s' := ProducerAllocates(cfg, c, s, order, i);
      }
    case LdNextForNew(_, _, _) => s' := ProducerPointsNewOn(cfg, c, s, order, i);
    case StNext(_, _, _) =>
      s' := ProducerInserts(cfg, c, s, order, i);
      order' := InsertId(order, s.tp, |order|);
    case PReturn(_, _) => s' := ProducerOwnLoads(cfg, c, s, order, i);
  }

  lemma ProducerSimulates<T>(cfg: Config, c: State<T>, s: R.State<T>, order: seq<Id>, i: Input<T>)
    returns (s': R.State<T>, order': seq<Id>)
    requires Rel(cfg, c, s, order)
    ensures var (c', l) := ProducerNext(cfg, c, i);
            Rel(cfg, c', s', order') && ProducerMatched(cfg, s, s', i, l)
  {
    hide Joined, ProducerNext, R.ProducerNext, R.StateOk, R.Steppable, ProducerNeeds;
    R.ProducerKeepsOk(cfg, s, i);
    ProducerFacts(cfg, c, s, order);
    s', order' := ProducerMatches(cfg, c, s, order, i);
  }
}
