/** The queue as it runs: blocks linked by pointers, masked indices, raw slots, one atomic load or
    store per step.  A failed assertion, construction over a live element, a read of a raw slot or a
    bad pointer lead to `Fault`.

    Control points carry the local variables that are still needed: `tb`, `fb`, `nb` are tailBlock_,
    frontBlock_ and the next (or new) block, `bt`, `bf`, `nt`, `nf` the loaded indices.  Private
    variables (`localTail`, `localFront`, `largestBlockSize`) are accessed together with the shared
    access they stand next to. */
module HeapSteps {
  import opened Wrappers
  import opened Fifo
  import opened Slots
  import RingSteps

  type Id = nat

  datatype Node<T> = Node(buf: Buf<T>, next: Option<Id>)

  datatype Prod<T> =
    | PIdle
    | LdTailBlock(x: T, alloc: bool)                          // line 486
    | LdTail(x: T, alloc: bool, tb: Id)                       // 487-491
    | LdFront(x: T, alloc: bool, tb: Id, bt: nat)             // 491
    | Construct(x: T, tb: Id, bt: nat)                        // 494-495
    | StTail(x: T, tb: Id, bt: nat)                           // 498
    | LdNext(x: T, alloc: bool, tb: Id)                       // 502
    | LdFrontBlock(x: T, alloc: bool, tb: Id, nb: Id)         // 502
    | LdNextAgain(x: T, tb: Id)                               // 511
    | LdSpareFront(x: T, nb: Id)                              // 512
    | LdSpareTail(x: T, nb: Id, nf: nat)                      // 513-519
    | ConstructSpare(x: T, nb: Id, nt: nat)                   // 521-522
    | StSpareTail(x: T, nb: Id, nt: nat)                      // 524
    | StTailBlock(x: T, nb: Id)                               // 527, 554
    | Alloc(x: T, tb: Id)                                     // 531-542
    | LdNextForNew(x: T, tb: Id, nb: Id)                      // 544
    | StNext(x: T, tb: Id, nb: Id)                            // 545
    | PReturn(x: T, ok: bool)
    | PFault

  datatype Cons<T> =
    | CIdle
    | CLdFrontBlock(call: Call)                               // 268
    | CLdFront(call: Call, fb: Id)                            // 269-272
    | CLdTail(call: Call, fb: Id, bf: nat)                    // 272
    | CTake(call: Call, fb: Id, bf: nat)                      // 277-279, 320-323
    | CStFront(call: Call, fb: Id, bf: nat, x: T)             // 281-284, 325-328
    | CLdTailBlock(call: Call, fb: Id)                        // 286
    | CLdFrontBlockAgain(call: Call)                          // 289
    | CLdTailAgain(call: Call, fb: Id)                        // 290
    | CLdFrontAgain(call: Call, fb: Id, bt: nat)              // 291-294
    | CLdNext(call: Call, fb: Id)                             // 300
    | CLdNextFront(call: Call, nb: Id)                        // 305
    | CLdNextTail(call: Call, nb: Id, nf: nat)                // 306-311
    | CStFrontBlock(call: Call, nb: Id, nf: nat)              // 316
    | CReturn(call: Call, reply: Option<T>)
    | CFault

  datatype State<T> = State(nodes: seq<Node<T>>, frontBlock: Id, tailBlock: Id, largest: nat,
                            prod: Prod<T>, cons: Cons<T>)

  type Input<T> = RingSteps.Input<T>
  type Config = RingSteps.Config

  function FreshNode<T>(size: nat, next: Option<Id>): Node<T>
    requires 0 < size
  {
    Node(Buf(size - 1, 0, 0, 0, 0, seq(size, _ => Raw)), next)
  }

  /** What the constructor leaves (lines 80-137). */
  function Start<T>(cfg: Config): State<T>
    requires 0 < cfg.size && 0 < cfg.count
  {
    State(seq(cfg.count, i requires 0 <= i < cfg.count =>
                FreshNode<T>(cfg.size, Some(if i + 1 == cfg.count then 0 else i + 1))),
          0, 0, cfg.size, PIdle, CIdle)
  }

  function SetBuf<T>(nodes: seq<Node<T>>, id: Id, f: Buf<T>): seq<Node<T>>
    requires id < |nodes|
  {
    nodes[id := nodes[id].(buf := f)]
  }

  // ---- The producer ----

  /** The block that the next access of the producer goes through. */
  function ProdBlock<T>(p: Prod<T>): Option<Id> {
    match p
    case LdTail(_, _, tb) => Some(tb)
    case LdFront(_, _, tb, _) => Some(tb)
    case Construct(_, tb, _) => Some(tb)
    case StTail(_, tb, _) => Some(tb)
    case LdNext(_, _, tb) => Some(tb)
    case LdNextAgain(_, tb) => Some(tb)
    case LdSpareFront(_, nb) => Some(nb)
    case LdSpareTail(_, nb, _) => Some(nb)
    case ConstructSpare(_, nb, _) => Some(nb)
    case StSpareTail(_, nb, _) => Some(nb)
    case LdNextForNew(_, tb, _) => Some(tb)
    case StNext(_, tb, _) => Some(tb)
    case _ => None
  }

  function ProducerNext<T>(cfg: Config, c: State<T>, i: Input<T>): (State<T>, Label<T>) {
    var at := ProdBlock(c.prod);
    match at
    case None => ProducerFree(cfg, c, i)
    case Some(id) => if id < |c.nodes| then (ProducerAt(c, id), Tau) else (c.(prod := PFault), Tau)
  }

  /** Steps that go through no block. */
  function ProducerFree<T>(cfg: Config, c: State<T>, i: Input<T>): (State<T>, Label<T>) {
    match c.prod
    case PIdle =>
      if i.Enqueue? then (c.(prod := LdTailBlock(i.x, i.alloc)), CallEnq(i.x)) else (c, Tau)
    case LdTailBlock(x, alloc) => (c.(prod := LdTail(x, alloc, c.tailBlock)), Tau)
    case LdFrontBlock(x, alloc, tb, nb) =>
      (c.(prod := if nb != c.frontBlock then LdNextAgain(x, tb)
                  else if alloc then Alloc(x, tb)
                  else PReturn(x, false)), Tau)
    case StTailBlock(x, nb) => (c.(tailBlock := nb, prod := PReturn(x, true)), Tau)
    case Alloc(x, tb) =>
      if i.NoMemory? then (c.(prod := PReturn(x, false)), Tau)
      else
        var size := RingSteps.NewBlockSize(c.largest, cfg.maxBlock);
        if size < 2 then (c.(prod := PFault), Tau)
        else
          var node := FreshNode<T>(size, None);
          var buf := node.buf.(slots := node.buf.slots[0 := Cell(x)], tail := 1, localTail := 1);
          (c.(nodes := c.nodes + [node.(buf := buf)], largest := size, prod := LdNextForNew(x, tb, |c.nodes|)), Tau)
    case PReturn(x, ok) => (c.(prod := PIdle), RetEnq(x, ok))
    case _ => (c.(prod := PFault), Tau)
  }

  /** Steps that load or store a field, or construct a slot, of block `id`. */
  function ProducerAt<T>(c: State<T>, id: Id): State<T>
    requires id < |c.nodes|
  {
    var f := c.nodes[id].buf;
    match c.prod
    case LdTail(x, alloc, tb) =>
      c.(prod := if Succ(f, f.tail) != f.localFront then Construct(x, tb, f.tail) else LdFront(x, alloc, tb, f.tail))
    case LdFront(x, alloc, tb, bt) =>
      c.(nodes := SetBuf(c.nodes, id, f.(localFront := f.front)),
         prod := if Succ(f, bt) != f.front then Construct(x, tb, bt) else LdNext(x, alloc, tb))
    case Construct(x, tb, bt) =>
      if bt < |f.slots| && f.slots[bt].Raw?
      then c.(nodes := SetBuf(c.nodes, id, f.(slots := f.slots[bt := Cell(x)])), prod := StTail(x, tb, bt))
      else c.(prod := PFault)
    case StTail(x, tb, bt) =>
      c.(nodes := SetBuf(c.nodes, id, f.(tail := Succ(f, bt))), prod := PReturn(x, true))
    case LdNext(x, alloc, tb) =>
      (match c.nodes[id].next
       case None => c.(prod := PFault)
       case Some(nb) => c.(prod := LdFrontBlock(x, alloc, tb, nb)))
    case LdNextAgain(x, tb) =>
      (match c.nodes[id].next
       case None => c.(prod := PFault)
       case Some(nb) => c.(prod := LdSpareFront(x, nb)))
    case LdSpareFront(x, nb) =>
      c.(nodes := SetBuf(c.nodes, id, f.(localFront := f.front)), prod := LdSpareTail(x, nb, f.front))
    case LdSpareTail(x, nb, nf) =>
      if nf == f.tail  // the assertion of line 518
      then c.(nodes := SetBuf(c.nodes, id, f.(localFront := nf)), prod := ConstructSpare(x, nb, f.tail))
      else c.(prod := PFault)
    case ConstructSpare(x, nb, nt) =>
      if nt < |f.slots| && f.slots[nt].Raw?
      then c.(nodes := SetBuf(c.nodes, id, f.(slots := f.slots[nt := Cell(x)])), prod := StSpareTail(x, nb, nt))
      else c.(prod := PFault)
    case StSpareTail(x, nb, nt) =>
      c.(nodes := SetBuf(c.nodes, id, f.(tail := Succ(f, nt))), prod := StTailBlock(x, nb))
    case LdNextForNew(x, tb, nb) =>
      if nb < |c.nodes|
      then c.(nodes := c.nodes[nb := c.nodes[nb].(next := c.nodes[id].next)], prod := StNext(x, tb, nb))
      else c.(prod := PFault)
    case StNext(x, tb, nb) =>
      c.(nodes := c.nodes[id := c.nodes[id].(next := Some(nb))], prod := StTailBlock(x, nb))
    case _ => c.(prod := PFault)
  }

  // ---- The consumer ----

  function ConsBlock<T>(k: Cons<T>): Option<Id> {
    match k
    case CLdFront(_, fb) => Some(fb)
    case CLdTail(_, fb, _) => Some(fb)
    case CTake(_, fb, _) => Some(fb)
    case CStFront(_, fb, _, _) => Some(fb)
    case CLdTailAgain(_, fb) => Some(fb)
    case CLdFrontAgain(_, fb, _) => Some(fb)
    case CLdNext(_, fb) => Some(fb)
    case CLdNextFront(_, nb) => Some(nb)
    case CLdNextTail(_, nb, _) => Some(nb)
    case _ => None
  }

  function ConsumerNext<T>(c: State<T>, i: Input<T>): (State<T>, Label<T>) {
    var at := ConsBlock(c.cons);
    match at
    case None => ConsumerFree(c, i)
    case Some(id) => if id < |c.nodes| then (ConsumerAt(c, id), Tau) else (c.(cons := CFault), Tau)
  }

  function ConsumerFree<T>(c: State<T>, i: Input<T>): (State<T>, Label<T>) {
    match c.cons
    case CIdle =>
      if i.Dequeue? then (c.(cons := CLdFrontBlock(i.call)), CallDeq(i.call)) else (c, Tau)
    case CLdFrontBlock(call) => (c.(cons := CLdFront(call, c.frontBlock)), Tau)
    case CLdTailBlock(call, fb) =>
      (c.(cons := if fb != c.tailBlock then CLdFrontBlockAgain(call) else CReturn(call, None)), Tau)
    case CLdFrontBlockAgain(call) => (c.(cons := CLdTailAgain(call, c.frontBlock)), Tau)
    case CStFrontBlock(call, nb, nf) => (c.(frontBlock := nb, cons := CTake(call, nb, nf)), Tau)
    case CReturn(call, reply) => (c.(cons := CIdle), RetDeq(call, reply))
    case _ => (c.(cons := CFault), Tau)
  }

  function ConsumerAt<T>(c: State<T>, id: Id): State<T>
    requires id < |c.nodes|
  {
    var f := c.nodes[id].buf;
    match c.cons
    case CLdFront(call, fb) =>
      c.(cons := if f.front != f.localTail then CTake(call, fb, f.front) else CLdTail(call, fb, f.front))
    case CLdTail(call, fb, bf) =>
      c.(nodes := SetBuf(c.nodes, id, f.(localTail := f.tail)),
         cons := if bf != f.tail then CTake(call, fb, bf) else CLdTailBlock(call, fb))
    case CTake(call, fb, bf) =>
      if bf < |f.slots| && f.slots[bf].Cell? then
        if call.Peek? then c.(cons := CReturn(call, Some(f.slots[bf].x)))
        else c.(nodes := SetBuf(c.nodes, id, f.(slots := f.slots[bf := Raw])),
                cons := CStFront(call, fb, bf, f.slots[bf].x))
      else c.(cons := CFault)
    case CStFront(call, fb, bf, x) =>
      c.(nodes := SetBuf(c.nodes, id, f.(front := Succ(f, bf))), cons := CReturn(call, Some(x)))
    case CLdTailAgain(call, fb) =>
      c.(nodes := SetBuf(c.nodes, id, f.(localTail := f.tail)), cons := CLdFrontAgain(call, fb, f.tail))
    case CLdFrontAgain(call, fb, bt) =>
      c.(cons := if f.front != bt then CTake(call, fb, f.front) else CLdNext(call, fb))
    case CLdNext(call, fb) =>
      (match c.nodes[id].next
       case None => c.(cons := CFault)
       case Some(nb) => c.(cons := CLdNextFront(call, nb)))
    case CLdNextFront(call, nb) => c.(cons := CLdNextTail(call, nb, f.front))
    case CLdNextTail(call, nb, nf) =>
      if nf == f.tail then c.(cons := CFault)  // the assertions of lines 311 and 376
      else if call.Peek? then
        if nf < |f.slots| && f.slots[nf].Cell? then c.(cons := CReturn(call, Some(f.slots[nf].x)))
        else c.(cons := CFault)
      else c.(nodes := SetBuf(c.nodes, id, f.(localTail := f.tail)), cons := CStFrontBlock(call, nb, nf))
    case _ => c.(cons := CFault)
  }
}
