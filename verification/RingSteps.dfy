/** One producer and one consumer on the ring of blocks, every interleaving of their accesses to
    shared variables.  A step reads or writes at most one variable of the other side's; accesses to
    variables that only the thread itself writes are folded into the step they belong to (`HeapSteps`
    gives each load and store a step of its own and refines this machine).

    The producer's control points, with the lines of TrapHandler/readerwriterqueue.h they stand at:
    PCheck 486-491, PRoom 494-498, PNoRoom 502, PSpare 511-512, PSpareSeen 513-524, PWritten 527 and
    554, PAlloc 531-537, PLink 539-545.  The consumer's: CCheck 268-272, CEmpty 286, CAhead 289-294,
    CDrained 300-306, CHop 316, CTake 277-279, CTaken 281-284. */
module RingSteps {
  import opened Wrappers
  import opened Fifo
  import opened Blocks

  datatype Prod<T> =
    | PIdle
    | PCheck(x: T, alloc: bool)
    | PRoom(x: T)
    | PNoRoom(x: T, alloc: bool)
    | PSpare(x: T)
    | PSpareSeen(x: T)
    | PWritten(x: T)
    | PAlloc(x: T)
    | PLink(x: T, b: Blk<T>)
    | PReturn(x: T, ok: bool)

  datatype Cons<T> =
    | CIdle
    | CCheck(call: Call)
    | CEmpty(call: Call)
    | CAhead(call: Call)
    | CDrained(call: Call)
    | CHop(call: Call)
    | CTake(call: Call)
    | CTaken(call: Call, x: T)
    | CReturn(call: Call, reply: Option<T>)

  datatype State<T> = State(blocks: seq<Blk<T>>, tp: nat, largest: nat, prod: Prod<T>, cons: Cons<T>)

  /** What a thread's next step may depend on besides the state. */
  datatype Input<T> = Go | Enqueue(x: T, alloc: bool) | NoMemory | Dequeue(call: Call)

  /** A queue built for `cap` elements starts as `count` blocks of `size` slots. */
  datatype Config = Config(cap: nat, maxBlock: nat, count: nat, size: nat)

  ghost predicate ValidConfig(cfg: Config) {
    && 1 <= cfg.cap && 2 <= cfg.maxBlock && 1 <= cfg.count && 2 <= cfg.size
    && (cfg.count == 1 ==> cfg.cap <= cfg.size - 1)
    && (cfg.count > 1 ==> cfg.cap <= (cfg.count - 1) * (cfg.size - 1))
  }

  function Start<T>(cfg: Config): State<T> {
    State(seq(cfg.count, i => Fresh<T>(cfg.size)), 0, cfg.size, PIdle, CIdle)
  }

  function NewBlockSize(largest: nat, maxBlock: nat): nat {
    if largest >= maxBlock then largest else largest * 2
  }

  /** What the steps dereference exists. */
  ghost predicate Steppable<T>(s: State<T>) {
    && s.tp < |s.blocks|
    && (s.prod.PSpare? || s.prod.PSpareSeen? || s.prod.PWritten? ==> s.tp + 1 < |s.blocks|)
    && (s.cons.CDrained? || s.cons.CHop? ==> 0 < s.tp)
    && (s.cons.CDrained? && s.cons.call.Peek? ==> s.blocks[1].front < |s.blocks[1].log|)
    && (s.cons.CTake? ==> s.blocks[0].front < |s.blocks[0].log|)
  }

  // ---- The producer ----

  ghost function ProducerNext<T>(cfg: Config, s: State<T>, i: Input<T>): (State<T>, Label<T>)
    requires Steppable(s)
  {
    match s.prod
    case PIdle =>
      if i.Enqueue? then (s.(prod := PCheck(i.x, i.alloc)), CallEnq(i.x)) else (s, Tau)
    case PCheck(x, alloc) =>
      var b := s.blocks[s.tp];
      if HasRoom(b) then (s.(prod := PRoom(x)), Tau)
      else
        var b' := SeeFront(b);
        (s.(blocks := s.blocks[s.tp := b'], prod := if HasRoom(b') then PRoom(x) else PNoRoom(x, alloc)), Tau)
    case PRoom(x) =>
      (s.(blocks := s.blocks[s.tp := Push(s.blocks[s.tp], x)], prod := PReturn(x, true)), Tau)
    case PNoRoom(x, alloc) =>
      (s.(prod := if s.tp + 1 < |s.blocks| then PSpare(x) else if alloc then PAlloc(x) else PReturn(x, false)), Tau)
    case PSpare(x) =>
      (s.(blocks := s.blocks[s.tp + 1 := SeeFront(s.blocks[s.tp + 1])], prod := PSpareSeen(x)), Tau)
    case PSpareSeen(x) =>
      (s.(blocks := s.blocks[s.tp + 1 := Push(s.blocks[s.tp + 1], x)], prod := PWritten(x)), Tau)
    case PWritten(x) =>
      (s.(tp := s.tp + 1, prod := PReturn(x, true)), Tau)
    case PAlloc(x) =>
      if i.NoMemory? then (s.(prod := PReturn(x, false)), Tau)
      else
        var size := NewBlockSize(s.largest, cfg.maxBlock);
        (s.(largest := size, prod := PLink(x, Blk(size, 0, 1, 0, [x]))), Tau)
    case PLink(x, b) =>
      (s.(blocks := Insert(s.blocks, s.tp, b), prod := PWritten(x)), Tau)
    case PReturn(x, ok) =>
      (s.(prod := PIdle), RetEnq(x, ok))
  }

  // ---- The consumer ----

  ghost function ConsumerNext<T>(s: State<T>, i: Input<T>): (State<T>, Label<T>)
    requires Steppable(s)
  {
    var b := s.blocks[0];
    match s.cons
    case CIdle =>
      if i.Dequeue? then (s.(cons := CCheck(i.call)), CallDeq(i.call)) else (s, Tau)
    case CCheck(call) =>
      if b.front != b.localTail then (s.(cons := CTake(call)), Tau)
      else (s.(blocks := s.blocks[0 := SeeTail(b)], cons := if Drained(b) then CEmpty(call) else CTake(call)), Tau)
    case CEmpty(call) =>
      (s.(cons := if s.tp == 0 then CReturn(call, None) else CAhead(call)), Tau)
    case CAhead(call) =>
      (s.(blocks := s.blocks[0 := SeeTail(b)], cons := if Drained(b) then CDrained(call) else CTake(call)), Tau)
    case CDrained(call) =>
      var next := s.blocks[1];
      if call.Peek? then (s.(cons := CReturn(call, Some(next.log[next.front]))), Tau)
      else (s.(blocks := s.blocks[1 := SeeTail(next)], cons := CHop(call)), Tau)
    case CHop(call) =>
      (s.(blocks := Rotate(s.blocks), tp := s.tp - 1, cons := CTake(call)), Tau)
    case CTake(call) =>
      var x := b.log[b.front];
      (s.(cons := if call.Peek? then CReturn(call, Some(x)) else CTaken(call, x)), Tau)
    case CTaken(call, x) =>
      (s.(blocks := s.blocks[0 := Advance(b)], cons := CReturn(call, Some(x))), Tau)
    case CReturn(call, reply) =>
      (s.(cons := CIdle), RetDeq(call, reply))
  }

  // ---- The invariant ----

  /** The producer found its tail block full and is on the way to another block. */
  predicate MovingOn<T>(p: Prod<T>) {
    p.PNoRoom? || p.PSpare? || p.PSpareSeen? || p.PWritten? || p.PAlloc? || p.PLink?
  }

  ghost predicate ProducerOk<T>(cfg: Config, s: State<T>)
    requires s.tp < |s.blocks|
  {
    && (s.prod.PRoom? ==> HasRoom(s.blocks[s.tp]))
    && (MovingOn(s.prod) && 0 < s.tp ==> Full(s.blocks[s.tp]))
    && (s.prod.PSpare? || s.prod.PSpareSeen? || s.prod.PWritten? ==> s.tp + 1 < |s.blocks|)
    && (s.prod.PSpareSeen? ==> s.blocks[s.tp + 1].localFront == s.blocks[s.tp + 1].front)
    && (s.prod.PWritten? ==> s.blocks[s.tp + 1].front < |s.blocks[s.tp + 1].log|
                             && s.blocks[s.tp + 1].log[s.blocks[s.tp + 1].front] == s.prod.x)
    && (s.prod.PLink? ==> cfg.size <= s.prod.b.size && s.prod.b == Blk(s.prod.b.size, 0, 1, 0, [s.prod.x]))
  }

  ghost predicate ConsumerOk<T>(s: State<T>)
    requires s.tp < |s.blocks|
  {
    var b := s.blocks[0];
    && (s.cons.CAhead? || s.cons.CDrained? || s.cons.CHop? ==> 0 < s.tp)
    && (s.cons.CDrained? || s.cons.CHop? ==> Drained(b))
    && (s.cons.CTake? || s.cons.CTaken? ==> b.front < b.localTail <= |b.log|)
    && (s.cons.CTaken? ==> !s.cons.call.Peek? && s.cons.x == b.log[b.front])
    && (s.cons.CHop? ==> !s.cons.call.Peek? && s.blocks[1].front < s.blocks[1].localTail)
  }

  ghost predicate SizesOk<T>(cfg: Config, s: State<T>) {
    && ValidConfig(cfg)
    && cfg.count <= |s.blocks|
    && cfg.size <= s.largest
    && (forall i :: 0 <= i < |s.blocks| ==> cfg.size <= s.blocks[i].size)
  }

  ghost predicate StateOk<T>(cfg: Config, s: State<T>) {
    && Steppable(s)
    && SizesOk(cfg, s)
    && RingOk(s.blocks, s.tp)
    && SpareOk(s.blocks, s.tp, s.prod.PWritten?)
    && ProducerOk(cfg, s)
    && ConsumerOk(s)
  }

  lemma StartOk<T>(cfg: Config)
    requires ValidConfig(cfg)
    ensures StateOk(cfg, Start<T>(cfg))
  {
  }

  lemma LinkKeepsOk<T>(cfg: Config, s: State<T>, i: Input<T>)
    requires StateOk(cfg, s) && s.prod.PLink?
    ensures StateOk(cfg, ProducerNext(cfg, s, i).0)
  {
    var bs, tp := s.blocks, s.tp;
    var bs' := Insert(bs, tp, s.prod.b);
    assert forall k :: 0 <= k <= tp ==> bs'[k] == bs[k];
    assert bs'[tp + 1] == s.prod.b;
    assert forall k :: tp + 1 < k < |bs'| ==> bs'[k] == bs[k - 1];
  }

  lemma SpareKeepsOk<T>(cfg: Config, s: State<T>, i: Input<T>)
    requires StateOk(cfg, s) && (s.prod.PSpare? || s.prod.PSpareSeen?)
    ensures StateOk(cfg, ProducerNext(cfg, s, i).0)
  {
    assert Drained(s.blocks[s.tp + 1]);
  }

  lemma SeeFrontKeepsOk<T>(cfg: Config, s: State<T>, i: Input<T>)
    requires StateOk(cfg, s) && s.prod.PCheck?
    ensures StateOk(cfg, ProducerNext(cfg, s, i).0)
  {
  }

  lemma WriteKeepsOk<T>(cfg: Config, s: State<T>, i: Input<T>)
    requires StateOk(cfg, s) && s.prod.PRoom?
    ensures StateOk(cfg, ProducerNext(cfg, s, i).0)
  {
  }

  lemma MoveOnKeepsOk<T>(cfg: Config, s: State<T>, i: Input<T>)
    requires StateOk(cfg, s) && (s.prod.PNoRoom? || s.prod.PWritten? || s.prod.PAlloc?)
    ensures StateOk(cfg, ProducerNext(cfg, s, i).0)
  {
  }

  lemma CallKeepsOk<T>(cfg: Config, s: State<T>, i: Input<T>)
    requires StateOk(cfg, s) && (s.prod.PIdle? || s.prod.PReturn?)
    ensures StateOk(cfg, ProducerNext(cfg, s, i).0)
  {
  }

  lemma ProducerKeepsOk<T>(cfg: Config, s: State<T>, i: Input<T>)
    requires StateOk(cfg, s)
    ensures Steppable(s) && StateOk(cfg, ProducerNext(cfg, s, i).0)
  {
    assert Steppable(s);
    hide *;
    match s.prod
    case PCheck(_, _) => SeeFrontKeepsOk(cfg, s, i);
    case PRoom(_) => WriteKeepsOk(cfg, s, i);
    case PSpare(_) => SpareKeepsOk(cfg, s, i);
    case PSpareSeen(_) => SpareKeepsOk(cfg, s, i);
    case PLink(_, _) => LinkKeepsOk(cfg, s, i);
    case PNoRoom(_, _) => MoveOnKeepsOk(cfg, s, i);
    case PWritten(_) => MoveOnKeepsOk(cfg, s, i);
    case PAlloc(_) => MoveOnKeepsOk(cfg, s, i);
    case PIdle => CallKeepsOk(cfg, s, i);
    case PReturn(_, _) => CallKeepsOk(cfg, s, i);
  }

  lemma HopKeepsOk<T>(cfg: Config, s: State<T>, i: Input<T>)
    requires StateOk(cfg, s) && s.cons.CHop?
    ensures StateOk(cfg, ConsumerNext(s, i).0)
  {
    var bs' := Rotate(s.blocks);
    assert forall k :: 0 <= k < |bs'| - 1 ==> bs'[k] == s.blocks[k + 1];
    assert bs'[|bs'| - 1] == s.blocks[0];
  }

  lemma CheckKeepsOk<T>(cfg: Config, s: State<T>, i: Input<T>)
    requires StateOk(cfg, s) && s.cons.CCheck?
    ensures StateOk(cfg, ConsumerNext(s, i).0)
  {
  }

  lemma AheadKeepsOk<T>(cfg: Config, s: State<T>, i: Input<T>)
    requires StateOk(cfg, s) && s.cons.CAhead?
    ensures StateOk(cfg, ConsumerNext(s, i).0)
  {
    assert s.tp == 1 || Full(s.blocks[1]);
  }

  /** The assertion that the next block is not empty holds whenever the consumer gets there. */
  lemma NextNotDrained<T>(cfg: Config, s: State<T>)
    requires StateOk(cfg, s) && s.cons.CDrained?
    ensures 1 < |s.blocks| && !Drained(s.blocks[1])
  {
    assert s.tp == 1 || Full(s.blocks[1]);
  }

  lemma DrainedKeepsOk<T>(cfg: Config, s: State<T>, i: Input<T>)
    requires StateOk(cfg, s) && s.cons.CDrained?
    ensures StateOk(cfg, ConsumerNext(s, i).0)
  {
    NextNotDrained(cfg, s);
    var s' := ConsumerNext(s, i).0;
    assert forall k :: 0 <= k < |s.blocks| && k != 1 ==> s'.blocks[k] == s.blocks[k];
    assert s'.blocks[1].log == s.blocks[1].log && s'.blocks[1].front == s.blocks[1].front;
  }

  lemma TakenKeepsOk<T>(cfg: Config, s: State<T>, i: Input<T>)
    requires StateOk(cfg, s) && s.cons.CTaken?
    ensures StateOk(cfg, ConsumerNext(s, i).0)
  {
  }

  lemma LocalKeepsOk<T>(cfg: Config, s: State<T>, i: Input<T>)
    requires StateOk(cfg, s) && (s.cons.CIdle? || s.cons.CEmpty? || s.cons.CTake? || s.cons.CReturn?)
    ensures StateOk(cfg, ConsumerNext(s, i).0)
  {
  }

  lemma ConsumerKeepsOk<T>(cfg: Config, s: State<T>, i: Input<T>)
    requires StateOk(cfg, s)
    ensures Steppable(s) && StateOk(cfg, ConsumerNext(s, i).0)
  {
    assert Steppable(s);
    hide *;
    match s.cons
    case CHop(_) => HopKeepsOk(cfg, s, i);
    case CDrained(_) => DrainedKeepsOk(cfg, s, i);
    case CTaken(_, _) => TakenKeepsOk(cfg, s, i);
    case CCheck(_) => CheckKeepsOk(cfg, s, i);
    case CAhead(_) => AheadKeepsOk(cfg, s, i);
    case CIdle => LocalKeepsOk(cfg, s, i);
    case CEmpty(_) => LocalKeepsOk(cfg, s, i);
    case CTake(_) => LocalKeepsOk(cfg, s, i);
    case CReturn(_, _) => LocalKeepsOk(cfg, s, i);
  }
}
