/** When the queue may grow, by how much, and what an enqueue that may not allocate does: over every
    schedule, in terms of the calls and of the memory. */
module Growth {
  import opened Fifo
  import opened HeapSteps
  import QueueTheorems
  import Runs
  import R = RingSteps
  import opened Wrappers

  type Schedule<T> = seq<Runs.Move<T>>

  predicate Sized(cfg: Config) { 0 < cfg.size && 0 < cfg.count }

  /** Whether the latest enqueue was called as `enqueue` (it may allocate) or as `try_enqueue`. */
  function MayAllocate<T>(cfg: Config, sched: Schedule<T>): bool
    requires Sized(cfg)
  {
    if sched == [] then false
    else if Runs.LastLabel(cfg, sched).CallEnq? then sched[|sched| - 1].i.Enqueue? && sched[|sched| - 1].i.alloc
    else MayAllocate(cfg, sched[..|sched| - 1])
  }

  /** Since the latest enqueue was called, an allocation of its has failed. */
  predicate MemoryFailed<T>(cfg: Config, sched: Schedule<T>)
    requires Sized(cfg)
  {
    sched != [] && !Runs.LastLabel(cfg, sched).CallEnq? &&
    var before := sched[..|sched| - 1];
    (sched[|sched| - 1] == Runs.ByProducer(R.NoMemory) && Runs.Reach(cfg, before).prod.Alloc?) || MemoryFailed(cfg, before)
  }

  /** The number of blocks when the latest enqueue was called. */
  function BlocksAtCall<T>(cfg: Config, sched: Schedule<T>): nat
    requires Sized(cfg)
  {
    if sched == [] then 0
    else if Runs.LastLabel(cfg, sched).CallEnq? then |Runs.Reach(cfg, sched).nodes|
    else BlocksAtCall(cfg, sched[..|sched| - 1])
  }

  /** What a control point says about the leave to allocate. */
  function Leave<T>(p: Prod<T>): Option<bool> {
    match p
    case LdTailBlock(_, alloc) => Some(alloc)
    case LdTail(_, alloc, _) => Some(alloc)
    case LdFront(_, alloc, _, _) => Some(alloc)
    case LdNext(_, alloc, _) => Some(alloc)
    case LdFrontBlock(_, alloc, _, _) => Some(alloc)
    case Alloc(_, _) => Some(true)
    case LdNextForNew(_, _, _) => Some(true)
    case StNext(_, _, _) => Some(true)
    case _ => None
  }

  /** The new block has been made and is not linked in yet. */
  predicate HasNewBlock<T>(p: Prod<T>) { p.LdNextForNew? || p.StNext? }

  /** One enqueue, `blocks` being the number of blocks when it was called. */
  predicate CallOk<T>(c: State<T>, may: bool, failed: bool, blocks: nat) {
    c.prod.PIdle? || c.prod.PFault? ||
    (&& (Leave(c.prod).Some? ==> Leave(c.prod).value == may)
     && (c.prod.PReturn? && !c.prod.ok ==> !may || failed)
     && (failed ==> c.prod.PReturn? && !c.prod.ok)
     && (if |c.nodes| == blocks + 1 then may && (HasNewBlock(c.prod) || c.prod.StTailBlock? || (c.prod.PReturn? && c.prod.ok))
         else |c.nodes| == blocks && !HasNewBlock(c.prod)))
  }

  function SizeOf<T>(c: State<T>, i: nat): nat
    requires i < |c.nodes|
  {
    |c.nodes[i].buf.slots|
  }

  /** The first blocks have the planned size; each later one doubles the one made before it, up to the first
      size that has reached `maxBlock`. */
  predicate Doubling<T>(cfg: Config, c: State<T>) {
    && 0 < cfg.count <= |c.nodes|
    && c.largest == SizeOf(c, |c.nodes| - 1)
    && (forall i :: 0 <= i < cfg.count ==> SizeOf(c, i) == cfg.size)
    && (forall i :: cfg.count <= i < |c.nodes| ==>
          SizeOf(c, i) == if SizeOf(c, i - 1) >= cfg.maxBlock then SizeOf(c, i - 1) else 2 * SizeOf(c, i - 1))
  }

  // ---- One move ----

  predicate SameBlocks<T>(c: State<T>, c': State<T>) {
    && |c'.nodes| == |c.nodes| && c'.largest == c.largest
    && forall i :: 0 <= i < |c.nodes| ==> SizeOf(c', i) == SizeOf(c, i)
  }

  predicate OneMoreBlock<T>(cfg: Config, c: State<T>, c': State<T>) {
    && |c'.nodes| == |c.nodes| + 1
    && c'.largest == (if c.largest >= cfg.maxBlock then c.largest else 2 * c.largest)
    && SizeOf(c', |c.nodes|) == c'.largest
    && forall i :: 0 <= i < |c.nodes| ==> SizeOf(c', i) == SizeOf(c, i)
  }

  lemma FreeMove<T>(cfg: Config, c: State<T>, i: Input<T>)
    ensures var c' := ProducerFree(cfg, c, i).0;
            if c.prod.Alloc? && !i.NoMemory? && !c'.prod.PFault? then OneMoreBlock(cfg, c, c') else SameBlocks(c, c')
  {
  }

  lemma AtMove<T>(c: State<T>, id: Id)
    requires id < |c.nodes|
    ensures SameBlocks(c, ProducerAt(c, id))
  {
  }

  /** Only an allocation changes the number of blocks or a block's size. */
  lemma ProducerBlocks<T>(cfg: Config, c: State<T>, i: Input<T>)
    ensures var c' := HeapSteps.ProducerNext(cfg, c, i).0;
            if c.prod.Alloc? && !i.NoMemory? && !c'.prod.PFault? then OneMoreBlock(cfg, c, c') else SameBlocks(c, c')
  {
    hide ProducerFree, ProducerAt, SameBlocks, OneMoreBlock;
    FreeMove(cfg, c, i);
    if ProdBlock(c.prod).Some? && ProdBlock(c.prod).value < |c.nodes| {
      AtMove(c, ProdBlock(c.prod).value);
    } else if ProdBlock(c.prod).Some? {
      StillSame(c);
    }
  }

  lemma StillSame<T>(c: State<T>)
    ensures SameBlocks(c, c.(prod := PFault))
  {
  }

  lemma ConsumerBlocks<T>(c: State<T>, i: Input<T>)
    ensures var (c', l) := HeapSteps.ConsumerNext(c, i);
            SameBlocks(c, c') && c'.prod == c.prod && !l.CallEnq?
  {
  }

  /** How the leave to allocate travels through a call. */
  predicate LeaveKept<T>(c: State<T>, i: Input<T>, c': State<T>, l: Label<T>) {
    && (l.CallEnq? <==> c.prod.PIdle? && i.Enqueue?)
    && (l.CallEnq? ==> Leave(c'.prod) == Some(i.alloc) && !HasNewBlock(c'.prod) && !c'.prod.PReturn?)
    && (c.prod.PIdle? && !i.Enqueue? ==> c'.prod.PIdle?)
    && (c.prod.PReturn? ==> c'.prod.PIdle?) && (c.prod.PFault? ==> c'.prod.PFault?)
    && (!c.prod.PIdle? && Leave(c'.prod).Some? ==> Leave(c.prod) == Leave(c'.prod))
    && (!c.prod.PIdle? && c'.prod.PReturn? && !c'.prod.ok ==>
          (Leave(c.prod) == Some(false) && !c.prod.Alloc?) || (c.prod.Alloc? && i.NoMemory?))
    && (HasNewBlock(c'.prod) ==> HasNewBlock(c.prod) || (c.prod.Alloc? && !i.NoMemory?))
    && (HasNewBlock(c.prod) ==> HasNewBlock(c'.prod) || c'.prod.StTailBlock? || c'.prod.PFault?)
    && (c.prod.StTailBlock? ==> c'.prod.PReturn? && c'.prod.ok)
    && (c.prod.Alloc? && !i.NoMemory? ==> HasNewBlock(c'.prod) || c'.prod.PFault?)
    && (c.prod.Alloc? && i.NoMemory? ==> c'.prod.PReturn? && !c'.prod.ok)
  }

  lemma FreeLeave<T>(cfg: Config, c: State<T>, i: Input<T>)
    requires ProdBlock(c.prod).None?
    ensures LeaveKept(c, i, ProducerFree(cfg, c, i).0, ProducerFree(cfg, c, i).1)
  {
    hide FreshNode;
  }

  lemma AtLeave<T>(c: State<T>, i: Input<T>)
    requires ProdBlock(c.prod).Some? && ProdBlock(c.prod).value < |c.nodes|
    ensures LeaveKept(c, i, ProducerAt(c, ProdBlock(c.prod).value), Tau)
  {
    hide SetBuf, Slots.Succ;
  }

  lemma ProducerLeave<T>(cfg: Config, c: State<T>, i: Input<T>)
    ensures LeaveKept(c, i, HeapSteps.ProducerNext(cfg, c, i).0, HeapSteps.ProducerNext(cfg, c, i).1)
  {
    hide ProducerFree, ProducerAt;
    if ProdBlock(c.prod).None? {
      FreeLeave(cfg, c, i);
    } else if ProdBlock(c.prod).value < |c.nodes| {
      AtLeave(c, i);
    }
  }

  lemma MoveKeepsCall<T>(cfg: Config, c: State<T>, m: Runs.Move<T>, may: bool, failed: bool, blocks: nat)
    requires CallOk(c, may, failed, blocks)
    ensures var (c', l) := Runs.Step(cfg, c, m);
            if l.CallEnq? then m.i.Enqueue? && CallOk(c', m.i.alloc, false, |c'.nodes|)
            else CallOk(c', may, failed || (m == Runs.ByProducer(R.NoMemory) && c.prod.Alloc?), blocks)
  {
    hide HeapSteps.ProducerNext, HeapSteps.ConsumerNext;
    if m.ByProducer? {
      ProducerBlocks(cfg, c, m.i);
      ProducerLeave(cfg, c, m.i);
    } else {
      ConsumerBlocks(c, m.i);
    }
  }

  lemma MoveKeepsSizes<T>(cfg: Config, c: State<T>, m: Runs.Move<T>)
    requires Doubling(cfg, c)
    ensures Doubling(cfg, Runs.Step(cfg, c, m).0)
  {
    hide HeapSteps.ProducerNext, HeapSteps.ConsumerNext;
    if m.ByProducer? {
      ProducerBlocks(cfg, c, m.i);
    } else {
      ConsumerBlocks(c, m.i);
    }
  }

  lemma StartSizes<T>(cfg: Config)
    requires Sized(cfg)
    ensures Doubling(cfg, HeapSteps.Start<T>(cfg))
  {
    var c := HeapSteps.Start<T>(cfg);
    forall i | 0 <= i < cfg.count
      ensures SizeOf(c, i) == cfg.size
    {
      assert c.nodes[i] == FreshNode<T>(cfg.size, Some(if i + 1 == cfg.count then 0 else i + 1));
    }
  }

  lemma {:induction false} RunOk<T>(cfg: Config, sched: Schedule<T>)
    requires Sized(cfg)
    ensures CallOk(Runs.Reach(cfg, sched), MayAllocate(cfg, sched), MemoryFailed(cfg, sched), BlocksAtCall(cfg, sched))
    ensures Doubling(cfg, Runs.Reach(cfg, sched))
    decreases |sched|
  {
    hide CallOk, Doubling, Runs.Step;
    if sched == [] {
      StartSizes<T>(cfg);
      IdleIsOk(HeapSteps.Start<T>(cfg), MayAllocate(cfg, sched), MemoryFailed(cfg, sched), BlocksAtCall(cfg, sched));
    } else {
      var before, m := sched[..|sched| - 1], sched[|sched| - 1];
      var c := Runs.Reach(cfg, before);
      RunOk(cfg, before);
      MoveKeepsCall(cfg, c, m, MayAllocate(cfg, before), MemoryFailed(cfg, before), BlocksAtCall(cfg, before));
      MoveKeepsSizes(cfg, c, m);
    }
  }

  lemma IdleIsOk<T>(c: State<T>, may: bool, failed: bool, blocks: nat)
    requires c.prod.PIdle?
    ensures CallOk(c, may, failed, blocks)
  {
  }

  // ---- Every run ----

  /** An enqueue that fails was called as `try_enqueue`, or an allocation of its has failed since; it leaves the blocks as
      they were. */
  lemma RefusalMeansNoLeave<T>(cfg: Config, sched: Schedule<T>)
    requires Sized(cfg) && Runs.Reach(cfg, sched).prod.PReturn? && !Runs.Reach(cfg, sched).prod.ok
    ensures !MayAllocate(cfg, sched) || MemoryFailed(cfg, sched)
    ensures |Runs.Reach(cfg, sched).nodes| == BlocksAtCall(cfg, sched)
  {
    hide Runs.Reach, MayAllocate, MemoryFailed, BlocksAtCall;
    RunOk(cfg, sched);
  }

  /** `try_enqueue` allocates nothing; `enqueue` makes one block at most, and fails if it cannot. */
  lemma BlocksPerCall<T>(cfg: Config, sched: Schedule<T>)
    requires Runs.Buildable(cfg) && !Runs.Reach(cfg, sched).prod.PIdle?
    ensures var n, before := |Runs.Reach(cfg, sched).nodes|, BlocksAtCall(cfg, sched);
            && (!MayAllocate(cfg, sched) ==> n == before)
            && before <= n <= before + 1
            && (MemoryFailed(cfg, sched) ==> Runs.Reach(cfg, sched).prod.PReturn? && !Runs.Reach(cfg, sched).prod.ok)
  {
    hide Runs.Reach, MayAllocate, MemoryFailed, BlocksAtCall;
    QueueTheorems.NeverFaults(cfg, sched);
    RunOk(cfg, sched);
  }

  /** The sizes of the blocks in every run, and `largestBlockSize`. */
  lemma BlockSizes<T>(cfg: Config, sched: Schedule<T>)
    requires Sized(cfg)
    ensures var c := Runs.Reach(cfg, sched);
            && cfg.count <= |c.nodes| && c.largest == SizeOf(c, |c.nodes| - 1)
            && (forall i :: 0 <= i < cfg.count ==> SizeOf(c, i) == cfg.size)
            && (forall i :: cfg.count <= i < |c.nodes| ==>
                  SizeOf(c, i) == if SizeOf(c, i - 1) >= cfg.maxBlock then SizeOf(c, i - 1) else 2 * SizeOf(c, i - 1))
  {
    hide Runs.Reach;
    RunOk(cfg, sched);
  }
}
