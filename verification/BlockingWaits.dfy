/** How the calls of the blocking queue wait: `try_dequeue` and `pop` never, `wait_dequeue` until there is a permit,
    `wait_dequeue_timed` until its time runs out in the kernel.  Over every schedule of `BlockingQueue`. */
module BlockingWaits {
  import opened Wrappers
  import opened Fifo
  import opened BlockingQueue
  import HeapSteps
  import M = Semaphore
  import R = RingSteps
  import Runs
  import Growth

  predicate Built(cfg: HeapSteps.Config) { 0 < cfg.size && 0 < cfg.count }

  /** What the consumer called last (`Try` before its first call). */
  function Asked<T>(cfg: HeapSteps.Config, sched: seq<Move<T>>): Ask
    requires Built(cfg)
  {
    if sched == [] then Try
    else
      var before, m := sched[..|sched| - 1], sched[|sched| - 1];
      if m.ByConsumer? && Reach(cfg, before).taker.TIdle? then m.a else Asked(cfg, before)
  }

  /** Since that call the time of a wait has run out while the consumer was blocked in the kernel. */
  predicate RanOut<T>(cfg: HeapSteps.Config, sched: seq<Move<T>>)
    requires Built(cfg)
  {
    sched != [] &&
    var before, m := sched[..|sched| - 1], sched[|sched| - 1];
    RunsOut(Reach(cfg, before), m, RanOut(cfg, before))
  }

  predicate RunsOut<T>(b: Queue<T>, m: Move<T>, ran: bool) {
    !b.taker.TIdle? && ((m.ByConsumer? && m.expire && b.sema.waiter.WBlock?) || ran)
  }

  function Looked<T>(b: Queue<T>, m: Move<T>, b': Queue<T>, looks: nat): nat {
    if b.taker.TIdle? then 0
    else if m.ByConsumer? && b.sema.waiter.WSpin? && !b'.sema.waiter.WDecrement? then looks + 1
    else looks
  }

  /** The number of times that the spin loop has looked at the count since that call. */
  function Looks<T>(cfg: HeapSteps.Config, sched: seq<Move<T>>): nat
    requires Built(cfg)
  {
    if sched == [] then 0
    else
      var before, m := sched[..|sched| - 1], sched[|sched| - 1];
      Looked(Reach(cfg, before), m, Reach(cfg, sched), Looks(cfg, before))
  }

  /** The call that the inner queue's consumer is executing. */
  function InnerOf<T>(k: HeapSteps.Cons<T>): Option<Call> {
    match k
    case CIdle => None
    case CFault => None
    case CLdFrontBlock(call) => Some(call)
    case CLdFront(call, _) => Some(call)
    case CLdTail(call, _, _) => Some(call)
    case CTake(call, _, _) => Some(call)
    case CStFront(call, _, _, _) => Some(call)
    case CLdTailBlock(call, _) => Some(call)
    case CLdFrontBlockAgain(call) => Some(call)
    case CLdTailAgain(call, _) => Some(call)
    case CLdFrontAgain(call, _, _) => Some(call)
    case CLdNext(call, _) => Some(call)
    case CLdNextFront(call, _) => Some(call)
    case CLdNextTail(call, _, _) => Some(call)
    case CStFrontBlock(call, _, _) => Some(call)
    case CReturn(call, _) => Some(call)
  }

  /** Where a call of kind `a` may be: `ran` says that its time has run out, `looks` how often it has spun. */
  predicate MayBe<T>(b: Queue<T>, a: Ask, ran: bool, looks: nat) {
    var w := b.sema.waiter;
    match b.taker
    case TIdle => w.WIdle?
    case Asking(asked) =>
      && asked == a && a != Look
      && (a == Try || a == TryPop ==> w == M.WTryLoad(M.Once) || w.WTryTake? || w.WReturn?)
      && (a == Wait ==> (w.WTryLoad? ==> w.p == M.Forever) && w != M.WReturn(false))
      && (a == WaitTimed ==> (w.WTryLoad? ==> w.p == M.Timed))
      && (w.WTryLoad? || w.WTryTake? ==> looks == 0)
      && (w.WSpin? ==> looks + w.left == 10000 && w.p == (if a == Wait then M.Forever else M.Timed))
      && (w.WDecrement? || w.WBlock? ==> looks == 10000 && w.p == (if a == Wait then M.Forever else M.Timed))
      && (w.WUndo? || w.WRedo? || w.WTryKernel? ==> looks == 10000 && ran && a == WaitTimed)
      && (w == M.WReturn(false) && a == WaitTimed ==> looks == 10000 && ran)
      && !w.WIdle?
    case Serving(asked) =>
      asked == a && w.WIdle? &&
      (b.inner.cons.CFault? || InnerOf(b.inner.cons) == Some(if a == TryPop then Pop else if a == Look then Peek else TryDequeue))
    case TReturn(asked, reply) =>
      asked == a && w.WIdle? && (reply.None? && a == WaitTimed ==> looks == 10000 && ran) && (a == Wait ==> reply.Some?)
    case TFault => true
  }

  lemma InnerGoesOn<T>(q: HeapSteps.State<T>, i: HeapSteps.Input<T>)
    ensures var (q', l) := HeapSteps.ConsumerNext(q, i);
            && (q.cons.CIdle? && i.Dequeue? ==> InnerOf(q'.cons) == Some(i.call))
            && (InnerOf(q.cons).Some? && !l.RetDeq? ==> q'.cons.CFault? || InnerOf(q'.cons) == InnerOf(q.cons))
            && (q.cons.CFault? ==> q'.cons.CFault? && !l.RetDeq?)
  {
    hide HeapSteps.SetBuf, HeapSteps.FreshNode;
  }

  /** The inner queue is called only while the semaphore is not waited on. */
  predicate Fits<T>(b: Queue<T>) {
    (b.taker.TIdle? || b.taker.Asking? ==> b.inner.cons.CIdle?) && !b.taker.TFault? && !b.inner.cons.CFault?
  }

  lemma ReachFits<T>(cfg: HeapSteps.Config, sched: seq<Move<T>>)
    requires Runs.Buildable(cfg)
    ensures Fits(Reach(cfg, sched))
  {
    hide Reach;
    var o := RunSound(cfg, sched);
    PermitYieldsElement(cfg, sched);
  }

  lemma ProducerKeeps<T>(cfg: HeapSteps.Config, b: Queue<T>, i: HeapSteps.Input<T>, a: Ask, ran: bool, looks: nat)
    requires MayBe(b, a, ran, looks)
    ensures MayBe(BlockingQueue.ProducerNext(cfg, b, i), a, ran, looks)
  {
    hide HeapSteps.ProducerNext;
    QueueTheorems.ProducerWaitFree(cfg, b.inner, i);
    SignallerLeaves(b.sema, M.Go);
    SignallerLeaves(b.sema, M.Signal(1));
    hide M.SignallerNext, InnerOf;
  }

  lemma SignallerLeaves(m: M.State, i: M.Input)
    ensures M.SignallerNext(m, i).waiter == m.waiter
  {
  }

  lemma IdleKeeps<T>(b: Queue<T>, asked: Ask, expire: bool, a: Ask, ran: bool, looks: nat)
    requires MayBe(b, a, ran, looks) && Fits(b) && b.taker.TIdle?
    ensures MayBe(BlockingQueue.ConsumerNext(b, asked, expire), asked, false, 0)
  {
    hide HeapSteps.ConsumerNext, InnerOf;
    InnerGoesOn(b.inner, R.Dequeue(Peek));
  }

  lemma AskingKeeps<T>(b: Queue<T>, asked: Ask, expire: bool, a: Ask, ran: bool, looks: nat)
    requires MayBe(b, a, ran, looks) && Fits(b) && b.taker.Asking?
    ensures var m: Move<T> := ByConsumer(asked, expire);
            var b' := BlockingQueue.ConsumerNext(b, asked, expire);
            MayBe(b', a, RunsOut(b, m, ran), Looked(b, m, b', looks))
  {
    hide HeapSteps.ConsumerNext, InnerOf;
    InnerGoesOn(b.inner, R.Dequeue(InnerCall(a)));
  }

  lemma ServingKeeps<T>(b: Queue<T>, asked: Ask, expire: bool, a: Ask, ran: bool, looks: nat)
    requires MayBe(b, a, ran, looks) && Fits(b) && (b.taker.Serving? || b.taker.TReturn?)
    ensures var m: Move<T> := ByConsumer(asked, expire);
            var b' := BlockingQueue.ConsumerNext(b, asked, expire);
            MayBe(b', a, RunsOut(b, m, ran), Looked(b, m, b', looks))
  {
    hide HeapSteps.ConsumerNext, InnerOf;
    InnerGoesOn(b.inner, R.Go);
  }

  lemma MoveKeeps<T>(cfg: HeapSteps.Config, b: Queue<T>, m: Move<T>, a: Ask, ran: bool, looks: nat)
    requires MayBe(b, a, ran, looks) && Fits(b)
    ensures var b' := Next(cfg, b, m);
            MayBe(b', if m.ByConsumer? && b.taker.TIdle? then m.a else a, RunsOut(b, m, ran), Looked(b, m, b', looks))
  {
    hide MayBe, BlockingQueue.ProducerNext, BlockingQueue.ConsumerNext;
    if m.ByProducer? {
      ProducerKeeps(cfg, b, m.i, a, ran, looks);
      ProducerIdle(cfg, b, m, a, ran, looks);
    } else if b.taker.TIdle? {
      IdleKeeps(b, m.a, m.expire, a, ran, looks);
    } else if b.taker.Asking? {
      AskingKeeps(b, m.a, m.expire, a, ran, looks);
    } else {
      ServingKeeps(b, m.a, m.expire, a, ran, looks);
    }
  }

  /** Between calls nothing is said of the last one. */
  lemma ProducerIdle<T>(cfg: HeapSteps.Config, b: Queue<T>, m: Move<T>, a: Ask, ran: bool, looks: nat)
    requires m.ByProducer? && MayBe(BlockingQueue.ProducerNext(cfg, b, m.i), a, ran, looks)
    ensures var b' := BlockingQueue.ProducerNext(cfg, b, m.i);
            b'.taker == b.taker && MayBe(b', a, RunsOut(b, m, ran), Looked(b, m, b', looks))
  {
    hide HeapSteps.ProducerNext, M.SignallerNext;
  }

  lemma {:induction false} RunMayBe<T>(cfg: HeapSteps.Config, sched: seq<Move<T>>)
    requires Runs.Buildable(cfg)
    ensures MayBe(Reach(cfg, sched), Asked(cfg, sched), RanOut(cfg, sched), Looks(cfg, sched))
    decreases |sched|
  {
    hide MayBe, Next, RunsOut, Looked;
    if sched == [] {
      StartMayBe<T>(cfg);
    } else {
      var before, m := sched[..|sched| - 1], sched[|sched| - 1];
      RunMayBe(cfg, before);
      ReachFits(cfg, before);
      MoveKeeps(cfg, Reach(cfg, before), m, Asked(cfg, before), RanOut(cfg, before), Looks(cfg, before));
    }
  }

  lemma StartMayBe<T>(cfg: HeapSteps.Config)
    requires Built(cfg)
    ensures MayBe(Start<T>(cfg), Try, false, 0)
  {
  }

  // ---- Every run ----

  /** `wait_dequeue_timed` comes back empty-handed only after 10000 looks at the count and after its time has run out
      in the kernel; `wait_dequeue` never does. */
  lemma TimedWaitWaits<T>(cfg: HeapSteps.Config, sched: seq<Move<T>>)
    requires Runs.Buildable(cfg) && Reach(cfg, sched).taker.TReturn?
    ensures var call := Reach(cfg, sched).taker;
            && call.a == Asked(cfg, sched)
            && (call.reply.None? && call.a == WaitTimed ==> RanOut(cfg, sched) && Looks(cfg, sched) == 10000)
            && (call.reply.None? ==> call.a != Wait)
  {
    hide Reach, Asked, RanOut, Looks;
    RunMayBe(cfg, sched);
  }

  /** `try_dequeue` and `pop` take a permit at the first look or not at all: they neither spin nor block. */
  lemma AttemptsNeverWait<T>(cfg: HeapSteps.Config, sched: seq<Move<T>>)
    requires Runs.Buildable(cfg) && Reach(cfg, sched).taker.Asking? && Asked(cfg, sched) in {Try, TryPop}
    ensures var w := Reach(cfg, sched).sema.waiter; w.WTryLoad? || w.WTryTake? || w.WReturn?
  {
    hide Reach, Asked, RanOut, Looks;
    RunMayBe(cfg, sched);
  }

  /** A wait blocks in the kernel only after 10000 looks at the count.  There the end of its time sends a timed wait on,
      and it alone; without a token and without that it stays. */
  lemma BlockedUntil<T>(cfg: HeapSteps.Config, sched: seq<Move<T>>, a: Ask, expire: bool)
    requires Runs.Buildable(cfg) && Reach(cfg, sched).sema.waiter.WBlock?
    ensures var b := Reach(cfg, sched);
            var w := Next(cfg, b, ByConsumer(a, expire)).sema.waiter;
            && Looks(cfg, sched) == 10000 && b.taker.Asking? && Asked(cfg, sched) in {Wait, WaitTimed}
            && (w.WUndo? <==> expire && Asked(cfg, sched) == WaitTimed)
            && (w == M.WReturn(true) <==> b.sema.tokens > 0 && !(expire && Asked(cfg, sched) == WaitTimed))
            && (w.WUndo? || w == M.WReturn(true) || w == b.sema.waiter)
  {
    hide Reach, Asked, RanOut, Looks, HeapSteps.ConsumerNext;
    ReachFits(cfg, sched);
    RunMayBe(cfg, sched);
  }

  /** The undoing of a decrement is for timed waits whose time has run out. */
  lemma UndoneOnlyWhenRunOut<T>(cfg: HeapSteps.Config, sched: seq<Move<T>>)
    requires Runs.Buildable(cfg)
    requires var w := Reach(cfg, sched).sema.waiter; w.WUndo? || w.WRedo? || w.WTryKernel?
    ensures Asked(cfg, sched) == WaitTimed && RanOut(cfg, sched)
  {
    hide Reach, Asked, RanOut, Looks;
    ReachFits(cfg, sched);
    RunMayBe(cfg, sched);
  }

  /** The inner call is the one that was asked for, and its answer the one returned. */
  lemma InnerCallIsAsked<T>(cfg: HeapSteps.Config, sched: seq<Move<T>>, a: Ask, expire: bool)
    requires Runs.Buildable(cfg) && Reach(cfg, sched).taker.Serving?
    ensures var b, asked := Reach(cfg, sched), Asked(cfg, sched);
            && InnerOf(b.inner.cons) == Some(if asked == TryPop then Pop else if asked == Look then Peek else TryDequeue)
            && (b.inner.cons.CReturn? ==>
                  Next(cfg, b, ByConsumer(a, expire)).taker == TReturn(asked, b.inner.cons.reply))
  {
    hide Reach, Asked, RanOut, Looks;
    RunMayBe(cfg, sched);
    ReachFits(cfg, sched);
    ReachFits(cfg, sched + [ByConsumer(a, expire)]);
    NextReach(cfg, sched, ByConsumer(a, expire));
  }

  lemma NextReach<T>(cfg: HeapSteps.Config, sched: seq<Move<T>>, m: Move<T>)
    requires Built(cfg)
    ensures Reach(cfg, sched + [m]) == Next(cfg, Reach(cfg, sched), m)
  {
    assert (sched + [m])[..|sched|] == sched;
  }

  // ---- The two ways to enqueue ----

  /** The move calls `enqueue` or `try_enqueue`. */
  predicate Calls<T>(b: Queue<T>, m: Move<T>) {
    m.ByProducer? && b.sema.signaller.SIdle? && b.inner.prod.PIdle? && m.i.Enqueue?
  }

  /** It fails to allocate. */
  predicate Fails<T>(b: Queue<T>, m: Move<T>) { m == ByProducer(R.NoMemory) && b.inner.prod.Alloc? }

  /** Whether the producer called `enqueue` last, or `try_enqueue`. */
  function MayAllocate<T>(cfg: HeapSteps.Config, sched: seq<Move<T>>): bool
    requires Built(cfg)
  {
    if sched == [] then false
    else
      var before, m := sched[..|sched| - 1], sched[|sched| - 1];
      if Calls(Reach(cfg, before), m) then m.i.alloc else MayAllocate(cfg, before)
  }

  /** Since then an allocation of its has failed. */
  predicate MemoryFailed<T>(cfg: HeapSteps.Config, sched: seq<Move<T>>)
    requires Built(cfg)
  {
    sched != [] &&
    var before, m := sched[..|sched| - 1], sched[|sched| - 1];
    !Calls(Reach(cfg, before), m) && (Fails(Reach(cfg, before), m) || MemoryFailed(cfg, before))
  }

  lemma InnerStepAgain<T>(cfg: HeapSteps.Config, qs: seq<Runs.Move<T>>, m: Runs.Move<T>)
    requires Built(cfg)
    ensures var c := Runs.Reach(cfg, qs);
            && Runs.LastLabel(cfg, qs + [m]) == Runs.Step(cfg, c, m).1
            && Growth.MayAllocate(cfg, qs + [m])
               == (if Runs.Step(cfg, c, m).1.CallEnq? then m.i.Enqueue? && m.i.alloc else Growth.MayAllocate(cfg, qs))
            && Growth.MemoryFailed(cfg, qs + [m])
               == (!Runs.Step(cfg, c, m).1.CallEnq? &&
                   ((m == Runs.ByProducer(R.NoMemory) && c.prod.Alloc?) || Growth.MemoryFailed(cfg, qs)))
  {
    assert (qs + [m])[..|qs|] == qs;
  }

  lemma WhenCalled<T>(cfg: HeapSteps.Config, c: HeapSteps.State<T>, m: Runs.Move<T>)
    ensures Runs.Step(cfg, c, m).1.CallEnq? <==> m.ByProducer? && c.prod.PIdle? && m.i.Enqueue?
  {
    hide HeapSteps.ProducerNext, HeapSteps.ConsumerNext;
    Growth.ProducerLeave(cfg, c, m.i);
    Growth.ConsumerBlocks(c, m.i);
  }

  lemma PartIs<T>(b: Queue<T>, m: Move<T>, o: Obj<T>)
    requires Sound(b, o) && Seen(b.inner, o)
    ensures |InnerPart(b, m)| <= 1
    ensures m.ByProducer? && b.sema.signaller.SIdle? ==> InnerPart(b, m) == [Runs.ByProducer(m.i)]
    ensures m.ByProducer? && !b.sema.signaller.SIdle? ==> InnerPart(b, m) == [] && b.inner.prod.PIdle?
    ensures m.ByConsumer? && InnerPart(b, m) != [] ==> InnerPart(b, m)[0].ByConsumer?
  {
  }

  lemma SameLeaveStep<T>(cfg: HeapSteps.Config, b: Queue<T>, m: Move<T>, qs: seq<Runs.Move<T>>, o: Obj<T>)
    requires Built(cfg) && b.inner == Runs.Reach(cfg, qs) && Sound(b, o) && Seen(b.inner, o)
    ensures var qs' := qs + InnerPart(b, m);
            && Growth.MayAllocate(cfg, qs') == (if Calls(b, m) then m.i.alloc else Growth.MayAllocate(cfg, qs))
            && Growth.MemoryFailed(cfg, qs') == (!Calls(b, m) && (Fails(b, m) || Growth.MemoryFailed(cfg, qs)))
  {
    PartIs(b, m, o);
    hide InnerPart, Sound, Seen, Runs.Reach, Runs.LastLabel, Runs.Step, Growth.MayAllocate, Growth.MemoryFailed;
    var part := InnerPart(b, m);
    if part == [] {
      assert qs + part == qs;
    } else {
      assert part == [part[0]];
      InnerStepAgain(cfg, qs, part[0]);
      WhenCalled(cfg, b.inner, part[0]);
    }
  }

  lemma {:induction false} SameLeave<T>(cfg: HeapSteps.Config, sched: seq<Move<T>>)
    requires Runs.Buildable(cfg)
    ensures MayAllocate(cfg, sched) <==> Growth.MayAllocate(cfg, InnerSched(cfg, sched))
    ensures MemoryFailed(cfg, sched) <==> Growth.MemoryFailed(cfg, InnerSched(cfg, sched))
    decreases |sched|
  {
    hide Reach, Runs.Reach, Sound, Seen, InnerPart, Calls, Fails;
    if sched == [] {
    } else {
      var before, m := sched[..|sched| - 1], sched[|sched| - 1];
      SameLeave(cfg, before);
      var o := RunSound(cfg, before);
      SameLeaveStep(cfg, Reach(cfg, before), m, InnerSched(cfg, before), o);
    }
  }

  /** The same as for the queue alone: an enqueue fails only as `try_enqueue`, or when an allocation of its has failed. */
  lemma RefusalMeansNoLeave<T>(cfg: HeapSteps.Config, sched: seq<Move<T>>)
    requires Runs.Buildable(cfg) && Reach(cfg, sched).inner.prod.PReturn? && !Reach(cfg, sched).inner.prod.ok
    ensures !MayAllocate(cfg, sched) || MemoryFailed(cfg, sched)
  {
    hide Reach, MayAllocate, MemoryFailed, Growth.MayAllocate, Growth.MemoryFailed, Runs.Reach, InnerSched;
    SameLeave(cfg, sched);
    var o := RunSound(cfg, sched);
    Growth.RefusalMeansNoLeave(cfg, InnerSched(cfg, sched));
  }
}
