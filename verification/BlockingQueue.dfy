/** `BlockingReaderWriterQueue`: the queue and the semaphore together, every interleaving of the
    producer's enqueue-then-signal and the consumer's acquire-then-dequeue, access by access. */
module BlockingQueue {
  import opened Wrappers
  import opened Fifo
  import opened HeapSteps
  import opened HeapRefinement
  import opened HeapView
  import opened QueueTheorems
  import M = Semaphore
  import R = RingSteps
  import RingRefinement
  import Runs
  import Slots
  import Words

  /** The consumer's calls: `try_dequeue`, `wait_dequeue`, `wait_dequeue_timed`, `pop` and `peek`. */
  datatype Ask = Try | Wait | WaitTimed | TryPop | Look

  datatype Taker<T> =
    | TIdle
    | Asking(a: Ask)                        // waiting on the semaphore
    | Serving(a: Ask)                       // in the inner call
    | TReturn(a: Ask, reply: Option<T>)
    | TFault                                // "assert(success)" or "assert(result)" failed

  datatype Queue<T> = Queue(inner: HeapSteps.State<T>, sema: M.State, taker: Taker<T>)

  datatype Move<T> =
    | ByProducer(i: HeapSteps.Input<T>)
    | ByConsumer(a: Ask, expire: bool)  // `a`: what to call if idle; `expire`: a timed wait runs out

  function Start<T>(cfg: Config): Queue<T>
    requires 0 < cfg.size && 0 < cfg.count
  {
    Queue(HeapSteps.Start(cfg), M.Start(0), TIdle)
  }

  function PatienceOf(a: Ask): M.Patience {
    match a
    case Wait => M.Forever
    case WaitTimed => M.Timed
    case _ => M.Once
  }

  function InnerCall(a: Ask): Call {
    match a
    case TryPop => Pop
    case Look => Peek
    case _ => TryDequeue
  }

  /** The producer finishes `sema.signal()` before it calls the inner queue again. */
  function ProducerNext<T>(cfg: Config, b: Queue<T>, i: HeapSteps.Input<T>): Queue<T> {
    if !b.sema.signaller.SIdle? then b.(sema := M.SignallerNext(b.sema, M.Go))
    else
      var (q, l) := HeapSteps.ProducerNext(cfg, b.inner, i);
      b.(inner := q,
         sema := if l.RetEnq? && l.ok then M.SignallerNext(b.sema, M.Signal(1)) else b.sema)
  }

  function ConsumerNext<T>(b: Queue<T>, a: Ask, expire: bool): Queue<T> {
    match b.taker
    case TIdle =>
      if a.Look? then b.(inner := HeapSteps.ConsumerNext(b.inner, R.Dequeue(Peek)).0, taker := Serving(a))
      else b.(sema := M.WaiterNext(b.sema, M.Wait(PatienceOf(a))), taker := Asking(a))
    case Asking(asked) =>
      var m := M.WaiterNext(b.sema, if expire then M.Expire else M.Go);
      if b.sema.waiter == M.WReturn(true)
      then Queue(HeapSteps.ConsumerNext(b.inner, R.Dequeue(InnerCall(asked))).0, m, Serving(asked))
      else b.(sema := m, taker := if b.sema.waiter.WReturn? then TReturn(asked, None) else b.taker)
    case Serving(asked) =>
      var (q, l) := HeapSteps.ConsumerNext(b.inner, R.Go);
      b.(inner := q,
         taker := if !l.RetDeq? then b.taker
                  else if asked.Look? || l.reply.Some? then TReturn(asked, l.reply)
                  else TFault)
    case TReturn(_, _) => b.(taker := TIdle)
    case TFault => b
  }

  function Next<T>(cfg: Config, b: Queue<T>, m: Move<T>): Queue<T> {
    match m
    case ByProducer(i) => ProducerNext(cfg, b, i)
    case ByConsumer(a, expire) => ConsumerNext(b, a, expire)
  }

  function Reach<T>(cfg: Config, sched: seq<Move<T>>): Queue<T>
    requires 0 < cfg.size && 0 < cfg.count
  {
    if sched == [] then Start(cfg) else Next(cfg, Reach(cfg, sched[..|sched| - 1]), sched[|sched| - 1])
  }

  // ---- The ledger ----

  /** Published elements that the semaphore has not been told of. */
  function Unsignalled<T>(b: Queue<T>): nat {
    |Reporting(b.inner)| + (if b.sema.signaller.SAdd? then 1 else 0)
  }

  /** Permits taken whose element has not been removed yet. */
  function Permits<T>(b: Queue<T>): nat {
    if b.sema.waiter == M.WReturn(true) then 1
    else if b.taker.Serving? && !b.taker.a.Look? && !b.inner.cons.CReturn? then 1
    else 0
  }

  /** `length` elements are held: those signalled and not granted, those not signalled yet, and those
      that a permit already stands for. */
  predicate Balanced<T>(b: Queue<T>, length: nat) {
    length == b.sema.signals - b.sema.grants + Unsignalled(b) + Permits(b)
  }

  /** How far the consumer is, in the semaphore's and in the inner queue's terms.  A call that holds a
      permit has never seen the queue empty. */
  ghost predicate TakerOk<T>(b: Queue<T>, k: Consumer<T>) {
    match b.taker
    case TIdle => b.sema.waiter.WIdle? && k.NoDeq?
    case Asking(a) => M.Waits(b.sema.waiter, PatienceOf(a)) && k.NoDeq? && !a.Look?
    case Serving(a) =>
      && b.sema.waiter.WIdle?
      && (k.PendingDeq? ==> k.call == InnerCall(a) && (!a.Look? ==> k.mark.None?))
      && (k.DoneDeq? ==> k.call == InnerCall(a) && (!a.Look? ==> k.reply.Some?))
      && !k.NoDeq?
    case TReturn(a, reply) => b.sema.waiter.WIdle? && k.NoDeq? && (a.Wait? ==> reply.Some?)
    case TFault => false
  }

  ghost predicate SignallerOk<T>(b: Queue<T>, p: Producer<T>) {
    && (!b.sema.signaller.SIdle? ==> p.NoEnq?)
    && (b.sema.signaller.SAdd? ==> b.sema.signaller.k == 1)
  }

  ghost predicate Sound<T>(b: Queue<T>, o: Obj<T>) {
    && M.Inv(b.sema)
    && Balanced(b, |o.queue|)
    && TakerOk(b, o.consumer)
    && SignallerOk(b, o.producer)
  }

  /** The inner queue of a run of the blocking queue is in the state of a run `qs` of its own. */
  ghost predicate Explains<T>(cfg: Config, b: Queue<T>, qs: seq<Runs.Move<T>>, s: R.State<T>, order: seq<Id>, o: Obj<T>)
    requires 0 < cfg.size && 0 < cfg.count
  {
    && b.inner == Runs.Reach(cfg, qs)
    && Runs.Explains(cfg, qs, s, order, o)
    && Sound(b, o)
  }

  lemma InnerStep<T>(cfg: Config, qs: seq<Runs.Move<T>>, m: Runs.Move<T>)
    requires Runs.Buildable(cfg)
    ensures Runs.Reach(cfg, qs + [m]) == Runs.Step(cfg, Runs.Reach(cfg, qs), m).0
    ensures Runs.LastLabel(cfg, qs + [m]) == Runs.Step(cfg, Runs.Reach(cfg, qs), m).1
  {
    assert (qs + [m])[..|qs|] == qs;
  }

  lemma RunSeen<T>(cfg: Config, qs: seq<Runs.Move<T>>, s: R.State<T>, order: seq<Id>, o: Obj<T>)
    requires Runs.Buildable(cfg) && Runs.Explains(cfg, qs, s, order, o)
    ensures Seen(Runs.Reach(cfg, qs), o)
  {
    hide Rel, RingRefinement.Refines, Runs.Reach, Runs.Remembers, Fifo.Inv;
    AboutToReturn(cfg, Runs.Reach(cfg, qs), s, order, o);
  }

  /** One move of the inner queue, seen from all sides. */
  lemma InnerMove<T>(cfg: Config, qs: seq<Runs.Move<T>>, m: Runs.Move<T>, s: R.State<T>, order: seq<Id>, o: Obj<T>)
    returns (s': R.State<T>, order': seq<Id>, o': Obj<T>)
    requires Runs.Buildable(cfg) && Runs.Explains(cfg, qs, s, order, o)
    ensures Runs.Explains(cfg, qs + [m], s', order', o')
    ensures var (q, l) := Runs.Step(cfg, Runs.Reach(cfg, qs), m);
            && Runs.Reach(cfg, qs + [m]) == q
            && Seen(q, o')
            && (if m.ByProducer? then Fifo.ProducerStep(cfg.cap, o, o', l) else Fifo.ConsumerStep(o, o', l))
  {
    InnerStep(cfg, qs, m);
    s', order', o' := Runs.MoveExplained(cfg, qs, m, s, order, o);
    RunSeen(cfg, qs + [m], s', order', o');
  }

  /** What the memory shows of the object's pending calls. */
  ghost predicate Seen<T>(c: HeapSteps.State<T>, o: Obj<T>) {
    && Unreported(o.producer) == Reporting(c)
    && Unreplied(o.consumer) == Answering(c)
    && (o.producer.NoEnq? <==> c.prod.PIdle?)
    && (o.consumer.NoDeq? <==> c.cons.CIdle?)
    && (o.consumer.DoneDeq? <==> c.cons.CReturn?)
  }

  lemma ProducerKeepsSound<T>(cfg: Config, b: Queue<T>, i: HeapSteps.Input<T>, o: Obj<T>, o': Obj<T>)
    requires Sound(b, o) && Seen(b.inner, o) && b.sema.signaller.SIdle?
    requires var (q, l) := HeapSteps.ProducerNext(cfg, b.inner, i);
             q.cons == b.inner.cons && Seen(q, o') && Fifo.ProducerStep(cfg.cap, o, o', l)
    ensures Sound(ProducerNext(cfg, b, i), o')
  {
    hide HeapSteps.ProducerNext;
  }

  lemma SignalKeepsSound<T>(cfg: Config, b: Queue<T>, i: HeapSteps.Input<T>, o: Obj<T>)
    requires Sound(b, o) && Seen(b.inner, o) && !b.sema.signaller.SIdle?
    ensures Sound(ProducerNext(cfg, b, i), o)
  {
    M.SignalKeepsBooks(b.sema, M.Go);
  }

  lemma WaitKeepsSound<T>(b: Queue<T>, a: Ask, expire: bool, o: Obj<T>)
    requires Sound(b, o) && Seen(b.inner, o)
    requires !b.taker.Serving? && !(b.taker.TIdle? && a.Look?) && b.sema.waiter != M.WReturn(true)
    ensures Sound(ConsumerNext(b, a, expire), o)
  {
    var i := if b.taker.TIdle? then M.Wait(PatienceOf(a)) else if expire then M.Expire else M.Go;
    M.WaitKeepsBooks(b.sema, i);
    M.WaitGrants(b.sema, i);
    M.WaitsOn(b.sema, i, PatienceOf(if b.taker.Asking? then b.taker.a else a));
    hide M.WaiterNext, M.Inv;
  }

  /** The inner call starts, with a permit or to look. */
  lemma CallKeepsSound<T>(b: Queue<T>, a: Ask, expire: bool, o: Obj<T>, o': Obj<T>)
    requires Sound(b, o) && Seen(b.inner, o)
    requires (b.taker.TIdle? && a.Look?) || b.sema.waiter == M.WReturn(true)
    requires var (q, l) := HeapSteps.ConsumerNext(b.inner, R.Dequeue(InnerCall(if b.taker.TIdle? then a else b.taker.a)));
             q.prod == b.inner.prod && Seen(q, o') && Fifo.ConsumerStep(o, o', l)
    ensures Sound(ConsumerNext(b, a, expire), o')
  {
    M.WaitKeepsBooks(b.sema, if expire then M.Expire else M.Go);
    assert b.inner.cons.CIdle?;
  }

  /** Holding a permit, the consumer cannot see the queue empty: the element the permit stands for is
      there. */
  lemma ServeKeepsSound<T>(b: Queue<T>, a: Ask, expire: bool, o: Obj<T>, o': Obj<T>)
    requires Sound(b, o) && Seen(b.inner, o) && b.taker.Serving?
    requires var (q, l) := HeapSteps.ConsumerNext(b.inner, R.Go);
             q.prod == b.inner.prod && Seen(q, o') && Fifo.ConsumerStep(o, o', l)
    ensures Sound(ConsumerNext(b, a, expire), o')
  {
    hide HeapSteps.ConsumerNext, M.Inv;
    assert b.sema.signals >= b.sema.grants by { M.ConservesSignals(b.sema); }
    var b', l := ConsumerNext(b, a, expire), HeapSteps.ConsumerNext(b.inner, R.Go).1;
    assert !b.taker.a.Look? && o.consumer.PendingDeq? ==> o.queue != [];
    assert l.RetDeq? || l.Tau?;
    assert TakerOk(b', o'.consumer);
    assert Unsignalled(b') == Unsignalled(b);
  }

  lemma StepIsRun<T>(cfg: Config, q: HeapSteps.State<T>, i: HeapSteps.Input<T>)
    ensures Runs.Step(cfg, q, Runs.ByProducer(i)) == HeapSteps.ProducerNext(cfg, q, i)
    ensures Runs.Step(cfg, q, Runs.ByConsumer(i)) == HeapSteps.ConsumerNext(q, i)
    ensures HeapSteps.ProducerNext(cfg, q, i).0.cons == q.cons
    ensures HeapSteps.ConsumerNext(q, i).0.prod == q.prod
  {
    ProducerWaitFree(cfg, q, i);
    ConsumerWaitFree(q, i);
  }

  /** What the inner queue does in a move, if anything. */
  function InnerPart<T>(b: Queue<T>, m: Move<T>): seq<Runs.Move<T>> {
    match m
    case ByProducer(i) => if b.sema.signaller.SIdle? then [Runs.ByProducer(i)] else []
    case ByConsumer(a, _) =>
      match b.taker
      case TIdle => if a.Look? then [Runs.ByConsumer(R.Dequeue(Peek))] else []
      case Asking(asked) =>
        if b.sema.waiter == M.WReturn(true) then [Runs.ByConsumer(R.Dequeue(InnerCall(asked)))] else []
      case Serving(_) => [Runs.ByConsumer(R.Go)]
      case _ => []
  }

  lemma MoveExplained<T>(cfg: Config, b: Queue<T>, m: Move<T>, qs: seq<Runs.Move<T>>, s: R.State<T>, order: seq<Id>, o: Obj<T>)
    returns (s': R.State<T>, order': seq<Id>, o': Obj<T>)
    requires Runs.Buildable(cfg) && Explains(cfg, b, qs, s, order, o)
    ensures Explains(cfg, Next(cfg, b, m), qs + InnerPart(b, m), s', order', o')
  {
    hide Runs.Explains, Runs.Step, Sound, Seen, HeapSteps.ProducerNext, HeapSteps.ConsumerNext, Runs.Reach, Runs.LastLabel,
         M.SignallerNext, M.WaiterNext;
    hide Fifo.ProducerStep, Fifo.ConsumerStep;
    var part := InnerPart(b, m);
    RunSeen(cfg, qs, s, order, o);
    if part != [] {
      assert part == [part[0]];
      StepIsRun(cfg, b.inner, part[0].i);
      s', order', o' := InnerMove(cfg, qs, part[0], s, order, o);
    } else {
      s', order', o' := s, order, o;
      assert qs + part == qs;
    }
    MoveKeepsSound(cfg, b, m, o, o');
  }

  lemma ConsumerMoveKeepsSound<T>(cfg: Config, b: Queue<T>, a: Ask, expire: bool, o: Obj<T>, o': Obj<T>)
    requires Sound(b, o) && Seen(b.inner, o)
    requires var part := InnerPart(b, ByConsumer(a, expire));
             if part == [] then o' == o
             else var (q, l) := Runs.Step(cfg, b.inner, part[0]); Seen(q, o') && Fifo.ConsumerStep(o, o', l)
    ensures Sound(ConsumerNext(b, a, expire), o')
    ensures var part := InnerPart(b, ByConsumer(a, expire));
            ConsumerNext(b, a, expire).inner == if part == [] then b.inner else Runs.Step(cfg, b.inner, part[0]).0
  {
    assert !b.taker.TFault?;
    hide HeapSteps.ProducerNext, HeapSteps.ConsumerNext, M.Inv, Fifo.ConsumerStep, Balanced, Seen, SignallerOk;
    if b.taker.Serving? {
      StepIsRun(cfg, b.inner, R.Go);
      ServeKeepsSound(b, a, expire, o, o');
    } else if (b.taker.TIdle? && a.Look?) || (b.taker.Asking? && b.sema.waiter == M.WReturn(true)) {
      StepIsRun(cfg, b.inner, R.Dequeue(InnerCall(if b.taker.TIdle? then a else b.taker.a)));
      CallKeepsSound(b, a, expire, o, o');
    } else {
      WaitKeepsSound(b, a, expire, o);
    }
  }

  lemma MoveKeepsSound<T>(cfg: Config, b: Queue<T>, m: Move<T>, o: Obj<T>, o': Obj<T>)
    requires Sound(b, o) && Seen(b.inner, o)
    requires InnerPart(b, m) == [] ==> o' == o
    requires InnerPart(b, m) != [] ==>
               var (q, l) := Runs.Step(cfg, b.inner, InnerPart(b, m)[0]);
               Seen(q, o') && (if m.ByProducer? then Fifo.ProducerStep(cfg.cap, o, o', l) else Fifo.ConsumerStep(o, o', l))
    ensures Sound(Next(cfg, b, m), o')
    ensures InnerPart(b, m) == [] ==> Next(cfg, b, m).inner == b.inner
    ensures InnerPart(b, m) != [] ==> Next(cfg, b, m).inner == Runs.Step(cfg, b.inner, InnerPart(b, m)[0]).0
  {
    hide HeapSteps.ProducerNext, HeapSteps.ConsumerNext, M.Inv, Fifo.ProducerStep, Fifo.ConsumerStep, Balanced, Seen, SignallerOk,
         TakerOk;
    if m.ByProducer? {
      StepIsRun(cfg, b.inner, m.i);
      if b.sema.signaller.SIdle? {
        ProducerKeepsSound(cfg, b, m.i, o, o');
      } else {
        SignalKeepsSound(cfg, b, m.i, o);
      }
    } else {
      ConsumerMoveKeepsSound(cfg, b, m.a, m.expire, o, o');
    }
  }

  // ---- Whole runs ----

  /** The moves that a run of the blocking queue makes in its inner queue. */
  function InnerSched<T>(cfg: Config, sched: seq<Move<T>>): seq<Runs.Move<T>>
    requires 0 < cfg.size && 0 < cfg.count
  {
    if sched == [] then []
    else
      var before := sched[..|sched| - 1];
      InnerSched(cfg, before) + InnerPart(Reach(cfg, before), sched[|sched| - 1])
  }

  lemma StartSound<T>(cfg: Config)
    requires Runs.Buildable(cfg)
    ensures Explains(cfg, Start<T>(cfg), [], R.Start<T>(cfg), Runs.Upto(cfg.count), Fifo.Init<T>())
  {
    Runs.StartExplained<T>(cfg);
    hide Runs.Explains;
    var b := Start<T>(cfg);
    assert b.inner == Runs.Reach(cfg, []) && Reporting(b.inner) == [];
    assert Sound(b, Fifo.Init<T>());
  }

  lemma {:induction false} RunExplained<T>(cfg: Config, sched: seq<Move<T>>)
    returns (s: R.State<T>, order: seq<Id>, o: Obj<T>)
    requires Runs.Buildable(cfg)
    ensures Explains(cfg, Reach(cfg, sched), InnerSched(cfg, sched), s, order, o)
    decreases |sched|
  {
    hide Explains;
    if sched == [] {
      s, order, o := R.Start(cfg), Runs.Upto(cfg.count), Fifo.Init();
      StartSound<T>(cfg);
    } else {
      var before, m := sched[..|sched| - 1], sched[|sched| - 1];
      s, order, o := RunExplained(cfg, before);
      s, order, o := MoveExplained(cfg, Reach(cfg, before), m, InnerSched(cfg, before), s, order, o);
    }
  }

  /** What the object behind a run tells about its state. */
  lemma RunSound<T>(cfg: Config, sched: seq<Move<T>>) returns (o: Obj<T>)
    requires Runs.Buildable(cfg)
    ensures var b := Reach(cfg, sched);
            && b.inner == Runs.Reach(cfg, InnerSched(cfg, sched))
            && Sound(b, o) && Seen(b.inner, o) && |o.queue| == |Held(b.inner)|
  {
    hide Reach, InnerSched, Sound, Seen, Rel, RingRefinement.Refines, Fifo.Inv;
    var s, order;
    s, order, o := RunExplained(cfg, sched);
    RunSeen(cfg, InnerSched(cfg, sched), s, order, o);
    Runs.LengthIs(cfg, Reach(cfg, sched).inner, s, order, o);
  }

  /** Whenever a permit is taken the inner `try_dequeue` or `pop` succeeds: none of the success
      assertions fails in any run, nor does any assertion of the semaphore or of the queue. */
  lemma PermitYieldsElement<T>(cfg: Config, sched: seq<Move<T>>)
    requires Runs.Buildable(cfg)
    ensures var b := Reach(cfg, sched);
            && !b.taker.TFault? && !b.sema.signaller.SFault? && !b.inner.prod.PFault? && !b.inner.cons.CFault?
            && (b.taker.TReturn? && b.taker.reply.None? ==> b.taker.a != Wait)
  {
    hide Reach, InnerSched;
    var o := RunSound(cfg, sched);
    NeverFaults(cfg, InnerSched(cfg, sched));
  }

  /** Every element held is accounted for. */
  lemma EveryElementHasAPermit<T>(cfg: Config, sched: seq<Move<T>>)
    requires Runs.Buildable(cfg)
    ensures Balanced(Reach(cfg, sched), |Held(Reach(cfg, sched).inner)|)
    ensures Unsignalled(Reach(cfg, sched)) <= 1
  {
    hide Reach;
    var o := RunSound(cfg, sched);
  }

  /** Between calls of the producer, while no wait is going on, the semaphore's count, which is what
      `size_approx` returns, is the number of elements held. */
  lemma SizeIsExact<T>(cfg: Config, sched: seq<Move<T>>)
    requires Runs.Buildable(cfg)
    ensures var b := Reach(cfg, sched);
            b.taker.TIdle? || b.taker.TReturn? ==> b.sema.count + Unsignalled(b) == |Held(b.inner)|
  {
    hide Reach;
    var o := RunSound(cfg, sched);
  }

  /** A call is refused exactly if every element held, at most one, is one whose enqueue has not
      signalled yet: at the first load for an attempt, at the undo for a wait that timed out. */
  lemma RefusedMeansNothingSignalled<T>(cfg: Config, sched: seq<Move<T>>, a: Ask, expire: bool)
    requires Runs.Buildable(cfg)
    ensures var b := Reach(cfg, sched);
            var refused := ConsumerNext(b, a, expire).sema.waiter == M.WReturn(false);
            && (b.sema.waiter == M.WTryLoad(M.Once) || b.sema.waiter.WUndo? ==>
                  (refused <==> |Held(b.inner)| == Unsignalled(b)))
            && (!b.taker.TIdle? && refused ==>
                  |Held(b.inner)| == Unsignalled(b) && (b.inner.prod.PIdle? && b.sema.signaller.SIdle? ==> Held(b.inner) == []))
  {
    hide Reach;
    var o := RunSound(cfg, sched);
  }

  /** Nobody sleeps on an element: a consumer blocked in the kernel while an element is held has a token
      waiting for it, or the producer is still on its way to the signal or the post. */
  lemma NobodySleepsOnAnElement<T>(cfg: Config, sched: seq<Move<T>>)
    requires Runs.Buildable(cfg) && Reach(cfg, sched).sema.waiter.WBlock? && Held(Reach(cfg, sched).inner) != []
    ensures var b := Reach(cfg, sched);
            b.sema.tokens == 1 || b.inner.prod.PReturn? || !b.sema.signaller.SIdle?
  {
    hide Reach;
    var o := RunSound(cfg, sched);
  }

  // ---- A look that outruns the signal ----

  /** The smallest queue: one block of two slots. */
  const SMALL: Config := R.Config(1, 2, 1, 2)

  function OneBlock<T>(slots: seq<Slots.Slot<T>>, tail: nat, localTail: nat, prod: HeapSteps.Prod<T>, cons: HeapSteps.Cons<T>): HeapSteps.State<T> {
    HeapSteps.State([Node(Slots.Buf(1, 0, localTail, tail, 0, slots), Some(0))], 0, 0, 2, prod, cons)
  }

  lemma SmallIsBuildable()
    ensures Runs.Buildable(SMALL)
  {
    assert Words.Pow2(1) == 2;
  }

  lemma MaskOne()
    ensures Words.And(1, 1) == 1
  {
    assert Words.And(0, 0) == 0;
  }

  lemma Append<T>(sched: seq<Move<T>>, m: Move<T>) returns (sched': seq<Move<T>>)
    ensures sched' == sched + [m] && Reach(SMALL, sched') == Next(SMALL, Reach(SMALL, sched), m)
  {
    sched' := sched + [m];
    assert sched'[..|sched|] == sched;
  }

  lemma SmallStart<T>()
    ensures HeapSteps.Start<T>(SMALL) == OneBlock([Slots.Raw, Slots.Raw], 0, 0, PIdle, CIdle)
  {
    var slots: seq<Slots.Slot<T>> := seq(2, _ => Slots.Raw);
    assert slots == [Slots.Raw, Slots.Raw];
    var node := FreshNode<T>(2, Some(0));
    assert node.buf.slots == slots;
    assert HeapSteps.Start<T>(SMALL).nodes[0] == node;
    assert HeapSteps.Start<T>(SMALL).nodes == [node];
  }

  /** The producer has stored `tail` and has not returned yet. */
  lemma PublishedRun<T>(x: T) returns (sched: seq<Move<T>>)
    ensures Reach(SMALL, sched) == Queue(OneBlock([Slots.Cell(x), Slots.Raw], 1, 0, PReturn(x, true), CIdle), M.Start(0), TIdle)
  {
    MaskOne();
    sched := [];
    SmallStart<T>();
    assert Reach(SMALL, sched) == Start(SMALL);
    hide Reach, Words.And;
    var raw: seq<Slots.Slot<T>>, built := [Slots.Raw, Slots.Raw], [Slots.Cell(x), Slots.Raw];
    assert raw[0 := Slots.Cell(x)] == built;
    sched := Append(sched, ByProducer(R.Enqueue(x, false)));
    sched := Append(sched, ByProducer(R.Go));
    sched := Append(sched, ByProducer(R.Go));
    assert Reach(SMALL, sched).inner == OneBlock(raw, 0, 0, Construct(x, 0, 0), CIdle);
    sched := Append(sched, ByProducer(R.Go));
    assert Reach(SMALL, sched).inner == OneBlock(built, 0, 0, StTail(x, 0, 0), CIdle);
    sched := Append(sched, ByProducer(R.Go));
    assert Reach(SMALL, sched).inner == OneBlock(built, 1, 0, PReturn(x, true), CIdle);
  }

  /** The consumer looks and sees the element. */
  lemma LookedRun<T>(x: T) returns (sched: seq<Move<T>>)
    ensures Reach(SMALL, sched)
         == Queue(OneBlock([Slots.Cell(x), Slots.Raw], 1, 1, PReturn(x, true), CIdle), M.Start(0), TReturn(Look, Some(x)))
  {
    sched := PublishedRun(x);
    hide Reach, Words.And;
    sched := Append(sched, ByConsumer(Look, false));
    sched := Append(sched, ByConsumer(Look, false));
    sched := Append(sched, ByConsumer(Look, false));
    sched := Append(sched, ByConsumer(Look, false));
    sched := Append(sched, ByConsumer(Look, false));
    sched := Append(sched, ByConsumer(Look, false));
  }

  /** A run in which `peek` returns an element and the `try_dequeue` right after it is refused: the producer
      has not come to its signal, and makes no move in between. */
  lemma LookOutrunsSignal<T>(x: T) returns (early: seq<Move<T>>, more: seq<Move<T>>)
    ensures Runs.Buildable(SMALL)
    ensures Reach(SMALL, early).taker == TReturn(Look, Some(x))
    ensures Reach(SMALL, early + more).taker == TReturn(Try, None) && Held(Reach(SMALL, early + more).inner) != []
    ensures forall i :: 0 <= i < |more| ==> more[i] == ByConsumer(Try, false)
  {
    SmallIsBuildable();
    early := LookedRun(x);
    hide Reach, Words.And;
    var try: Move<T> := ByConsumer(Try, false);
    var sched := Append(early, try);
    sched := Append(sched, try);
    sched := Append(sched, try);
    sched := Append(sched, try);
    more := [try, try, try, try];
    assert sched == early + more;
  }

  // ---- Order ----

  /** The element whose inner enqueue returns in this move. */
  function StoredBy<T>(b: Queue<T>, m: Move<T>): seq<T> {
    if m.ByProducer? && b.sema.signaller.SIdle? && b.inner.prod.PReturn? && b.inner.prod.ok then [b.inner.prod.x] else []
  }

  /** The element that a call other than `peek` returns or discards in this move. */
  function WithdrawnBy<T>(b: Queue<T>, b': Queue<T>): seq<T> {
    if b.taker.Serving? && b'.taker.TReturn? && !b'.taker.a.Look? && b'.taker.reply.Some? then [b'.taker.reply.value] else []
  }

  function Stored<T>(cfg: Config, sched: seq<Move<T>>): seq<T>
    requires 0 < cfg.size && 0 < cfg.count
  {
    if sched == [] then []
    else
      var before := sched[..|sched| - 1];
      Stored(cfg, before) + StoredBy(Reach(cfg, before), sched[|sched| - 1])
  }

  function Withdrawn<T>(cfg: Config, sched: seq<Move<T>>): seq<T>
    requires 0 < cfg.size && 0 < cfg.count
  {
    if sched == [] then []
    else
      var before := sched[..|sched| - 1];
      Withdrawn(cfg, before) + WithdrawnBy(Reach(cfg, before), Reach(cfg, sched))
  }

  function AcceptedIn<T>(l: Label<T>): seq<T> { if l.RetEnq? && l.ok then [l.x] else [] }

  function RemovedIn<T>(l: Label<T>): seq<T> { if l.RetDeq? then RemovedBy(EventOf(l.call, l.reply)) else [] }

  lemma LabelsSnoc<T>(cfg: Config, qs: seq<Runs.Move<T>>, m: Runs.Move<T>)
    requires 0 < cfg.size && 0 < cfg.count
    ensures var t, t' := Runs.Labels(cfg, qs), Runs.Labels(cfg, qs + [m]);
            var l := Runs.Step(cfg, Runs.Reach(cfg, qs), m).1;
            && Accepted(t') == Accepted(t) + AcceptedIn(l)
            && Removed(Replied(t')) == Removed(Replied(t)) + RemovedIn(l)
  {
    hide Runs.Step;
    assert (qs + [m])[..|qs|] == qs;
    var t, l := Runs.Labels(cfg, qs), Runs.Step(cfg, Runs.Reach(cfg, qs), m).1;
    RepliedSnoc(t, l);
    if l.RetDeq? {
      SelectSnoc(Replied(t), EventOf(l.call, l.reply), RemovedBy);
    } else {
      assert Replied(t) + [] == Replied(t);
    }
  }

  lemma ProducerLabel<T>(cfg: Config, q: HeapSteps.State<T>, i: HeapSteps.Input<T>)
    ensures var l := HeapSteps.ProducerNext(cfg, q, i).1;
            AcceptedIn(l) == Reporting(q) && RemovedIn(l) == []
  {
    hide ProducerAt;
  }

  lemma ConsumerLabel<T>(q: HeapSteps.State<T>, i: HeapSteps.Input<T>)
    ensures var l := HeapSteps.ConsumerNext(q, i).1;
            && AcceptedIn(l) == []
            && RemovedIn(l) == (if q.cons.CReturn? then RemovedBy(EventOf(q.cons.call, q.cons.reply)) else [])
            && (l.RetDeq? <==> q.cons.CReturn?) && (l.RetDeq? ==> l.reply == q.cons.reply && l.call == q.cons.call)
  {
    hide ConsumerAt;
  }

  lemma PartLabel<T>(cfg: Config, b: Queue<T>, m: Move<T>, o: Obj<T>)
    requires Sound(b, o) && Seen(b.inner, o)
    ensures var part := InnerPart(b, m);
            if part == [] then StoredBy(b, m) == [] && WithdrawnBy(b, Next(cfg, b, m)) == []
            else var l := Runs.Step(cfg, b.inner, part[0]).1;
                 StoredBy(b, m) == AcceptedIn(l) && WithdrawnBy(b, Next(cfg, b, m)) == RemovedIn(l)
  {
    hide HeapSteps.ProducerNext, HeapSteps.ConsumerNext, M.Inv, Balanced, M.WaiterNext, M.SignallerNext;
    var part := InnerPart(b, m);
    if part != [] {
      StepIsRun(cfg, b.inner, part[0].i);
      ProducerLabel(cfg, b.inner, part[0].i);
      ConsumerLabel(b.inner, part[0].i);
    }
  }

  lemma ProjectedStep<T>(cfg: Config, b: Queue<T>, m: Move<T>, qs: seq<Runs.Move<T>>, o: Obj<T>)
    requires Runs.Buildable(cfg) && b.inner == Runs.Reach(cfg, qs) && Sound(b, o) && Seen(b.inner, o)
    ensures var t, t' := Runs.Labels(cfg, qs), Runs.Labels(cfg, qs + InnerPart(b, m));
            && Accepted(t') == Accepted(t) + StoredBy(b, m)
            && Removed(Replied(t')) == Removed(Replied(t)) + WithdrawnBy(b, Next(cfg, b, m))
  {
    hide Sound, Seen, Runs.Reach, Runs.Step, Next, StoredBy, WithdrawnBy, Runs.Labels, Accepted, Removed, Replied, RemovedIn,
         InnerPart, AcceptedIn;
    PartLabel(cfg, b, m, o);
    var part := InnerPart(b, m);
    if part == [] {
      assert qs + part == qs;
    } else {
      OnePart(b, m);
      assert part == [part[0]];
      LabelsSnoc(cfg, qs, part[0]);
    }
  }

  lemma OnePart<T>(b: Queue<T>, m: Move<T>)
    ensures |InnerPart(b, m)| <= 1
  {
  }

  /** What goes in and out of the blocking queue goes in and out of its inner queue. */
  lemma {:induction false} Projected<T>(cfg: Config, sched: seq<Move<T>>)
    requires Runs.Buildable(cfg)
    ensures Accepted(Runs.Labels(cfg, InnerSched(cfg, sched))) == Stored(cfg, sched)
    ensures Removed(Replied(Runs.Labels(cfg, InnerSched(cfg, sched)))) == Withdrawn(cfg, sched)
    decreases |sched|
  {
    hide Sound, Seen, Next, StoredBy, WithdrawnBy, InnerPart, Accepted, Removed;
    if sched == [] {
      StartProjected<T>(cfg);
    } else {
      var before, m := sched[..|sched| - 1], sched[|sched| - 1];
      Projected(cfg, before);
      var o := RunSound(cfg, before);
      ProjectedStep(cfg, Reach(cfg, before), m, InnerSched(cfg, before), o);
      assert Reach(cfg, sched) == Next(cfg, Reach(cfg, before), m);
    }
  }

  lemma StartProjected<T>(cfg: Config)
    requires Runs.Buildable(cfg)
    ensures var t := Runs.Labels<T>(cfg, []); Accepted(t) == [] && Removed(Replied(t)) == []
  {
  }

  /** First in, first out, over every run: what was withdrawn, then what is being handed over, then what
      is held, is what was stored, in order. */
  lemma BlockingFirstInFirstOut<T>(cfg: Config, sched: seq<Move<T>>) returns (q: seq<T>)
    requires Runs.Buildable(cfg)
    ensures var b := Reach(cfg, sched);
            && Stored(cfg, sched) + Reporting(b.inner) == Withdrawn(cfg, sched) + Removed(Answering(b.inner)) + q
            && Held(b.inner) == Hole(Cells(q), b.inner.cons.CStFront?)
  {
    hide Reach;
    var qs := InnerSched(cfg, sched);
    var o := RunSound(cfg, sched);
    Projected(cfg, sched);
    q := FirstInFirstOut(cfg, qs);
    RemovedConcat(Replied(Runs.Labels(cfg, qs)), Answering(Reach(cfg, sched).inner));
  }

  lemma RemovedConcat<T>(h: seq<Event<T>>, k: seq<Event<T>>)
    requires |k| <= 1
    ensures Removed(h + k) == Removed(h) + Removed(k)
  {
    if k == [] {
      assert h + k == h;
    } else {
      assert k == [] + [k[0]];
      SelectSnoc(h, k[0], RemovedBy);
      SelectSnoc([], k[0], RemovedBy);
    }
  }

  // ---- Real time ----

  predicate IdleAfter<T>(cfg: Config, sched: seq<Move<T>>, i: nat)
    requires 0 < cfg.size && 0 < cfg.count && i <= |sched|
  {
    Reach(cfg, sched[..i]).inner.cons.CIdle?
  }

  /** `h` begins with what was stored and withdrawn by the end of `early`, and with that alone, but for looks;
      it leaves what the queue held then. */
  ghost predicate Cut<T>(cfg: Config, early: seq<Move<T>>, h: seq<Event<T>>, k: nat)
    requires 0 < cfg.size && 0 < cfg.count
  {
    var c := Reach(cfg, early).inner;
    && k <= |h| && Values(h[..k]) == Stored(cfg, early) + Reporting(c) && Removed(h[..k]) == Withdrawn(cfg, early)
    && Replay([], h[..k]).Some? && Held(c) == Cells(Replay([], h[..k]).value)
  }

  lemma {:induction false} InnerPrefix<T>(cfg: Config, sched: seq<Move<T>>, i: nat)
    requires Runs.Buildable(cfg) && i <= |sched|
    ensures InnerSched(cfg, sched[..i]) <= InnerSched(cfg, sched)
    decreases |sched|
  {
    if i == |sched| {
      assert sched[..i] == sched;
    } else {
      var before := sched[..|sched| - 1];
      assert before[..i] == sched[..i];
      InnerPrefix(cfg, before, i);
    }
  }

  lemma InnerCut<T>(cfg: Config, sched: seq<Move<T>>, i: nat, h: seq<Event<T>>)
    requires Runs.Buildable(cfg) && i <= |sched| && IdleAfter(cfg, sched, i) && KeepsTime(cfg, InnerSched(cfg, sched), h)
    ensures Cut(cfg, sched[..i], h, Settled(cfg, InnerSched(cfg, sched[..i])))
  {
    var early, qs := sched[..i], InnerSched(cfg, sched);
    var j := |InnerSched(cfg, early)|;
    InnerPrefix(cfg, sched, i);
    assert qs[..j] == InnerSched(cfg, early);
    var o := RunSound(cfg, early);
    Projected(cfg, early);
    hide Reach, InnerSched, Stored, Withdrawn, Runs.Reach, Runs.Labels, Sound, Seen, Held, Settled;
    assert QueueTheorems.IdleAfter(cfg, qs, j);
    assert QueueTheorems.Cut(cfg, qs[..j], h);
    RemovedOfAnswers(h[..Settled(cfg, qs[..j])]);
  }

  /** Every run of the blocking queue is linearizable in what it stores and withdraws: one history that a FIFO
      queue allows has the stored and the withdrawn elements, leaves what is held, and begins, at every moment
      at which the inner queue's consumer is idle, with exactly what was stored and withdrawn by then. */
  lemma BlockingLinearizable<T>(cfg: Config, sched: seq<Move<T>>) returns (h: seq<Event<T>>)
    requires Runs.Buildable(cfg)
    ensures var c := Reach(cfg, sched).inner;
            && Values(h) == Stored(cfg, sched) + Reporting(c) && Removed(h) == Withdrawn(cfg, sched) + Removed(Answering(c))
            && Replay([], h).Some? && Held(c) == Hole(Cells(Replay([], h).value), c.cons.CStFront?)
    ensures forall i :: 0 <= i <= |sched| && IdleAfter(cfg, sched, i) ==>
              Cut(cfg, sched[..i], h, Settled(cfg, InnerSched(cfg, sched[..i])))
  {
    var qs := InnerSched(cfg, sched);
    h := Linearizable(cfg, qs);
    var o := RunSound(cfg, sched);
    Projected(cfg, sched);
    hide Reach, InnerSched, Stored, Withdrawn, Runs.Reach, Runs.Labels, Sound, Seen, Held, Settled, Cut, KeepsTime, IdleAfter;
    RemovedOfAnswers(h);
    RemovedConcat(Replied(Runs.Labels(cfg, qs)), Answering(Reach(cfg, sched).inner));
    forall i | 0 <= i <= |sched| && IdleAfter(cfg, sched, i)
      ensures Cut(cfg, sched[..i], h, Settled(cfg, InnerSched(cfg, sched[..i])))
    {
      InnerCut(cfg, sched, i, h);
    }
  }
}
