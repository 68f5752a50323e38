/** What the queue promises, for every schedule of accesses by one producer and one consumer. */
module QueueTheorems {
  import opened Wrappers
  import opened Fifo
  import opened Blocks
  import opened Words
  import opened Slots
  import opened HeapSteps
  import opened HeapRefinement
  import opened HeapView
  import opened Runs
  import R = RingSteps
  import RingRefinement
  import Teardown

  /** The answer the consumer is about to get, and the value whose enqueue is about to report success. */
  function Answering<T>(c: State<T>): seq<Event<T>> {
    if c.cons.CReturn? then [EventOf(c.cons.call, c.cons.reply)] else []
  }

  function Reporting<T>(c: State<T>): seq<T> {
    if c.prod.PReturn? && c.prod.ok then [c.prod.x] else []
  }

  /** No assertion of the source fails, no element is constructed over another, no raw slot is read or
      destroyed, no pointer is bad. */
  lemma NeverFaults<T>(cfg: Config, sched: seq<Move<T>>)
    requires Buildable(cfg)
    ensures !Reach(cfg, sched).prod.PFault? && !Reach(cfg, sched).cons.CFault?
  {
    hide Reach, Labels, Rel, RingRefinement.Refines, Remembers, Agrees;
    var s, order, o := RunExplained(cfg, sched);
    RelatedIsSafe(cfg, Reach(cfg, sched), s, order);
  }

  lemma RelatedIsSafe<T>(cfg: Config, c: State<T>, s: R.State<T>, order: seq<Id>)
    requires Rel(cfg, c, s, order)
    ensures !c.prod.PFault? && !c.cons.CFault?
  {
    hide Shape, R.StateOk;
  }

  /** The ring, in every run: `next` closes one cycle through all linked blocks; the blocks strictly
      between front and tail are full; none after the front up to the tail is empty; those outside the
      arc are, but for an element not published yet; and in every block the indices are the counters
      modulo its size, each side's copy lagging behind the other's counter. */
  lemma RingInEveryRun<T>(cfg: Config, sched: seq<Move<T>>) returns (blocks: seq<Blk<T>>, tp: nat, order: seq<Id>)
    requires Buildable(cfg)
    ensures var c := Reach(cfg, sched);
            && 0 <= InRing(c) && Linked(c.nodes, order, InRing(c)) && |order| == |blocks| && RingOk(blocks, tp)
            && c.frontBlock == order[0] && c.tailBlock == order[tp]
            && SpareOk(blocks, tp, c.prod.StTailBlock?)
            && forall i :: 0 <= i < |order| ==>
                 Ok(blocks[i]) && BufRep(c.nodes[order[i]].buf, blocks[i], c.cons.CStFront? && i == 0, BuiltAt(c.prod, tp, i))
  {
    hide Reach, Labels, RingRefinement.Refines, Remembers, Agrees, BufRep;
    var s;
    var o;
    s, order, o := RunExplained(cfg, sched);
    blocks, tp := s.blocks, s.tp;
    Publishing(Reach(cfg, sched), s, order);
  }

  lemma Publishing<T>(c: State<T>, s: R.State<T>, order: seq<Id>)
    requires Shape(c, s, order) && ProdRel(c, s, order)
    ensures c.prod.StTailBlock? <==> s.prod.PWritten?
  {
    hide Reps, Linked;
  }

  /** The slot that the producer is about to construct in, if it is. */
  function SlotToBuild<T>(p: Prod<T>): Option<(Id, nat)> {
    match p
    case Construct(_, tb, bt) => Some((tb, bt))
    case ConstructSpare(_, nb, nt) => Some((nb, nt))
    case _ => None
  }

  /** Slot ownership: while the consumer has emptied a slot and not stored `front` yet, the producer does not
      construct there, although the slot is raw. */
  lemma EmptiedSlotIsReserved<T>(cfg: Config, sched: seq<Move<T>>)
    requires Buildable(cfg) && Reach(cfg, sched).cons.CStFront? && SlotToBuild(Reach(cfg, sched).prod).Some?
    ensures var c := Reach(cfg, sched); SlotToBuild(c.prod).value != (c.cons.fb, c.cons.bf)
  {
    hide Reach, Labels, RingRefinement.Refines, Remembers, Agrees;
    var s, order, o := RunExplained(cfg, sched);
    ReservedIn(cfg, Reach(cfg, sched), s, order);
  }

  lemma ReservedIn<T>(cfg: Config, c: State<T>, s: R.State<T>, order: seq<Id>)
    requires Rel(cfg, c, s, order) && c.cons.CStFront? && SlotToBuild(c.prod).Some?
    ensures SlotToBuild(c.prod).value != (c.cons.fb, c.cons.bf)
  {
    var k := if c.prod.Construct? then s.tp else s.tp + 1;
    PlacesOf(c, s, order);
    var b := s.blocks[0];
    assert Ok(b) && b.front < |b.log| by { FrontLive(cfg, s); }
    if k == 0 {
      TailSlot(c, s, order);
      IdxInjective(b.front, |b.log|, b.size);
    } else {
      DistinctIds(c, s, order, k);
    }
    hide Rel;
  }

  lemma PlacesOf<T>(c: State<T>, s: R.State<T>, order: seq<Id>)
    requires Shape(c, s, order) && ProdRel(c, s, order) && ConsRel(c, s, order) && c.cons.CStFront? && SlotToBuild(c.prod).Some?
    ensures s.cons.CTaken? && c.cons.fb == order[0] && c.cons.bf == c.nodes[order[0]].buf.front
    ensures var k := if c.prod.Construct? then s.tp else s.tp + 1;
            && k < |order| == |s.blocks| && SlotToBuild(c.prod).value == (order[k], c.nodes[order[k]].buf.tail)
  {
    hide Reps, Linked;
  }

  lemma FrontLive<T>(cfg: Config, s: R.State<T>)
    requires R.StateOk(cfg, s) && s.cons.CTaken?
    ensures Ok(s.blocks[0]) && s.blocks[0].front < |s.blocks[0].log|
  {
  }

  lemma TailSlot<T>(c: State<T>, s: R.State<T>, order: seq<Id>)
    requires Shape(c, s, order) && s.tp < |order|
    ensures var f, b := c.nodes[order[0]].buf, s.blocks[0];
            0 < b.size && f.front == Idx(b.front, b.size) && f.tail == Idx(|b.log|, b.size)
  {
    hide SlotsRep;
    assert order[0] < |c.nodes|;
    assert BufRep(c.nodes[order[0]].buf, s.blocks[0], c.cons.CStFront?, BuiltAt(c.prod, s.tp, 0));
  }

  lemma DistinctIds<T>(c: State<T>, s: R.State<T>, order: seq<Id>, k: nat)
    requires Shape(c, s, order) && 0 < k < |order|
    ensures order[0] != order[k]
  {
    hide Reps;
  }

  /** Which calls are going on and what is about to be returned, in the object's terms. */
  lemma AboutToReturn<T>(cfg: Config, c: State<T>, s: R.State<T>, order: seq<Id>, o: Obj<T>)
    requires Rel(cfg, c, s, order) && RingRefinement.Refines(cfg, s, o)
    ensures Unreplied(o.consumer) == Answering(c)
    ensures Unreported(o.producer) == Reporting(c)
    ensures o.producer.NoEnq? <==> c.prod.PIdle?
    ensures o.consumer.NoDeq? <==> c.cons.CIdle?
    ensures c.prod.PReturn? ==> o.producer.DoneEnq? && o.producer.ok == c.prod.ok
    ensures c.cons.CReturn? ==> o.consumer == DoneDeq(c.cons.call, c.cons.reply)
    ensures o.consumer.DoneDeq? ==> c.cons.CReturn?
  {
    hide Shape, R.StateOk, RingRefinement.MemoryMatches;
    ProducerAboutToReturn(c, s, order, o);
    ConsumerAboutToReturn(c, s, order, o);
  }

  lemma ProducerAboutToReturn<T>(c: State<T>, s: R.State<T>, order: seq<Id>, o: Obj<T>)
    requires Shape(c, s, order) && ProdRel(c, s, order) && RingRefinement.ProducerMatches(s, o.producer)
    ensures Unreported(o.producer) == Reporting(c)
    ensures o.producer.NoEnq? <==> c.prod.PIdle?
    ensures c.prod.PReturn? ==> o.producer.DoneEnq? && o.producer.ok == c.prod.ok
  {
    hide Reps, Linked;
  }

  lemma ConsumerAboutToReturn<T>(c: State<T>, s: R.State<T>, order: seq<Id>, o: Obj<T>)
    requires Shape(c, s, order) && ConsRel(c, s, order) && RingRefinement.ConsumerMatches(s, o.consumer)
    ensures Unreplied(o.consumer) == Answering(c)
    ensures o.consumer.NoDeq? <==> c.cons.CIdle?
    ensures c.cons.CReturn? ==> o.consumer == DoneDeq(c.cons.call, c.cons.reply)
    ensures o.consumer.DoneDeq? ==> c.cons.CReturn?
  {
    hide Reps, Linked;
  }

  /** The number of calls settled by a schedule that leaves the consumer idle: consumer calls answered, and
      enqueues that have taken effect. */
  ghost function Settled<T>(cfg: Config, sched: seq<Move<T>>): nat
    requires 0 < cfg.size && 0 < cfg.count
  {
    |Replied(Labels(cfg, sched))| + |Accepted(Labels(cfg, sched)) + Reporting(Reach(cfg, sched))|
  }

  /** `h` begins with the calls settled by `early`, and with them alone, and they leave what the memory held
      then. */
  ghost predicate Cut<T>(cfg: Config, early: seq<Move<T>>, h: seq<Event<T>>)
    requires 0 < cfg.size && 0 < cfg.count
  {
    var k, t, c := Settled(cfg, early), Labels(cfg, early), Reach(cfg, early);
    && k <= |h| && Answers(h[..k]) == Replied(t) && Values(h[..k]) == Accepted(t) + Reporting(c)
    && Replay([], h[..k]).Some? && Held(c) == Cells(Replay([], h[..k]).value)
  }

  predicate IdleAfter<T>(cfg: Config, sched: seq<Move<T>>, i: nat)
    requires 0 < cfg.size && 0 < cfg.count && i <= |sched|
  {
    Reach(cfg, sched[..i]).cons.CIdle?
  }

  /** The history respects real time: at every moment at which the consumer is between two calls, the calls
      settled by then come first. */
  ghost predicate KeepsTime<T>(cfg: Config, sched: seq<Move<T>>, h: seq<Event<T>>)
    requires 0 < cfg.size && 0 < cfg.count
  {
    forall i :: 0 <= i <= |sched| && IdleAfter(cfg, sched, i) ==> Cut(cfg, sched[..i], h)
  }

  /** What a pending call may still insert goes behind the calls settled before it. */
  ghost predicate Timed<T>(cfg: Config, sched: seq<Move<T>>, o: Obj<T>)
    requires 0 < cfg.size && 0 < cfg.count
  {
    && KeepsTime(cfg, sched, o.hist)
    && (o.consumer.PendingDeq? ==>
          forall i :: 0 <= i <= |sched| && IdleAfter(cfg, sched, i) ==> Settled(cfg, sched[..i]) <= o.consumer.since)
  }

  lemma CutNow<T>(cfg: Config, sched: seq<Move<T>>, s: R.State<T>, order: seq<Id>, o: Obj<T>)
    requires Buildable(cfg) && Explains(cfg, sched, s, order, o) && Reach(cfg, sched).cons.CIdle?
    ensures Cut(cfg, sched, o.hist) && !o.consumer.PendingDeq?
  {
    hide Reach, Labels, Rel, RingRefinement.Refines, Remembers, Held;
    AboutToReturn(cfg, Reach(cfg, sched), s, order, o);
    LengthIs(cfg, Reach(cfg, sched), s, order, o);
    PutsAndAnswers(o.hist);
    assert Replied(Labels(cfg, sched)) + [] == Replied(Labels(cfg, sched));
    assert o.hist[..|o.hist|] == o.hist;
  }

  lemma CutKept<T>(cfg: Config, early: seq<Move<T>>, h: seq<Event<T>>, h': seq<Event<T>>)
    requires Buildable(cfg) && Cut(cfg, early, h)
    requires Settled(cfg, early) <= |h'| && h'[..Settled(cfg, early)] == h[..Settled(cfg, early)]
    ensures Cut(cfg, early, h')
  {
    hide Settled;
  }

  lemma TimedStep<T>(cfg: Config, sched: seq<Move<T>>, m: Move<T>, o: Obj<T>, s': R.State<T>, order': seq<Id>, o': Obj<T>, l: Label<T>)
    requires Buildable(cfg) && Timed(cfg, sched, o) && Fifo.Inv(cfg.cap, o) && Fifo.Step(cfg.cap, o, o', l)
    requires Explains(cfg, sched + [m], s', order', o')
    ensures Timed(cfg, sched + [m], o')
  {
    hide Explains, Fifo.Inv, Fifo.Step, Reach, Cut, Settled;
    var sched' := sched + [m];
    forall i | 0 <= i <= |sched'| && IdleAfter(cfg, sched', i)
      ensures Cut(cfg, sched'[..i], o'.hist)
      ensures o'.consumer.PendingDeq? ==> Settled(cfg, sched'[..i]) <= o'.consumer.since
    {
      if i <= |sched| {
        assert sched'[..i] == sched[..i] && IdleAfter(cfg, sched, i);
        CutFits(cfg, sched[..i], o.hist);
        PrefixKept(cfg.cap, o, o', l, Settled(cfg, sched[..i]));
        CutKept(cfg, sched[..i], o.hist, o'.hist);
      } else {
        assert sched'[..i] == sched';
        CutNow(cfg, sched', s', order', o');
      }
    }
  }

  lemma CutFits<T>(cfg: Config, early: seq<Move<T>>, h: seq<Event<T>>)
    requires Buildable(cfg) && Cut(cfg, early, h)
    ensures Settled(cfg, early) <= |h|
  {
    hide Settled;
  }

  lemma StartTimed<T>(cfg: Config)
    requires Buildable(cfg)
    ensures Timed(cfg, [], Fifo.Init<T>())
  {
    StartExplained<T>(cfg);
    CutNow(cfg, [], R.Start<T>(cfg), Upto(cfg.count), Fifo.Init<T>());
    hide Cut, Settled, Reach;
    var none: seq<Move<T>> := [];
    assert none[..0] == none;
  }

  lemma {:induction false} RunTimed<T>(cfg: Config, sched: seq<Move<T>>)
    returns (s: R.State<T>, order: seq<Id>, o: Obj<T>)
    requires Buildable(cfg)
    ensures Explains(cfg, sched, s, order, o) && Timed(cfg, sched, o)
    decreases |sched|
  {
    hide Timed, Rel, RingRefinement.Refines, Agrees, Remembers, Fifo.Inv, Reach, Labels, Fifo.ProducerStep, Fifo.ConsumerStep;
    if sched == [] {
      s, order, o := R.Start(cfg), Upto(cfg.count), Fifo.Init();
      StartExplained<T>(cfg);
      StartTimed<T>(cfg);
    } else {
      var before, m := sched[..|sched| - 1], sched[|sched| - 1];
      var s0, order0, o0 := RunTimed(cfg, before);
      s, order, o := MoveExplained(cfg, before, m, s0, order0, o0);
      TimedStep(cfg, before, m, o0, s, order, o, LastLabel(cfg, before + [m]));
      assert before + [m] == sched;
    }
  }

  /** Every run is linearizable: there is one sequential history that a FIFO queue allows, whose answers
      are those the consumer got, whose values are those whose enqueue reported success, which leaves
      what the memory holds, and which respects real time. */
  lemma Linearizable<T>(cfg: Config, sched: seq<Move<T>>) returns (h: seq<Event<T>>)
    requires Buildable(cfg)
    ensures Answers(h) == Replied(Labels(cfg, sched)) + Answering(Reach(cfg, sched))
    ensures Values(h) == Accepted(Labels(cfg, sched)) + Reporting(Reach(cfg, sched))
    ensures Replay([], h).Some?
    ensures Held(Reach(cfg, sched)) == Hole(Cells(Replay([], h).value), Reach(cfg, sched).cons.CStFront?)
    ensures KeepsTime(cfg, sched, h)
  {
    hide Reach, Labels, KeepsTime, Held;
    var s, order, o := RunTimed(cfg, sched);
    AboutToReturn(cfg, Reach(cfg, sched), s, order, o);
    LengthIs(cfg, Reach(cfg, sched), s, order, o);
    h := o.hist;
  }

  /** What `KeepsTime` means for two calls, the entries `a` of an enqueue and `b` of a consumer call.  If at
      some moment between the consumer's calls the enqueue has returned and the consumer's call has not been
      made, the enqueue comes first; if the consumer's call has returned and the enqueue has not taken
      effect (let alone been made), the consumer's call comes first. */
  lemma RealTimeOrder<T>(cfg: Config, sched: seq<Move<T>>, i: nat, h: seq<Event<T>>, a: nat, b: nat)
    requires Buildable(cfg) && KeepsTime(cfg, sched, h) && i <= |sched| && IdleAfter(cfg, sched, i)
    requires a < |h| && b < |h| && h[a].Put? && !h[b].Put?
    ensures var t := Labels(cfg, sched[..i]);
            |Values(h[..a])| < |Accepted(t)| && |Replied(t)| <= |Answers(h[..b])| ==> a < b
    ensures var t := Labels(cfg, sched[..i]);
            |Answers(h[..b])| < |Replied(t)| && |Accepted(t) + Reporting(Reach(cfg, sched[..i]))| <= |Values(h[..a])| ==> b < a
  {
    hide Reach, Labels, Settled, Values, Answers, Replied, Accepted, Held;
    var k := Settled(cfg, sched[..i]);
    assert Cut(cfg, sched[..i], h);
    if a < k { PrefixCounts(h, a, k); } else { PrefixCounts(h, k, a); }
    if b < k { PrefixCounts(h, b, k); } else { PrefixCounts(h, k, b); }
  }

  /** First in, first out, and nothing lost or doubled: what was removed, then what is held, is what
      was accepted, in order. */
  lemma FirstInFirstOut<T>(cfg: Config, sched: seq<Move<T>>) returns (q: seq<T>)
    requires Buildable(cfg)
    ensures var c, t := Reach(cfg, sched), Labels(cfg, sched);
            && Accepted(t) + Reporting(c) == Removed(Replied(t) + Answering(c)) + q
            && Held(c) == Hole(Cells(q), c.cons.CStFront?)
  {
    var h := Linearizable(cfg, sched);
    q := Replay([], h).value;
    Conservation(h);
    RemovedOfAnswers(h);
  }

  /** A consumer call reports an empty queue only if it was empty at some moment since the call. */
  lemma MissMeansEmpty<T>(cfg: Config, sched: seq<Move<T>>)
    requires Buildable(cfg) && Reach(cfg, sched).cons.CReturn? && Reach(cfg, sched).cons.reply.None?
    ensures EmptySinceCall(cfg, sched)
  {
    hide Reach, Labels;
    var s, order, o := RunExplained(cfg, sched);
    AboutToReturn(cfg, Reach(cfg, sched), s, order, o);
  }

  /** An enqueue fails, for want of a free block or of memory for a new one, only if at least `maxSize`
      elements were held when it was called. */
  lemma RefusalMeansFull<T>(cfg: Config, sched: seq<Move<T>>)
    requires Buildable(cfg) && Reach(cfg, sched).prod.PReturn? && !Reach(cfg, sched).prod.ok
    ensures LengthAtCall(cfg, sched) >= cfg.cap
  {
    hide Reach, Labels;
    var s, order, o := RunExplained(cfg, sched);
    AboutToReturn(cfg, Reach(cfg, sched), s, order, o);
  }

  /** The number of blocks that a greatest length of `peak` accounts for. */
  function BlocksFor(count: nat, size: nat, peak: nat): nat
    requires 2 <= size
  {
    Max(count, 2 + peak / (size - 1))
  }

  lemma AffordableBlocks(cfg: Config, n: nat, peak: nat)
    requires RingRefinement.Affordable(cfg, n, peak) && 2 <= cfg.size
    ensures n <= BlocksFor(cfg.count, cfg.size, peak)
  {
    var d := cfg.size - 1;
    if 2 < n {
      assert peak == d * (peak / d) + peak % d;
      MulStep(d, peak / d, n - 2);
    }
  }

  /** No more blocks than the greatest length accounts for, and none beyond the first ones unless an
      enqueue was called with `maxSize` elements held. */
  lemma MemoryBound<T>(cfg: Config, sched: seq<Move<T>>)
    requires Buildable(cfg)
    ensures |Reach(cfg, sched).nodes| <= BlocksFor(cfg.count, cfg.size, Peak(cfg, sched))
    ensures |Reach(cfg, sched).nodes| > cfg.count ==> CalledWhenFull(cfg, sched)
  {
    hide Reach, Labels;
    var s, order, o := RunExplained(cfg, sched);
    AllocatedBlocks(cfg, Reach(cfg, sched), s, order, o);
    AffordableBlocks(cfg, |Reach(cfg, sched).nodes|, o.peak);
  }

  lemma AllocatedBlocks<T>(cfg: Config, c: State<T>, s: R.State<T>, order: seq<Id>, o: Obj<T>)
    requires Buildable(cfg) && Rel(cfg, c, s, order) && RingRefinement.Refines(cfg, s, o)
    ensures RingRefinement.Affordable(cfg, |c.nodes|, o.peak)
    ensures |c.nodes| > cfg.count ==> o.crowded
  {
    hide R.StateOk, RingRefinement.ProducerMatches, RingRefinement.ConsumerMatches, ConsRel, ProdRel, Reps, Linked;
    RingCount(c, s, order);
    LinkPending(c, s, order);
    hide Shape;
  }

  lemma RingCount<T>(c: State<T>, s: R.State<T>, order: seq<Id>)
    requires Shape(c, s, order)
    ensures InRing(c) == |s.blocks|
  {
    hide Reps;
  }

  lemma LinkPending<T>(c: State<T>, s: R.State<T>, order: seq<Id>)
    requires Shape(c, s, order) && ProdRel(c, s, order)
    ensures InRing(c) < |c.nodes| ==> s.prod.PLink?
  {
    hide Reps, Linked;
  }

  /** `peek` is binding: the consumer's next call removes, or sees again, the element it returned, even
      if enqueues and new blocks come in between. */
  lemma PeekIsBinding<T>(cfg: Config, sched: seq<Move<T>>, i: nat, x: T)
    requires Buildable(cfg)
    requires i + 1 < |Replied(Labels(cfg, sched))| && Replied(Labels(cfg, sched))[i] == Saw(x)
    ensures Replied(Labels(cfg, sched))[i + 1] == Took(x) || Replied(Labels(cfg, sched))[i + 1] == Saw(x)
  {
    var h := Linearizable(cfg, sched);
    LookBinds(h, i, x);
  }

  /** The outcome of a destructor that destroys `q`, in order, and leaves every slot raw. */
  ghost predicate Destroys<T>(c: State<T>, q: seq<T>) {
    var r := Teardown.Destroy(c);
    && r.Some? && r.value.1 == q && |r.value.0| == |c.nodes|
    && forall id :: 0 <= id < |c.nodes| ==> AllRaw(r.value.0[id].buf.slots)
  }

  lemma DestroysQueue<T>(cfg: Config, c: State<T>, s: R.State<T>, order: seq<Id>, o: Obj<T>)
    requires Rel(cfg, c, s, order) && RingRefinement.Refines(cfg, s, o) && c.prod.PIdle? && c.cons.CIdle?
    ensures Destroys(c, o.queue)
  {
    Teardown.DestroyIs(cfg, c, s, order);
    hide Joined, R.StateOk, Teardown.Destroy, AllRaw;
  }

  /** Over a run that ends in the destructor every accepted element is destroyed exactly once, by the
      consumer or by the destructor, in the order of acceptance, and no slot is left constructed. */
  lemma DestroyedOnce<T>(cfg: Config, sched: seq<Move<T>>) returns (q: seq<T>)
    requires Buildable(cfg) && Reach(cfg, sched).prod.PIdle? && Reach(cfg, sched).cons.CIdle?
    ensures Destroys(Reach(cfg, sched), q)
    ensures Accepted(Labels(cfg, sched)) == Removed(Replied(Labels(cfg, sched))) + q
  {
    hide Reach, Labels, Rel, RingRefinement.Refines, Remembers, Destroys;
    var s, order, o := RunExplained(cfg, sched);
    q := o.queue;
    DestroysQueue(cfg, Reach(cfg, sched), s, order, o);
    AboutToReturn(cfg, Reach(cfg, sched), s, order, o);
    Conservation(o.hist);
    RemovedOfAnswers(o.hist);
    assert Answers(o.hist) == Replied(Labels(cfg, sched));
    assert Values(o.hist) == Accepted(Labels(cfg, sched));
  }

  // ---- Wait-freedom ----

  /** Upper bounds on a thread's own steps to the end of its call. */
  function ProducerRank<T>(p: Prod<T>): nat {
    match p
    case PIdle => 0
    case PFault => 0
    case PReturn(_, _) => 1
    case StTail(_, _, _) => 2
    case StTailBlock(_, _) => 2
    case Construct(_, _, _) => 3
    case StNext(_, _, _) => 3
    case StSpareTail(_, _, _) => 3
    case LdNextForNew(_, _, _) => 4
    case ConstructSpare(_, _, _) => 4
    case Alloc(_, _) => 5
    case LdSpareTail(_, _, _) => 5
    case LdSpareFront(_, _) => 6
    case LdNextAgain(_, _) => 7
    case LdFrontBlock(_, _, _, _) => 8
    case LdNext(_, _, _) => 9
    case LdFront(_, _, _, _) => 10
    case LdTail(_, _, _) => 11
    case LdTailBlock(_, _) => 12
  }

  function ConsumerRank<T>(k: Cons<T>): nat {
    match k
    case CIdle => 0
    case CFault => 0
    case CReturn(_, _) => 1
    case CStFront(_, _, _, _) => 2
    case CTake(_, _, _) => 3
    case CStFrontBlock(_, _, _) => 4
    case CLdNextTail(_, _, _) => 5
    case CLdNextFront(_, _) => 6
    case CLdNext(_, _) => 7
    case CLdFrontAgain(_, _, _) => 8
    case CLdTailAgain(_, _) => 9
    case CLdFrontBlockAgain(_) => 10
    case CLdTailBlock(_, _) => 11
    case CLdTail(_, _, _) => 12
    case CLdFront(_, _) => 13
    case CLdFrontBlock(_) => 14
  }

  /** Wait-freedom: each step of a thread brings its own call nearer to its end, and no step of the
      other thread sets it back, so that a call takes at most 12 steps of the producer or 14 of the
      consumer whatever the other side does. */
  lemma ProducerWaitFree<T>(cfg: Config, c: State<T>, i: Input<T>)
    ensures var p := HeapSteps.ProducerNext(cfg, c, i).0;
            && p.cons == c.cons && ProducerRank(p.prod) <= 12
            && (!c.prod.PIdle? && !c.prod.PFault? ==> ProducerRank(p.prod) < ProducerRank(c.prod))
  {
    if ProdBlock(c.prod).None? {
      ProducerFreeRank(cfg, c, i);
    } else if ProdBlock(c.prod).value < |c.nodes| {
      ProducerAtRank(c, ProdBlock(c.prod).value);
    }
    hide ProducerFree, ProducerAt;
  }

  lemma ProducerFreeRank<T>(cfg: Config, c: State<T>, i: Input<T>)
    requires ProdBlock(c.prod).None?
    ensures var p := ProducerFree(cfg, c, i).0;
            && p.cons == c.cons && ProducerRank(p.prod) <= 12
            && (!c.prod.PIdle? && !c.prod.PFault? ==> ProducerRank(p.prod) < ProducerRank(c.prod))
  {
  }

  lemma ProducerAtRank<T>(c: State<T>, id: Id)
    requires id < |c.nodes| && ProdBlock(c.prod).Some?
    ensures var p := ProducerAt(c, id);
            p.cons == c.cons && ProducerRank(p.prod) < ProducerRank(c.prod) <= 12
  {
  }

  lemma ConsumerWaitFree<T>(c: State<T>, i: Input<T>)
    ensures var k := HeapSteps.ConsumerNext(c, i).0;
            && k.prod == c.prod && ConsumerRank(k.cons) <= 14
            && (!c.cons.CIdle? && !c.cons.CFault? ==> ConsumerRank(k.cons) < ConsumerRank(c.cons))
  {
    if ConsBlock(c.cons).None? {
      ConsumerFreeRank(c, i);
    } else if ConsBlock(c.cons).value < |c.nodes| {
      ConsumerAtRank(c, ConsBlock(c.cons).value);
    }
    hide ConsumerFree, ConsumerAt;
  }

  lemma ConsumerFreeRank<T>(c: State<T>, i: Input<T>)
    requires ConsBlock(c.cons).None?
    ensures var k := ConsumerFree(c, i).0;
            && k.prod == c.prod && ConsumerRank(k.cons) <= 14
            && (!c.cons.CIdle? && !c.cons.CFault? ==> ConsumerRank(k.cons) < ConsumerRank(c.cons))
  {
  }

  lemma ConsumerAtRank<T>(c: State<T>, id: Id)
    requires id < |c.nodes| && ConsBlock(c.cons).Some?
    ensures var k := ConsumerAt(c, id);
            k.prod == c.prod && ConsumerRank(k.cons) < ConsumerRank(c.cons) <= 14
  {
  }

  // ---- Bounded calls, over runs ----

  /** How many of the moves are the producer's, or the consumer's. */
  function OwnMoves<T>(sched: seq<Move<T>>, producer: bool): nat {
    if sched == [] then 0
    else OwnMoves(sched[..|sched| - 1], producer) + (if sched[|sched| - 1].ByProducer? == producer then 1 else 0)
  }

  /** The state when `i` more moves have followed `early`. */
  function Later<T>(cfg: Config, early: seq<Move<T>>, more: seq<Move<T>>, i: nat): State<T>
    requires 0 < cfg.size && 0 < cfg.count && i <= |more|
  {
    Reach(cfg, early + more[..i])
  }

  lemma LaterStep<T>(cfg: Config, early: seq<Move<T>>, more: seq<Move<T>>)
    requires Buildable(cfg) && more != []
    ensures var n := |more| - 1;
            && Later(cfg, early, more, |more|) == Runs.Step(cfg, Later(cfg, early, more, n), more[n]).0
            && !Later(cfg, early, more, n).prod.PFault? && !Later(cfg, early, more, n).cons.CFault?
            && (forall i :: 0 <= i <= n ==> Later(cfg, early, more[..n], i) == Later(cfg, early, more, i))
  {
    hide Runs.Step;
    var n := |more| - 1;
    assert early + more[..|more|] == (early + more[..n]) + [more[n]];
    var sched := early + more[..|more|];
    assert sched[..|sched| - 1] == early + more[..n];
    NeverFaults(cfg, early + more[..n]);
    forall i | 0 <= i <= n ensures more[..n][..i] == more[..i] { }
  }

  /** While an enqueue is going on the producer makes fewer than 12 moves, however many the consumer makes:
      the twelfth at the latest returns. */
  lemma {:induction false} EnqueueIsBounded<T>(cfg: Config, early: seq<Move<T>>, more: seq<Move<T>>)
    requires Buildable(cfg) && forall i :: 0 <= i <= |more| ==> !Later(cfg, early, more, i).prod.PIdle?
    ensures OwnMoves(more, true) + ProducerRank(Later(cfg, early, more, |more|).prod) <= 12
    ensures OwnMoves(more, true) < 12
    decreases |more|
  {
    hide Reach, HeapSteps.ProducerNext, HeapSteps.ConsumerNext;
    NeverFaults(cfg, early + more[..|more|]);
    RankBounds(Later(cfg, early, more, |more|));
    if more == [] {
    } else {
      var n := |more| - 1;
      LaterStep(cfg, early, more);
      EnqueueIsBounded(cfg, early, more[..n]);
      MoveRanks(cfg, Later(cfg, early, more, n), more[n]);
    }
  }

  /** The same for a consumer call: fewer than 14 moves of the consumer. */
  lemma {:induction false} DequeueIsBounded<T>(cfg: Config, early: seq<Move<T>>, more: seq<Move<T>>)
    requires Buildable(cfg) && forall i :: 0 <= i <= |more| ==> !Later(cfg, early, more, i).cons.CIdle?
    ensures OwnMoves(more, false) + ConsumerRank(Later(cfg, early, more, |more|).cons) <= 14
    ensures OwnMoves(more, false) < 14
    decreases |more|
  {
    hide Reach, HeapSteps.ProducerNext, HeapSteps.ConsumerNext;
    NeverFaults(cfg, early + more[..|more|]);
    RankBounds(Later(cfg, early, more, |more|));
    if more == [] {
    } else {
      var n := |more| - 1;
      LaterStep(cfg, early, more);
      DequeueIsBounded(cfg, early, more[..n]);
      MoveRanks(cfg, Later(cfg, early, more, n), more[n]);
    }
  }

  lemma RankBounds<T>(c: State<T>)
    ensures ProducerRank(c.prod) <= 12 && (!c.prod.PIdle? && !c.prod.PFault? ==> 0 < ProducerRank(c.prod))
    ensures ConsumerRank(c.cons) <= 14 && (!c.cons.CIdle? && !c.cons.CFault? ==> 0 < ConsumerRank(c.cons))
  {
  }

  lemma MoveRanks<T>(cfg: Config, c: State<T>, m: Move<T>)
    requires !c.prod.PFault? && !c.cons.CFault?
    ensures var c' := Runs.Step(cfg, c, m).0;
            && (if m.ByProducer? then c'.cons == c.cons else c'.prod == c.prod)
            && (m.ByProducer? && !c.prod.PIdle? ==> ProducerRank(c'.prod) < ProducerRank(c.prod))
            && (!m.ByProducer? && !c.cons.CIdle? ==> ConsumerRank(c'.cons) < ConsumerRank(c.cons))
  {
    hide HeapSteps.ProducerNext, HeapSteps.ConsumerNext, ProducerRank, ConsumerRank;
    ProducerWaitFree(cfg, c, m.i);
    ConsumerWaitFree(c, m.i);
  }
}
