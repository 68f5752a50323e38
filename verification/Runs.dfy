/** Whole runs of the queue under every schedule: any number of calls by one producer and one
    consumer, interleaved access by access.  The theorems speak of schedules, labels and memory. */
module Runs {
  import opened Wrappers
  import opened Fifo
  import opened Blocks
  import opened Words
  import opened Slots
  import opened HeapSteps
  import opened HeapRefinement
  import opened HeapView
  import R = RingSteps
  import RingRefinement

  datatype Move<T> = ByProducer(i: Input<T>) | ByConsumer(i: Input<T>)

  function Step<T>(cfg: Config, c: State<T>, m: Move<T>): (State<T>, Label<T>) {
    match m
    case ByProducer(i) => HeapSteps.ProducerNext(cfg, c, i)
    case ByConsumer(i) => HeapSteps.ConsumerNext(c, i)
  }

  ghost predicate Buildable(cfg: Config) { R.ValidConfig(cfg) && IsPow2(cfg.size) }

  /** The state after a schedule. */
  function Reach<T>(cfg: Config, sched: seq<Move<T>>): State<T>
    requires 0 < cfg.size && 0 < cfg.count
  {
    if sched == [] then HeapSteps.Start(cfg)
    else Step(cfg, Reach(cfg, sched[..|sched| - 1]), sched[|sched| - 1]).0
  }

  /** The calls and returns of a schedule. */
  function Labels<T>(cfg: Config, sched: seq<Move<T>>): seq<Label<T>>
    requires 0 < cfg.size && 0 < cfg.count
  {
    if sched == [] then []
    else
      var before := sched[..|sched| - 1];
      Labels(cfg, before) + [Step(cfg, Reach(cfg, before), sched[|sched| - 1]).1]
  }

  /** The number of elements held after a schedule. */
  function Length<T>(cfg: Config, sched: seq<Move<T>>): nat
    requires 0 < cfg.size && 0 < cfg.count
  {
    |Held(Reach(cfg, sched))|
  }

  function LastLabel<T>(cfg: Config, sched: seq<Move<T>>): Label<T>
    requires 0 < cfg.size && 0 < cfg.count
  {
    if sched == [] then Tau
    else Step(cfg, Reach(cfg, sched[..|sched| - 1]), sched[|sched| - 1]).1
  }

  /** The greatest number of elements held at any moment. */
  function Peak<T>(cfg: Config, sched: seq<Move<T>>): nat
    requires 0 < cfg.size && 0 < cfg.count
  {
    if sched == [] then Length(cfg, sched)
    else Max(Peak(cfg, sched[..|sched| - 1]), Length(cfg, sched))
  }

  /** The number of elements held when the latest enqueue was called. */
  function LengthAtCall<T>(cfg: Config, sched: seq<Move<T>>): nat
    requires 0 < cfg.size && 0 < cfg.count
  {
    if sched == [] then 0
    else if LastLabel(cfg, sched).CallEnq? then Length(cfg, sched)
    else LengthAtCall(cfg, sched[..|sched| - 1])
  }

  /** Some enqueue was called while at least `cfg.cap` elements were held. */
  predicate CalledWhenFull<T>(cfg: Config, sched: seq<Move<T>>)
    requires 0 < cfg.size && 0 < cfg.count
  {
    sched != [] &&
    ((LastLabel(cfg, sched).CallEnq? && Length(cfg, sched) >= cfg.cap) || CalledWhenFull(cfg, sched[..|sched| - 1]))
  }

  /** At some moment since the consumer's latest call the queue held nothing. */
  predicate EmptySinceCall<T>(cfg: Config, sched: seq<Move<T>>)
    requires 0 < cfg.size && 0 < cfg.count
  {
    Length(cfg, sched) == 0 ||
    (sched != [] && !LastLabel(cfg, sched).CallDeq? && EmptySinceCall(cfg, sched[..|sched| - 1]))
  }

  // ---- The atomic object behind a run ----

  ghost predicate Remembers<T>(cfg: Config, sched: seq<Move<T>>, o: Obj<T>)
    requires 0 < cfg.size && 0 < cfg.count
  {
    && o.peak == Peak(cfg, sched)
    && (o.crowded ==> CalledWhenFull(cfg, sched))
    && (o.producer.PendingEnq? || o.producer.DoneEnq? ==> o.producer.held == LengthAtCall(cfg, sched))
    && (cfg.cap <= LengthAtCall(cfg, sched) ==> CalledWhenFull(cfg, sched))
    && (o.consumer.PendingDeq? && o.consumer.mark.Some? ==> EmptySinceCall(cfg, sched))
    && (o.consumer.DoneDeq? && o.consumer.reply.None? ==> EmptySinceCall(cfg, sched))
  }

  ghost predicate Explains<T>(cfg: Config, sched: seq<Move<T>>, s: R.State<T>, order: seq<Id>, o: Obj<T>)
    requires 0 < cfg.size && 0 < cfg.count
  {
    && Rel(cfg, Reach(cfg, sched), s, order)
    && RingRefinement.Refines(cfg, s, o)
    && Fifo.Inv(cfg.cap, o)
    && Agrees(o, Labels(cfg, sched))
    && Remembers(cfg, sched, o)
  }

  function Upto(n: nat): seq<Id> { seq(n, i requires 0 <= i < n => i) }

  lemma StartNode<T>(cfg: Config, i: nat)
    requires Buildable(cfg) && i < cfg.count
    ensures var node := HeapSteps.Start<T>(cfg).nodes[i];
            && node.next == Some(After(Upto(cfg.count), i))
            && BufRep(node.buf, Fresh<T>(cfg.size), false, None)
  {
    var node := FreshNode<T>(cfg.size, Some(if i + 1 == cfg.count then 0 else i + 1));
    assert HeapSteps.Start<T>(cfg).nodes[i] == node;
    FreshRep<T>(cfg.size, node.buf.slots);
  }

  lemma StartShape<T>(cfg: Config)
    requires Buildable(cfg)
    ensures Shape(HeapSteps.Start<T>(cfg), R.Start<T>(cfg), Upto(cfg.count))
  {
    var c, order := HeapSteps.Start<T>(cfg), Upto(cfg.count);
    forall i | 0 <= i < cfg.count
      ensures c.nodes[order[i]].next == Some(After(order, i))
      ensures BufRep(c.nodes[order[i]].buf, R.Start<T>(cfg).blocks[i], false, None)
    {
      StartNode<T>(cfg, i);
    }
  }

  lemma StartExplained<T>(cfg: Config)
    requires Buildable(cfg)
    ensures Explains(cfg, [], R.Start<T>(cfg), Upto(cfg.count), Fifo.Init<T>())
  {
    R.StartOk<T>(cfg);
    StartShape<T>(cfg);
    RingRefinement.StartRefines<T>(cfg);
    assert Rel(cfg, Reach<T>(cfg, []), R.Start<T>(cfg), Upto(cfg.count));
    LengthIs(cfg, Reach<T>(cfg, []), R.Start<T>(cfg), Upto(cfg.count), Fifo.Init<T>());
  }

  /** How one move changes what is remembered. */
  lemma MoveRemembered<T>(cfg: Config, sched: seq<Move<T>>, m: Move<T>, o: Obj<T>, o': Obj<T>, l: Label<T>)
    requires 1 <= cfg.cap && 0 < cfg.size && 0 < cfg.count && Fifo.Inv(cfg.cap, o) && Remembers(cfg, sched, o)
    requires l == LastLabel(cfg, sched + [m])
    requires |o.queue| == Length(cfg, sched) && |o'.queue| == Length(cfg, sched + [m])
    requires Fifo.Step(cfg.cap, o, o', l)
    ensures Remembers(cfg, sched + [m], o')
  {
    var sched' := sched + [m];
    assert sched'[..|sched|] == sched;
    assert o'.peak == Max(o.peak, |o'.queue|);
    if cfg.cap <= |o.queue| && o.producer.PendingEnq? {
      assert cfg.cap <= LengthAtCall(cfg, sched);
    }
  }

  lemma ProducerExplained<T>(cfg: Config, sched: seq<Move<T>>, i: Input<T>, s: R.State<T>, order: seq<Id>, o: Obj<T>)
    returns (s': R.State<T>, order': seq<Id>, o': Obj<T>)
    requires Buildable(cfg) && Explains(cfg, sched, s, order, o)
    ensures var (c', l) := HeapSteps.ProducerNext(cfg, Reach(cfg, sched), i);
            && Rel(cfg, c', s', order') && RingRefinement.Refines(cfg, s', o')
            && Fifo.ProducerStep(cfg.cap, o, o', l)
  {
    assert R.Steppable(s);
    hide R.ProducerNext, HeapSteps.ProducerNext, Remembers, Agrees, Joined, Fifo.Inv, RingRefinement.Refines, R.StateOk;
    var c := Reach(cfg, sched);
    s', order' := ProducerSimulates(cfg, c, s, order, i);
    o' := o;
    if (s', HeapSteps.ProducerNext(cfg, c, i).1) == R.ProducerNext(cfg, s, i) {
      o' := RingRefinement.ProducerRefines(cfg, s, i, o);
    }
  }

  lemma ConsumerExplained<T>(cfg: Config, sched: seq<Move<T>>, i: Input<T>, s: R.State<T>, order: seq<Id>, o: Obj<T>)
    returns (s': R.State<T>, order': seq<Id>, o': Obj<T>)
    requires Buildable(cfg) && Explains(cfg, sched, s, order, o)
    ensures var (c', l) := HeapSteps.ConsumerNext(Reach(cfg, sched), i);
            && Rel(cfg, c', s', order') && RingRefinement.Refines(cfg, s', o')
            && Fifo.ConsumerStep(o, o', l)
  {
    assert R.Steppable(s);
    hide R.ConsumerNext, HeapSteps.ConsumerNext, Remembers, Agrees, Joined, Fifo.Inv, RingRefinement.Refines, R.StateOk;
    var c := Reach(cfg, sched);
    s', order' := ConsumerSimulates(cfg, c, s, order, i);
    o' := o;
    if (s', HeapSteps.ConsumerNext(c, i).1) == R.ConsumerNext(s, i) {
      o' := RingRefinement.ConsumerRefines(cfg, s, i, o);
    }
  }

  /** One more move of either side is explained by one more step of the atomic object, or none. */
  lemma MoveExplained<T>(cfg: Config, sched: seq<Move<T>>, m: Move<T>, s: R.State<T>, order: seq<Id>, o: Obj<T>)
    returns (s': R.State<T>, order': seq<Id>, o': Obj<T>)
    requires Buildable(cfg) && Explains(cfg, sched, s, order, o)
    ensures Explains(cfg, sched + [m], s', order', o')
    ensures if m.ByProducer? then Fifo.ProducerStep(cfg.cap, o, o', LastLabel(cfg, sched + [m]))
            else Fifo.ConsumerStep(o, o', LastLabel(cfg, sched + [m]))
  {
    var sched', c := sched + [m], Reach(cfg, sched);
    assert sched'[..|sched|] == sched;
    var l := LastLabel(cfg, sched');
    hide Step, Rel, Remembers, Agrees, Fifo.Inv, RingRefinement.Refines, Fifo.ProducerStep, Fifo.ConsumerStep;
    assert Reach(cfg, sched') == Step(cfg, c, m).0 && l == Step(cfg, c, m).1;
    assert Labels(cfg, sched') == Labels(cfg, sched) + [l];
    StepIs(cfg, c, m);
    if m.ByProducer? {
      s', order', o' := ProducerExplained(cfg, sched, m.i, s, order, o);
      ProducerKeepsInv(cfg.cap, o, o', l);
      ProducerAgrees(cfg.cap, o, o', l, Labels(cfg, sched));
    } else {
      s', order', o' := ConsumerExplained(cfg, sched, m.i, s, order, o);
      ConsumerKeepsInv(cfg.cap, o, o', l);
      ConsumerAgrees(cfg.cap, o, o', l, Labels(cfg, sched));
    }
    LengthIs(cfg, c, s, order, o);
    LengthIs(cfg, Reach(cfg, sched'), s', order', o');
    MoveRemembered(cfg, sched, m, o, o', l);
  }

  lemma StepIs<T>(cfg: Config, c: State<T>, m: Move<T>)
    ensures Step(cfg, c, m) == if m.ByProducer? then HeapSteps.ProducerNext(cfg, c, m.i) else HeapSteps.ConsumerNext(c, m.i)
  {
  }

  lemma LengthIs<T>(cfg: Config, c: State<T>, s: R.State<T>, order: seq<Id>, o: Obj<T>)
    requires Rel(cfg, c, s, order) && RingRefinement.Refines(cfg, s, o)
    ensures |o.queue| == |Held(c)|
    ensures Held(c) == Hole(Cells(o.queue), c.cons.CStFront?)
  {
    HeldIs(cfg, c, s, order);
  }

  /** Refinement over whole runs. */
  lemma {:induction false} RunExplained<T>(cfg: Config, sched: seq<Move<T>>)
    returns (s: R.State<T>, order: seq<Id>, o: Obj<T>)
    requires Buildable(cfg)
    ensures Explains(cfg, sched, s, order, o)
    decreases |sched|
  {
    hide Explains;
    if sched == [] {
      s, order, o := R.Start(cfg), Upto(cfg.count), Fifo.Init();
      StartExplained<T>(cfg);
    } else {
      var before, m := sched[..|sched| - 1], sched[|sched| - 1];
      s, order, o := RunExplained(cfg, before);
      s, order, o := MoveExplained(cfg, before, m, s, order, o);
      assert before + [m] == sched;
    }
  }
}
