/** Every step of `RingSteps` is a step of the atomic FIFO object, or none.

    An enqueue takes effect when `tail` is stored (there is room in the tail block) or when
    `tailBlock` is stored (it went to another block); a removal when `front` is stored; a call that
    finds nothing at the load of `tail` that found the front block empty, provided `tailBlock` was
    then the front block - which the call learns only later. */
module RingRefinement {
  import opened Wrappers
  import opened Fifo
  import opened Blocks
  import opened RingSteps

  ghost predicate ProducerMatches<T>(s: State<T>, p: Producer<T>) {
    match s.prod
    case PIdle => p.NoEnq?
    case PReturn(x, ok) => p.DoneEnq? && p.x == x && p.ok == ok
    case PNoRoom(x, _) => p.PendingEnq? && p.x == x && (|s.blocks| == 1 ==> p.full)
    case PAlloc(x) => p.PendingEnq? && p.x == x && p.full
    case PLink(x, _) => p.PendingEnq? && p.x == x && p.full
    case PCheck(x, _) => p.PendingEnq? && p.x == x
    case PRoom(x) => p.PendingEnq? && p.x == x
    case PSpare(x) => p.PendingEnq? && p.x == x
    case PSpareSeen(x) => p.PendingEnq? && p.x == x
    case PWritten(x) => p.PendingEnq? && p.x == x
  }

  ghost predicate ConsumerMatches<T>(s: State<T>, c: Consumer<T>) {
    match s.cons
    case CIdle => c.NoDeq?
    case CReturn(call, reply) => c == DoneDeq(call, reply)
    case CEmpty(call) => c.PendingDeq? && c.call == call && (s.tp == 0 ==> c.mark.Some?)
    case CCheck(call) => c.PendingDeq? && c.call == call
    case CAhead(call) => c.PendingDeq? && c.call == call
    case CDrained(call) => c.PendingDeq? && c.call == call
    case CHop(call) => c.PendingDeq? && c.call == call
    case CTake(call) => c.PendingDeq? && c.call == call
    case CTaken(call, _) => c.PendingDeq? && c.call == call
  }

  /** `n` blocks are no more than the greatest length so far accounts for. */
  ghost predicate Affordable(cfg: Config, n: nat, peak: nat) {
    n <= cfg.count || n == 2 || (2 < n && (n - 2) * (cfg.size - 1) <= peak)
  }

  ghost predicate MemoryMatches<T>(cfg: Config, s: State<T>, o: Obj<T>) {
    && Affordable(cfg, |s.blocks|, o.peak)
    && (s.prod.PAlloc? || s.prod.PLink? ==> o.crowded && Affordable(cfg, |s.blocks| + 1, o.peak))
    && (|s.blocks| > cfg.count ==> o.crowded)
  }

  ghost predicate Refines<T>(cfg: Config, s: State<T>, o: Obj<T>)
    requires StateOk(cfg, s)
  {
    && o.queue == Contents(s.blocks, s.tp)
    && ProducerMatches(s, o.producer)
    && ConsumerMatches(s, o.consumer)
    && MemoryMatches(cfg, s, o)
  }

  lemma StartRefines<T>(cfg: Config)
    requires ValidConfig(cfg) && StateOk(cfg, Start<T>(cfg))
    ensures Refines(cfg, Start<T>(cfg), Fifo.Init<T>())
  {
    var s := Start<T>(cfg);
    ContentsEmpty(s.blocks);
  }

  // ---- The producer ----

  /** Going round to the front block, the producer has met at least `cap` elements. */
  lemma NoSpareBlock<T>(cfg: Config, s: State<T>, o: Obj<T>)
    requires StateOk(cfg, s) && Refines(cfg, s, o) && s.prod.PNoRoom? && s.tp + 1 == |s.blocks|
    requires Fifo.Inv(cfg.cap, o)
    ensures |s.blocks| > 1 ==> |o.queue| >= cfg.cap
    ensures Affordable(cfg, |s.blocks| + 1, o.peak)
  {
    if |s.blocks| > 1 {
      ContentsCrowded(s.blocks, s.tp, cfg.size);
      Product(s.tp, cfg.count - 1, cfg.size - 1);
    }
  }

  lemma Product(a: nat, b: nat, m: nat)
    requires 1 <= a
    ensures a * m >= m
    ensures b <= a ==> b * m <= a * m
  {
    assert a * m == m + (a - 1) * m;
    if b <= a {
      assert a * m == b * m + (a - b) * m;
    }
  }

  lemma CheckRefines<T>(cfg: Config, s: State<T>, i: Input<T>, o: Obj<T>) returns (o': Obj<T>)
    requires StateOk(cfg, s) && Refines(cfg, s, o) && s.prod.PCheck?
    ensures var (s', l) := ProducerNext(cfg, s, i);
            StateOk(cfg, s') && Refines(cfg, s', o') && Fifo.ProducerStep(cfg.cap, o, o', l)
  {
    ProducerKeepsOk(cfg, s, i);
    var s' := ProducerNext(cfg, s, i).0;
    ContentsSame(s.blocks, s.tp, s.tp, SeeFront(s.blocks[s.tp]));
    if s'.prod.PNoRoom? && |s.blocks| == 1 {
      ContentsEmpty(s.blocks);
      o' := o.(crowded := true, producer := o.producer.(full := true));
    } else {
      o' := o;
    }
  }

  lemma NoRoomRefines<T>(cfg: Config, s: State<T>, i: Input<T>, o: Obj<T>) returns (o': Obj<T>)
    requires StateOk(cfg, s) && Refines(cfg, s, o) && s.prod.PNoRoom? && Fifo.Inv(cfg.cap, o)
    ensures var (s', l) := ProducerNext(cfg, s, i);
            StateOk(cfg, s') && Refines(cfg, s', o') && Fifo.ProducerStep(cfg.cap, o, o', l)
  {
    ProducerKeepsOk(cfg, s, i);
    var s' := ProducerNext(cfg, s, i).0;
    if s'.prod.PSpare? {
      o' := o;
    } else {
      NoSpareBlock(cfg, s, o);
      if s'.prod.PAlloc? {
        o' := o.(crowded := true, producer := o.producer.(full := true));
      } else if o.producer.full {
        o' := o.(producer := DoneEnq(s.prod.x, false, o.producer.held));
      } else {
        o' := o.(crowded := true, producer := DoneEnq(s.prod.x, false, o.producer.held));
      }
    }
  }

  lemma AppendContents<T>(cfg: Config, s: State<T>)
    requires StateOk(cfg, s) && (s.prod.PRoom? || s.prod.PWritten?)
    ensures s.tp < |s.blocks|
    ensures if s.prod.PRoom? then Contents(s.blocks[s.tp := Push(s.blocks[s.tp], s.prod.x)], s.tp) == Contents(s.blocks, s.tp) + [s.prod.x]
            else s.tp + 1 < |s.blocks| && Contents(s.blocks, s.tp + 1) == Contents(s.blocks, s.tp) + [s.prod.x]
  {
    if s.prod.PRoom? {
      ContentsPush(s.blocks, s.tp, s.prod.x);
    } else {
      ContentsPublish(s.blocks, s.tp);
    }
  }

  lemma AppendRefines<T>(cfg: Config, s: State<T>, i: Input<T>, o: Obj<T>) returns (o': Obj<T>)
    requires StateOk(cfg, s) && Refines(cfg, s, o) && (s.prod.PRoom? || s.prod.PWritten?)
    ensures var (s', l) := ProducerNext(cfg, s, i);
            StateOk(cfg, s') && Refines(cfg, s', o') && Fifo.ProducerStep(cfg.cap, o, o', l)
  {
    hide StateOk, Contents, Push;
    ProducerKeepsOk(cfg, s, i);
    AppendContents(cfg, s);
    o' := o.(queue := o.queue + [s.prod.x], hist := o.hist + [Put(s.prod.x)],
             peak := Max(o.peak, |o.queue| + 1), producer := DoneEnq(s.prod.x, true, o.producer.held));
  }

  lemma SpareRefines<T>(cfg: Config, s: State<T>, i: Input<T>, o: Obj<T>) returns (o': Obj<T>)
    requires StateOk(cfg, s) && Refines(cfg, s, o) && (s.prod.PSpare? || s.prod.PSpareSeen? || s.prod.PLink?)
    ensures var (s', l) := ProducerNext(cfg, s, i);
            StateOk(cfg, s') && Refines(cfg, s', o') && Fifo.ProducerStep(cfg.cap, o, o', l)
  {
    ProducerKeepsOk(cfg, s, i);
    o' := o;
    var s' := ProducerNext(cfg, s, i).0;
    assert s'.blocks[..s.tp + 1] == s.blocks[..s.tp + 1];
  }

  lemma CallProducerRefines<T>(cfg: Config, s: State<T>, i: Input<T>, o: Obj<T>) returns (o': Obj<T>)
    requires StateOk(cfg, s) && Refines(cfg, s, o) && (s.prod.PIdle? || s.prod.PAlloc? || s.prod.PReturn?)
    ensures var (s', l) := ProducerNext(cfg, s, i);
            StateOk(cfg, s') && Refines(cfg, s', o') && Fifo.ProducerStep(cfg.cap, o, o', l)
  {
    hide StateOk, Contents, Affordable;
    ProducerKeepsOk(cfg, s, i);
    o' := if s.prod.PReturn? then o.(producer := NoEnq)
          else if s.prod.PIdle? && i.Enqueue? then o.(producer := PendingEnq(i.x, |o.queue|, false))
          else if s.prod.PAlloc? && i.NoMemory? then o.(producer := DoneEnq(s.prod.x, false, o.producer.held))
          else o;
  }

  lemma ProducerRefines<T>(cfg: Config, s: State<T>, i: Input<T>, o: Obj<T>) returns (o': Obj<T>)
    requires StateOk(cfg, s) && Refines(cfg, s, o) && Fifo.Inv(cfg.cap, o)
    ensures var (s', l) := ProducerNext(cfg, s, i);
            StateOk(cfg, s') && Refines(cfg, s', o') && Fifo.ProducerStep(cfg.cap, o, o', l)
  {
    hide *;
    match s.prod
    case PCheck(_, _) => o' := CheckRefines(cfg, s, i, o);
    case PNoRoom(_, _) => o' := NoRoomRefines(cfg, s, i, o);
    case PRoom(_) => o' := AppendRefines(cfg, s, i, o);
    case PWritten(_) => o' := AppendRefines(cfg, s, i, o);
    case PSpare(_) => o' := SpareRefines(cfg, s, i, o);
    case PSpareSeen(_) => o' := SpareRefines(cfg, s, i, o);
    case PLink(_, _) => o' := SpareRefines(cfg, s, i, o);
    case PIdle => o' := CallProducerRefines(cfg, s, i, o);
    case PAlloc(_) => o' := CallProducerRefines(cfg, s, i, o);
    case PReturn(_, _) => o' := CallProducerRefines(cfg, s, i, o);
  }

  // ---- The consumer ----

  lemma LookRefines<T>(cfg: Config, s: State<T>, i: Input<T>, o: Obj<T>) returns (o': Obj<T>)
    requires StateOk(cfg, s) && Refines(cfg, s, o) && (s.cons.CCheck? || s.cons.CAhead?)
    ensures var (s', l) := ConsumerNext(s, i);
            StateOk(cfg, s') && Refines(cfg, s', o') && Fifo.ConsumerStep(o, o', l)
  {
    ConsumerKeepsOk(cfg, s, i);
    ContentsSame(s.blocks, s.tp, 0, SeeTail(s.blocks[0]));
    o' := o;
    if ConsumerNext(s, i).0.cons.CEmpty? && s.tp == 0 {
      ContentsEmpty(s.blocks);
      o' := o.(consumer := o.consumer.(mark := Some(|o.hist|)));
    }
  }

  /** The element handed out or seen is the head of the queue. */
  lemma ServeContents<T>(cfg: Config, s: State<T>)
    requires StateOk(cfg, s) && (s.cons.CDrained? || s.cons.CTake? || s.cons.CTaken?)
    ensures s.tp < |s.blocks|
    ensures var b, q := s.blocks[0], Contents(s.blocks, s.tp);
            && q != []
            && (s.cons.CDrained? ==>
                  && 1 < |s.blocks| && s.blocks[1].front < |s.blocks[1].log| && q[0] == s.blocks[1].log[s.blocks[1].front]
                  && Contents(s.blocks[1 := SeeTail(s.blocks[1])], s.tp) == q)
            && (!s.cons.CDrained? ==> b.front < |b.log| && q[0] == b.log[b.front])
            && (s.cons.CTaken? ==> q[0] == s.cons.x && !s.cons.call.Peek? && Contents(s.blocks[0 := Advance(b)], s.tp) == q[1..])
  {
    if s.cons.CDrained? {
      ContentsNext(s.blocks, s.tp);
      ContentsSame(s.blocks, s.tp, 1, SeeTail(s.blocks[1]));
    } else {
      ContentsAdvance(s.blocks, s.tp);
    }
  }

  lemma ServeRefines<T>(cfg: Config, s: State<T>, i: Input<T>, o: Obj<T>) returns (o': Obj<T>)
    requires StateOk(cfg, s) && Refines(cfg, s, o) && (s.cons.CDrained? || s.cons.CTake? || s.cons.CTaken?)
    ensures var (s', l) := ConsumerNext(s, i);
            StateOk(cfg, s') && Refines(cfg, s', o') && Fifo.ConsumerStep(o, o', l)
  {
    hide StateOk, Contents, Affordable, SeeTail, Advance;
    ConsumerKeepsOk(cfg, s, i);
    ServeContents(cfg, s);
    o' := o;
    if s.cons.CTaken? {
      o' := o.(queue := o.queue[1..], hist := o.hist + [Took(s.cons.x)],
               consumer := DoneDeq(s.cons.call, Some(s.cons.x)));
    } else if s.cons.call.Peek? {
      o' := o.(hist := o.hist + [Saw(o.queue[0])], consumer := DoneDeq(s.cons.call, Some(o.queue[0])));
    }
  }

  lemma HopContents<T>(cfg: Config, s: State<T>)
    requires StateOk(cfg, s) && s.cons.CHop?
    ensures 0 < s.tp < |s.blocks| && Contents(Rotate(s.blocks), s.tp - 1) == Contents(s.blocks, s.tp)
  {
    ContentsRotate(s.blocks, s.tp);
  }

  lemma HopRefines<T>(cfg: Config, s: State<T>, i: Input<T>, o: Obj<T>) returns (o': Obj<T>)
    requires StateOk(cfg, s) && Refines(cfg, s, o) && s.cons.CHop?
    ensures var (s', l) := ConsumerNext(s, i);
            StateOk(cfg, s') && Refines(cfg, s', o') && Fifo.ConsumerStep(o, o', l)
  {
    hide StateOk, Contents, Affordable;
    ConsumerKeepsOk(cfg, s, i);
    HopContents(cfg, s);
    o' := o;
  }

  lemma CallConsumerRefines<T>(cfg: Config, s: State<T>, i: Input<T>, o: Obj<T>) returns (o': Obj<T>)
    requires StateOk(cfg, s) && Refines(cfg, s, o) && (s.cons.CIdle? || s.cons.CReturn?)
    ensures var (s', l) := ConsumerNext(s, i);
            StateOk(cfg, s') && Refines(cfg, s', o') && Fifo.ConsumerStep(o, o', l)
  {
    hide StateOk, Contents, Affordable;
    ConsumerKeepsOk(cfg, s, i);
    o' := if s.cons.CReturn? then o.(consumer := NoDeq)
          else if i.Dequeue? then o.(consumer := PendingDeq(i.call, |o.hist|, None))
          else o;
  }

  /** The consumer saw its front block empty and now learns whether the tail is elsewhere. */
  lemma EmptyRefines<T>(cfg: Config, s: State<T>, i: Input<T>, o: Obj<T>) returns (o': Obj<T>)
    requires StateOk(cfg, s) && Refines(cfg, s, o) && s.cons.CEmpty? && Fifo.Inv(cfg.cap, o)
    ensures var (s', l) := ConsumerNext(s, i);
            StateOk(cfg, s') && Refines(cfg, s', o') && Fifo.ConsumerStep(o, o', l)
  {
    ConsumerKeepsOk(cfg, s, i);
    o' := o;
    if s.tp == 0 {
      var k := o.consumer.mark.value;
      o' := o.(hist := o.hist[..k] + [Missed] + o.hist[k..], consumer := DoneDeq(s.cons.call, None));
    }
  }

  lemma ConsumerRefines<T>(cfg: Config, s: State<T>, i: Input<T>, o: Obj<T>) returns (o': Obj<T>)
    requires StateOk(cfg, s) && Refines(cfg, s, o) && Fifo.Inv(cfg.cap, o)
    ensures var (s', l) := ConsumerNext(s, i);
            StateOk(cfg, s') && Refines(cfg, s', o') && Fifo.ConsumerStep(o, o', l)
  {
    hide *;
    match s.cons
    case CCheck(_) => o' := LookRefines(cfg, s, i, o);
    case CAhead(_) => o' := LookRefines(cfg, s, i, o);
    case CDrained(_) => o' := ServeRefines(cfg, s, i, o);
    case CTake(_) => o' := ServeRefines(cfg, s, i, o);
    case CTaken(_, _) => o' := ServeRefines(cfg, s, i, o);
    case CHop(_) => o' := HopRefines(cfg, s, i, o);
    case CEmpty(_) => o' := EmptyRefines(cfg, s, i, o);
    case CIdle => o' := CallConsumerRefines(cfg, s, i, o);
    case CReturn(_, _) => o' := CallConsumerRefines(cfg, s, i, o);
  }
}
