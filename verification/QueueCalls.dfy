/** What the parts of a sequential call do in `RingSteps`, and to the contents. */
module QueueCalls {
  import opened Wrappers
  import opened Fifo
  import opened Blocks
  import opened Words
  import R = RingSteps
  import RingRefinement

  /** From the call to the decision. */
  lemma Checked<T>(cfg: R.Config, s: R.State<T>, x: T, canAlloc: bool) returns (s': R.State<T>)
    requires R.StateOk(cfg, s) && s.prod.PIdle?
    ensures R.StateOk(cfg, s') && Blocks.Contents(s'.blocks, s'.tp) == Blocks.Contents(s.blocks, s.tp)
    ensures var b := s.blocks[s.tp];
            var b' := if HasRoom(b) then b else SeeFront(b);
            && s' == s.(blocks := s.blocks[s.tp := b'],
                        prod := if HasRoom(b') then R.PRoom(x) else R.PNoRoom(x, canAlloc))
            && (HasRoom(b') <==> !Full(b)) && (Full(b') <==> Full(b))
  {
    R.ProducerKeepsOk(cfg, s, R.Enqueue(x, canAlloc));
    s' := R.ProducerNext(cfg, s, R.Enqueue(x, canAlloc)).0;
    R.ProducerKeepsOk(cfg, s', R.Go);
    s' := R.ProducerNext(cfg, s', R.Go).0;
    ContentsSame(s.blocks, s.tp, s.tp, s'.blocks[s.tp]);
    assert Ok(s.blocks[s.tp]);
  }

  /** There is room in the tail block. */
  lemma Appended<T>(cfg: R.Config, s: R.State<T>, x: T) returns (s': R.State<T>)
    requires R.StateOk(cfg, s) && s.prod == R.PRoom(x)
    ensures R.StateOk(cfg, s') && HasRoom(s.blocks[s.tp])
    ensures s' == s.(blocks := s.blocks[s.tp := Push(s.blocks[s.tp], x)], prod := R.PIdle)
    ensures Blocks.Contents(s'.blocks, s'.tp) == Blocks.Contents(s.blocks, s.tp) + [x]
  {
    R.ProducerKeepsOk(cfg, s, R.Go);
    ContentsPush(s.blocks, s.tp, x);
    s' := R.ProducerNext(cfg, s, R.Go).0;
    R.ProducerKeepsOk(cfg, s', R.Go);
    s' := R.ProducerNext(cfg, s', R.Go).0;
  }

  /** There is a free block ahead. */
  lemma Spared<T>(cfg: R.Config, s: R.State<T>, x: T, canAlloc: bool) returns (s': R.State<T>)
    requires R.StateOk(cfg, s) && s.prod == R.PNoRoom(x, canAlloc) && s.tp + 1 < |s.blocks|
    ensures R.StateOk(cfg, s') && Drained(s.blocks[s.tp + 1])
    ensures var b := Push(SeeFront(s.blocks[s.tp + 1]), x);
            s' == s.(blocks := s.blocks[s.tp + 1 := b], tp := s.tp + 1, prod := R.PIdle)
    ensures Blocks.Contents(s'.blocks, s'.tp) == Blocks.Contents(s.blocks, s.tp) + [x]
  {
    assert Drained(s.blocks[s.tp + 1]) && Ok(s.blocks[s.tp + 1]);
    R.ProducerKeepsOk(cfg, s, R.Go);
    s' := R.ProducerNext(cfg, s, R.Go).0;
    R.ProducerKeepsOk(cfg, s', R.Go);
    s' := R.ProducerNext(cfg, s', R.Go).0;
    R.ProducerKeepsOk(cfg, s', R.Go);
    s' := R.ProducerNext(cfg, s', R.Go).0;
    assert s'.blocks[..s.tp + 1] == s.blocks[..s.tp + 1];
    s' := Published(cfg, s', x);
  }

  lemma Published<T>(cfg: R.Config, s: R.State<T>, x: T) returns (s': R.State<T>)
    requires R.StateOk(cfg, s) && s.prod == R.PWritten(x)
    ensures R.StateOk(cfg, s') && s' == s.(tp := s.tp + 1, prod := R.PIdle)
    ensures Blocks.Contents(s'.blocks, s'.tp) == Blocks.Contents(s.blocks, s.tp) + [x]
  {
    ContentsPublish(s.blocks, s.tp);
    R.ProducerKeepsOk(cfg, s, R.Go);
    s' := R.ProducerNext(cfg, s, R.Go).0;
    R.ProducerKeepsOk(cfg, s', R.Go);
    s' := R.ProducerNext(cfg, s', R.Go).0;
  }

  /** There is none, and memory for one. */
  lemma Grown<T>(cfg: R.Config, s: R.State<T>, x: T) returns (s': R.State<T>)
    requires R.StateOk(cfg, s) && s.prod == R.PNoRoom(x, true) && s.tp + 1 == |s.blocks|
    ensures R.StateOk(cfg, s')
    ensures var size := R.NewBlockSize(s.largest, cfg.maxBlock);
            s' == s.(blocks := Insert(s.blocks, s.tp, Blk(size, 0, 1, 0, [x])), tp := s.tp + 1, largest := size, prod := R.PIdle)
    ensures 2 <= s.largest && Blocks.Contents(s'.blocks, s'.tp) == Blocks.Contents(s.blocks, s.tp) + [x]
  {
    R.ProducerKeepsOk(cfg, s, R.Go);
    s' := R.ProducerNext(cfg, s, R.Go).0;
    R.ProducerKeepsOk(cfg, s', R.Go);
    s' := R.ProducerNext(cfg, s', R.Go).0;
    R.ProducerKeepsOk(cfg, s', R.Go);
    s' := R.ProducerNext(cfg, s', R.Go).0;
    assert s'.blocks[..s.tp + 1] == s.blocks[..s.tp + 1];
    s' := Published(cfg, s', x);
  }

  lemma NewSize<T>(cfg: R.Config, s: R.State<T>)
    requires IsPow2(s.largest) && 2 <= s.largest <= WORD && 2 * cfg.maxBlock <= WORD
    ensures var size := if s.largest >= cfg.maxBlock then s.largest else s.largest * 2;
            R.NewBlockSize(s.largest, cfg.maxBlock) == size && IsPow2(size) && 2 <= size <= WORD
  {
    DoubleIsPow2(s.largest);
  }

  /** There is none, and no memory or no permission to allocate. */
  lemma Refused<T>(cfg: R.Config, s: R.State<T>) returns (s': R.State<T>)
    requires R.StateOk(cfg, s) && s.prod.PNoRoom? && s.tp + 1 == |s.blocks| && Full(s.blocks[s.tp])
    ensures R.StateOk(cfg, s') && s' == s.(prod := R.PIdle)
    ensures |Blocks.Contents(s.blocks, s.tp)| >= cfg.cap
  {
    s' := s.(prod := R.PIdle);
    ContentsCrowded(s.blocks, s.tp, cfg.size);
    if s.tp > 0 {
      RingRefinement.Product(s.tp, cfg.count - 1, cfg.size - 1);
    }
  }


  lemma Looked<T>(cfg: R.Config, s: R.State<T>, call: Call) returns (s': R.State<T>)
    requires R.StateOk(cfg, s) && s.cons.CIdle?
    ensures R.StateOk(cfg, s') && Blocks.Contents(s'.blocks, s'.tp) == Blocks.Contents(s.blocks, s.tp)
    ensures var b := s.blocks[0];
            && s' == s.(blocks := s.blocks[0 := if b.front != b.localTail then b else SeeTail(b)],
                        cons := if Drained(b) then R.CEmpty(call) else R.CTake(call))
            && (Drained(b) && s.tp == 0 ==> Blocks.Contents(s.blocks, s.tp) == [])
  {
    assert Ok(s.blocks[0]);
    R.ConsumerKeepsOk(cfg, s, R.Dequeue(call));
    s' := R.ConsumerNext(s, R.Dequeue(call)).0;
    R.ConsumerKeepsOk(cfg, s', R.Go);
    s' := R.ConsumerNext(s', R.Go).0;
    ContentsSame(s.blocks, s.tp, 0, s'.blocks[0]);
    ContentsEmpty(s.blocks);
  }

  lemma LookedAgain<T>(cfg: R.Config, s: R.State<T>, call: Call) returns (s': R.State<T>)
    requires R.StateOk(cfg, s) && s.cons == R.CEmpty(call) && 0 < s.tp
    ensures R.StateOk(cfg, s') && Blocks.Contents(s'.blocks, s'.tp) == Blocks.Contents(s.blocks, s.tp)
    ensures var b := s.blocks[0];
            s' == s.(blocks := s.blocks[0 := SeeTail(b)], cons := if Drained(b) then R.CDrained(call) else R.CTake(call))
  {
    R.ConsumerKeepsOk(cfg, s, R.Go);
    s' := R.ConsumerNext(s, R.Go).0;
    R.ConsumerKeepsOk(cfg, s', R.Go);
    s' := R.ConsumerNext(s', R.Go).0;
    ContentsSame(s.blocks, s.tp, 0, s'.blocks[0]);
  }

  lemma GaveUp<T>(cfg: R.Config, s: R.State<T>, call: Call)
    requires R.StateOk(cfg, s) && s.cons == R.CEmpty(call)
    ensures R.StateOk(cfg, s.(cons := R.CIdle))
  {
  }

  lemma SeenNext<T>(cfg: R.Config, s: R.State<T>, call: Call) returns (s': R.State<T>)
    requires R.StateOk(cfg, s) && s.cons == R.CDrained(call) && !call.Peek?
    ensures 1 < |s.blocks| && !Drained(s.blocks[1])
    ensures R.StateOk(cfg, s') && Blocks.Contents(s'.blocks, s'.tp) == Blocks.Contents(s.blocks, s.tp)
    ensures s' == s.(blocks := s.blocks[1 := SeeTail(s.blocks[1])], cons := R.CHop(call))
  {
    R.NextNotDrained(cfg, s);
    R.ConsumerKeepsOk(cfg, s, R.Go);
    s' := R.ConsumerNext(s, R.Go).0;
    ContentsSame(s.blocks, s.tp, 1, s'.blocks[1]);
  }

  lemma Hopped<T>(cfg: R.Config, s: R.State<T>, call: Call) returns (s': R.State<T>)
    requires R.StateOk(cfg, s) && s.cons == R.CHop(call)
    ensures R.StateOk(cfg, s') && Blocks.Contents(s'.blocks, s'.tp) == Blocks.Contents(s.blocks, s.tp)
    ensures 0 < s.tp && s' == s.(blocks := Rotate(s.blocks), tp := s.tp - 1, cons := R.CTake(call))
  {
    R.ConsumerKeepsOk(cfg, s, R.Go);
    s' := R.ConsumerNext(s, R.Go).0;
    ContentsRotate(s.blocks, s.tp);
  }

  lemma HopsOn<T>(cfg: R.Config, s: R.State<T>)
    requires R.StateOk(cfg, s) && s.cons.CHop?
    ensures 0 < s.tp < |s.blocks|
  {
  }

  lemma Served<T>(cfg: R.Config, s: R.State<T>, call: Call) returns (s': R.State<T>)
    requires R.StateOk(cfg, s) && s.cons == R.CTake(call) && !call.Peek?
    ensures var b, q := s.blocks[0], Blocks.Contents(s.blocks, s.tp);
            && b.front < b.localTail <= |b.log| && q != [] && q[0] == b.log[b.front]
            && R.StateOk(cfg, s') && Blocks.Contents(s'.blocks, s'.tp) == q[1..]
            && s' == s.(blocks := s.blocks[0 := Advance(b)], cons := R.CIdle)
  {
    ReadyToTake(cfg, s);
    hide *;
    var b := s.blocks[0];
    var s1, s2 := s.(cons := R.CTaken(call, b.log[b.front])), s.(blocks := s.blocks[0 := Advance(b)], cons := R.CReturn(call, Some(b.log[b.front])));
    TakeSteps(s, s1, s2, call);
    R.ConsumerKeepsOk(cfg, s, R.Go);
    R.ConsumerKeepsOk(cfg, s1, R.Go);
    R.ConsumerKeepsOk(cfg, s2, R.Go);
    s' := s2.(cons := R.CIdle);
    ContentsAdvance(s.blocks, s.tp);
  }

  lemma ReadyToTake<T>(cfg: R.Config, s: R.State<T>)
    requires R.StateOk(cfg, s) && s.cons.CTake?
    ensures s.tp < |s.blocks| && RingOk(s.blocks, s.tp)
    ensures var b := s.blocks[0]; b.front < b.localTail <= |b.log|
  {
  }

  lemma TakeSteps<T>(s: R.State<T>, s1: R.State<T>, s2: R.State<T>, call: Call)
    requires R.Steppable(s) && s.cons == R.CTake(call) && !call.Peek?
    requires var b := s.blocks[0];
             && s1 == s.(cons := R.CTaken(call, b.log[b.front]))
             && s2 == s.(blocks := s.blocks[0 := Advance(b)], cons := R.CReturn(call, Some(b.log[b.front])))
    ensures R.ConsumerNext(s, R.Go).0 == s1
    ensures R.Steppable(s1) && R.ConsumerNext(s1, R.Go).0 == s2
    ensures R.Steppable(s2) && R.ConsumerNext(s2, R.Go).0 == s2.(cons := R.CIdle)
  {
    hide R.StateOk;
  }

  lemma Shown<T>(cfg: R.Config, s: R.State<T>, here: bool) returns (s': R.State<T>)
    requires R.StateOk(cfg, s) && s.cons == if here then R.CTake(Call.Peek) else R.CDrained(Call.Peek)
    ensures R.StateOk(cfg, s') && s' == s.(cons := R.CIdle)
    ensures var q := Blocks.Contents(s.blocks, s.tp);
            && q != []
            && (here ==> s.blocks[0].front < |s.blocks[0].log| && q[0] == s.blocks[0].log[s.blocks[0].front])
            && (!here ==> 1 < |s.blocks| && s.blocks[1].front < |s.blocks[1].log| && q[0] == s.blocks[1].log[s.blocks[1].front])
  {
    if here {
      ContentsAdvance(s.blocks, s.tp);
    } else {
      ContentsNext(s.blocks, s.tp);
    }
    s' := s.(cons := R.CIdle);
  }

  /** The blocks outside the arc from front to tail are empty. */
  lemma AllContents<T>(cfg: R.Config, s: R.State<T>)
    requires R.StateOk(cfg, s) && s.prod.PIdle?
    ensures Cat(s.blocks[..|s.blocks|]) == Blocks.Contents(s.blocks, s.tp)
  {
    assert s.blocks[..|s.blocks|] == s.blocks;
    ContentsAll(s.blocks, s.tp);
  }

  lemma CatNone<T>(bs: seq<Blk<T>>)
    ensures Cat(bs[..0]) == []
  {
  }

  lemma AddWrapped(a: nat, b: nat)
    ensures (a % WORD + b) % WORD == (a + b) % WORD
  {
  }

  lemma AllFresh<T>(cfg: R.Config, s: R.State<T>)
    requires R.ValidConfig(cfg) && |s.blocks| == cfg.count && (forall k :: 0 <= k < cfg.count ==> s.blocks[k] == Fresh(cfg.size))
    requires s == R.State(s.blocks, 0, cfg.size, R.PIdle, R.CIdle)
    ensures R.StateOk(cfg, s) && Blocks.Contents(s.blocks, s.tp) == []
  {
    assert s.blocks == R.Start<T>(cfg).blocks;
    R.StartOk<T>(cfg);
    ContentsEmpty(s.blocks);
  }
}
