/** The specification every layer of the queue refines: an atomic first-in-first-out object used by
    one producer and one consumer.

    A call is pending until it takes effect and finished until it returns.  Taking effect happens in
    one step, so the object's history is a sequential one; `Replay` says which histories a FIFO queue
    allows.  A consumer call that finds nothing takes effect at an earlier moment, at which the queue
    was empty: its entry goes into the history at the position noted then. */
module Fifo {
  import opened Wrappers

  /** The three consumer calls.  `Pop` reports only whether there was an element; the element itself
      is kept in the model so that the histories of `Pop` and `TryDequeue` can be compared. */
  datatype Call = TryDequeue | Pop | Peek

  /** Entries of a sequential history. */
  datatype Event<T> = Put(x: T) | Took(x: T) | Saw(x: T) | Missed

  datatype Producer<T> =
    | NoEnq
    | PendingEnq(x: T, held: nat, full: bool)  // held: length at the call; full: the limit was reached since
    | DoneEnq(x: T, ok: bool, held: nat)

  datatype Consumer<T> =
    | NoDeq
    | PendingDeq(call: Call, since: nat, mark: Option<nat>)  // mark: where the queue was seen empty
    | DoneDeq(call: Call, reply: Option<T>)

  /** `peak` is the greatest length so far; `crowded` says that some enqueue met the limit. */
  datatype Obj<T> = Obj(queue: seq<T>, hist: seq<Event<T>>, peak: nat, crowded: bool,
                        producer: Producer<T>, consumer: Consumer<T>)

  /** What a run shows outside: calls and returns. */
  datatype Label<T> =
    | Tau
    | CallEnq(x: T)
    | RetEnq(x: T, ok: bool)
    | CallDeq(call: Call)
    | RetDeq(call: Call, reply: Option<T>)

  // ---- Sequential histories ----

  ghost function Apply<T>(q: seq<T>, e: Event<T>): Option<seq<T>> {
    match e
    case Put(x) => Some(q + [x])
    case Took(x) => if q != [] && q[0] == x then Some(q[1..]) else None
    case Saw(x) => if q != [] && q[0] == x then Some(q) else None
    case Missed => if q == [] then Some(q) else None
  }

  /** The queue left by a history that starts from `q`, if a FIFO queue allows the history. */
  ghost function Replay<T>(q: seq<T>, h: seq<Event<T>>): Option<seq<T>>
    decreases |h|
  {
    if h == [] then Some(q)
    else
      match Apply(q, h[0])
      case None => None
      case Some(q') => Replay(q', h[1..])
  }

  lemma {:induction false} ReplayConcat<T>(q: seq<T>, h: seq<Event<T>>, k: seq<Event<T>>)
    ensures Replay(q, h + k) == (match Replay(q, h) case None => None case Some(q') => Replay(q', k))
    decreases |h|
  {
    if h == [] {
      assert h + k == k;
    } else {
      assert (h + k)[1..] == h[1..] + k;
      match Apply(q, h[0])
      case None =>
      case Some(q') => ReplayConcat(q', h[1..], k);
    }
  }

  function ValueOf<T>(e: Event<T>): seq<T> { if e.Put? then [e.x] else [] }

  function AnswerOf<T>(e: Event<T>): seq<Event<T>> { if e.Put? then [] else [e] }

  function RemovedBy<T>(e: Event<T>): seq<T> { if e.Took? then [e.x] else [] }

  /** What `f` keeps of each entry, in order. */
  ghost function Select<T, U>(h: seq<Event<T>>, f: Event<T> -> seq<U>): seq<U>
    decreases |h|
  {
    if h == [] then [] else Select(h[..|h| - 1], f) + f(h[|h| - 1])
  }

  lemma SelectSnoc<T, U>(h: seq<Event<T>>, e: Event<T>, f: Event<T> -> seq<U>)
    ensures Select(h + [e], f) == Select(h, f) + f(e)
  {
    assert (h + [e])[..|h|] == h;
  }

  ghost function Values<T>(h: seq<Event<T>>): seq<T> { Select(h, ValueOf) }

  ghost function Answers<T>(h: seq<Event<T>>): seq<Event<T>> { Select(h, AnswerOf) }

  ghost function Removed<T>(h: seq<Event<T>>): seq<T> { Select(h, RemovedBy) }

  /** Conservation and order: in a history a FIFO queue allows, the values removed are, in order, a
      prefix of the values put, and the rest is what the queue holds. */
  lemma {:induction false} Conservation<T>(h: seq<Event<T>>)
    requires Replay([], h).Some?
    ensures Values(h) == Removed(h) + Replay([], h).value
    decreases |h|
  {
    if h == [] {
    } else {
      var h0, e := h[..|h| - 1], h[|h| - 1];
      assert h == h0 + [e];
      ReplayConcat([], h0, [e]);
      var q := Replay([], h0).value;
      AppendEvent(h0, q, e);
      Conservation(h0);
      if e.Took? {
        assert q == [e.x] + q[1..];
      }
    }
  }

  lemma {:induction false} LastSaw<T>(h: seq<Event<T>>, x: T)
    requires Replay([], h).Some? && Answers(h) != [] && Answers(h)[|Answers(h)| - 1] == Saw(x)
    ensures Replay([], h).value != [] && Replay([], h).value[0] == x
    decreases |h|
  {
    var h0, e := h[..|h| - 1], h[|h| - 1];
    assert h == h0 + [e];
    ReplayConcat([], h0, [e]);
    AppendEvent(h0, Replay([], h0).value, e);
    SelectSnoc(h0, e, AnswerOf);
    if !e.Put? {
    } else {
      LastSaw(h0, x);
    }
  }

  /** A look at the head is binding: the consumer's next call removes, or sees, the very element seen,
      whatever is put in between. */
  lemma {:induction false} LookBinds<T>(h: seq<Event<T>>, i: nat, x: T)
    requires Replay([], h).Some? && i + 1 < |Answers(h)| && Answers(h)[i] == Saw(x)
    ensures Answers(h)[i + 1] == Took(x) || Answers(h)[i + 1] == Saw(x)
    decreases |h|
  {
    var h0, e := h[..|h| - 1], h[|h| - 1];
    assert h == h0 + [e];
    ReplayConcat([], h0, [e]);
    AppendEvent(h0, Replay([], h0).value, e);
    SelectSnoc(h0, e, AnswerOf);
    if i + 1 < |Answers(h0)| {
      LookBinds(h0, i, x);
    } else {
      LastSaw(h0, x);
    }
  }

  /** The values removed can be read off the answers. */
  lemma {:induction false} RemovedOfAnswers<T>(h: seq<Event<T>>)
    ensures Removed(Answers(h)) == Removed(h)
    decreases |h|
  {
    if h == [] {
    } else {
      var h0, e := h[..|h| - 1], h[|h| - 1];
      RemovedOfAnswers(h0);
      if e.Put? {
        assert Answers(h) == Answers(h0) && Removed(h) == Removed(h0);
      } else {
        SelectSnoc(Answers(h0), e, RemovedBy);
      }
    }
  }

  /** Every entry is a value put or an answer. */
  lemma {:induction false} PutsAndAnswers<T>(h: seq<Event<T>>)
    ensures |h| == |Values(h)| + |Answers(h)|
    decreases |h|
  {
    if h == [] {
    } else {
      PutsAndAnswers(h[..|h| - 1]);
    }
  }

  /** A longer prefix has as many values and answers, and more if it has the entry at `j`. */
  lemma {:induction false} PrefixCounts<T>(h: seq<Event<T>>, j: nat, k: nat)
    requires j <= k <= |h|
    ensures |Values(h[..j])| <= |Values(h[..k])| && |Answers(h[..j])| <= |Answers(h[..k])|
    ensures j < k && h[j].Put? ==> |Values(h[..j])| < |Values(h[..k])|
    ensures j < k && !h[j].Put? ==> |Answers(h[..j])| < |Answers(h[..k])|
    decreases k - j
  {
    if j == k {
    } else {
      PrefixCounts(h, j, k - 1);
      assert h[..k] == h[..k - 1] + [h[k - 1]];
      SelectSnoc(h[..k - 1], h[k - 1], ValueOf);
      SelectSnoc(h[..k - 1], h[k - 1], AnswerOf);
    }
  }

  predicate OnlyPuts<T>(h: seq<Event<T>>) {
    forall i :: 0 <= i < |h| ==> h[i].Put?
  }

  /** The entry a finished consumer call leaves in the history. */
  function EventOf<T>(call: Call, reply: Option<T>): Event<T> {
    match reply
    case None => Missed
    case Some(x) => if call.Peek? then Saw(x) else Took(x)
  }

  // ---- Steps ----

  function Init<T>(): Obj<T> { Obj([], [], 0, false, NoEnq, NoDeq) }

  function Max(a: nat, b: nat): nat { if a < b then b else a }

  ghost predicate ProducerStep<T>(cap: nat, o: Obj<T>, o': Obj<T>, l: Label<T>) {
    match l
    case CallEnq(x) =>
      o.producer.NoEnq? && o' == o.(producer := PendingEnq(x, |o.queue|, false))
    case RetEnq(x, ok) =>
      o.producer.DoneEnq? && o.producer.x == x && o.producer.ok == ok && o' == o.(producer := NoEnq)
    case Tau =>
      || o' == o
      || ProducerTau(cap, o, o')
    case CallDeq(_) => false
    case RetDeq(_, _) => false
  }

  /** A pending enqueue appends its element, or notices that the limit is reached, or gives up, which
      it may do only once the limit has been reached while it was pending. */
  ghost predicate ProducerTau<T>(cap: nat, o: Obj<T>, o': Obj<T>) {
    && o.producer.PendingEnq?
    && var p := o.producer;
       || o' == o.(queue := o.queue + [p.x], hist := o.hist + [Put(p.x)],
                   peak := Max(o.peak, |o.queue| + 1), producer := DoneEnq(p.x, true, p.held))
       || (|o.queue| >= cap && o' == o.(crowded := true, producer := p.(full := true)))
       || (p.full && o' == o.(producer := DoneEnq(p.x, false, p.held)))
       || (|o.queue| >= cap && o' == o.(crowded := true, producer := DoneEnq(p.x, false, p.held)))
  }

  ghost predicate ConsumerStep<T>(o: Obj<T>, o': Obj<T>, l: Label<T>) {
    match l
    case CallDeq(call) =>
      o.consumer.NoDeq? && o' == o.(consumer := PendingDeq(call, |o.hist|, None))
    case RetDeq(call, reply) =>
      o.consumer == DoneDeq(call, reply) && o' == o.(consumer := NoDeq)
    case Tau =>
      || o' == o
      || ConsumerTau(o, o')
    case CallEnq(_) => false
    case RetEnq(_, _) => false
  }

  /** A pending consumer call takes (or, for `Peek`, sees) the head, or notes that the queue is empty,
      or gives up, which puts its entry where the queue was noted empty. */
  ghost predicate ConsumerTau<T>(o: Obj<T>, o': Obj<T>) {
    && o.consumer.PendingDeq?
    && var c := o.consumer;
       || (&& o.queue != []
           && o' == o.(queue := if c.call.Peek? then o.queue else o.queue[1..],
                       hist := o.hist + [EventOf(c.call, Some(o.queue[0]))],
                       consumer := DoneDeq(c.call, Some(o.queue[0]))))
       || (o.queue == [] && o' == o.(consumer := c.(mark := Some(|o.hist|))))
       || (&& c.mark.Some? && c.mark.value <= |o.hist|
           && o' == o.(hist := o.hist[..c.mark.value] + [Missed] + o.hist[c.mark.value..],
                       consumer := DoneDeq(c.call, None)))
  }

  ghost predicate Step<T>(cap: nat, o: Obj<T>, o': Obj<T>, l: Label<T>) {
    ProducerStep(cap, o, o', l) || ConsumerStep(o, o', l)
  }

  // ---- What every run of the object keeps ----

  ghost predicate Inv<T>(cap: nat, o: Obj<T>) {
    && Replay([], o.hist) == Some(o.queue)
    && |o.queue| <= o.peak
    && (o.producer.PendingEnq? ==>
          && |o.queue| <= o.producer.held
          && (o.producer.full ==> cap <= o.producer.held && o.crowded))
    && (o.producer.DoneEnq? && !o.producer.ok ==> cap <= o.producer.held)
    && (o.consumer.PendingDeq? && o.consumer.mark.Some? ==>
          var k := o.consumer.mark.value;
          && o.consumer.since <= k <= |o.hist|
          && Replay([], o.hist[..k]) == Some([])
          && OnlyPuts(o.hist[k..]))
    && (o.consumer.PendingDeq? ==> o.consumer.since <= |o.hist|)
  }

  lemma AppendEvent<T>(h: seq<Event<T>>, q: seq<T>, e: Event<T>)
    requires Replay([], h) == Some(q)
    ensures Replay([], h + [e]) == Apply(q, e)
  {
    ReplayConcat([], h, [e]);
    match Apply(q, e)
    case None =>
    case Some(q') => assert [e][1..] == [];
  }

  /** Inserting a failed call where the queue was empty keeps a history legal and ends in the same
      queue. */
  lemma InsertMissed<T>(h: seq<Event<T>>, k: nat)
    requires k <= |h| && Replay([], h[..k]) == Some([])
    ensures Replay([], h[..k] + [Missed] + h[k..]) == Replay([], h)
  {
    AppendEvent(h[..k], [], Missed);
    ReplayConcat([], h[..k] + [Missed], h[k..]);
    ReplayConcat([], h[..k], h[k..]);
    assert h[..k] + h[k..] == h;
  }

  lemma ProducerKeepsInv<T>(cap: nat, o: Obj<T>, o': Obj<T>, l: Label<T>)
    requires Inv(cap, o) && ProducerStep(cap, o, o', l)
    ensures Inv(cap, o')
  {
    if l.Tau? && o'.hist != o.hist {
      AppendEvent(o.hist, o.queue, Put(o.producer.x));
      if o.consumer.PendingDeq? && o.consumer.mark.Some? {
        var k := o.consumer.mark.value;
        assert o'.hist[..k] == o.hist[..k];
        assert o'.hist[k..] == o.hist[k..] + [Put(o.producer.x)];
      }
    }
  }

  /** A step leaves the history alone up to the place where the consumer's pending call began. */
  lemma PrefixKept<T>(cap: nat, o: Obj<T>, o': Obj<T>, l: Label<T>, k: nat)
    requires Inv(cap, o) && Step(cap, o, o', l)
    requires k <= |o.hist| && (o.consumer.PendingDeq? ==> k <= o.consumer.since)
    ensures k <= |o'.hist| && o'.hist[..k] == o.hist[..k]
    ensures o'.consumer.PendingDeq? ==> k <= o'.consumer.since
  {
  }

  lemma ConsumerKeepsInv<T>(cap: nat, o: Obj<T>, o': Obj<T>, l: Label<T>)
    requires Inv(cap, o) && ConsumerStep(o, o', l)
    ensures Inv(cap, o')
  {
    if l.Tau? && o' != o {
      var c := o.consumer;
      if o.queue != [] {
        AppendEvent(o.hist, o.queue, EventOf(c.call, Some(o.queue[0])));
      } else if o'.consumer.PendingDeq? {
        assert o.hist[..|o.hist|] == o.hist;
      }
      if o'.consumer.DoneDeq? && o'.consumer.reply.None? {
        InsertMissed(o.hist, c.mark.value);
      }
    }
  }

  // ---- What is seen outside agrees with the history ----

  ghost function Replied<T>(t: seq<Label<T>>): seq<Event<T>> {
    if t == [] then []
    else
      var l := t[|t| - 1];
      Replied(t[..|t| - 1]) + (if l.RetDeq? then [EventOf(l.call, l.reply)] else [])
  }

  ghost function Accepted<T>(t: seq<Label<T>>): seq<T> {
    if t == [] then []
    else
      var l := t[|t| - 1];
      Accepted(t[..|t| - 1]) + (if l.RetEnq? && l.ok then [l.x] else [])
  }

  function Unreplied<T>(c: Consumer<T>): seq<Event<T>> {
    if c.DoneDeq? then [EventOf(c.call, c.reply)] else []
  }

  function Unreported<T>(p: Producer<T>): seq<T> {
    if p.DoneEnq? && p.ok then [p.x] else []
  }

  /** The history's answers are those returned so far, then the one about to be returned; its values
      are those whose enqueue reported success, then the one about to be reported. */
  ghost predicate Agrees<T>(o: Obj<T>, t: seq<Label<T>>) {
    && Answers(o.hist) == Replied(t) + Unreplied(o.consumer)
    && Values(o.hist) == Accepted(t) + Unreported(o.producer)
  }

  lemma RepliedSnoc<T>(t: seq<Label<T>>, l: Label<T>)
    ensures Replied(t + [l]) == Replied(t) + (if l.RetDeq? then [EventOf(l.call, l.reply)] else [])
    ensures Accepted(t + [l]) == Accepted(t) + (if l.RetEnq? && l.ok then [l.x] else [])
  {
    assert (t + [l])[..|t|] == t;
  }

  lemma PutAgrees<T>(o: Obj<T>, o': Obj<T>, x: T, t: seq<Label<T>>)
    requires Agrees(o, t) && o'.hist == o.hist + [Put(x)] && o'.consumer == o.consumer
    requires Unreported(o.producer) == [] && o'.producer.DoneEnq? && o'.producer.ok && o'.producer.x == x
    ensures Agrees(o', t + [Tau])
  {
    RepliedSnoc(t, Tau);
    SelectSnoc(o.hist, Put(x), ValueOf);
    SelectSnoc(o.hist, Put(x), AnswerOf);
  }

  lemma AnswerAgrees<T>(o: Obj<T>, o': Obj<T>, t: seq<Label<T>>)
    requires Agrees(o, t) && o.consumer.PendingDeq? && o'.consumer.DoneDeq? && o'.producer == o.producer
    requires var e := EventOf(o'.consumer.call, o'.consumer.reply);
             Answers(o'.hist) == Answers(o.hist) + [e] && Values(o'.hist) == Values(o.hist)
    ensures Agrees(o', t + [Tau])
  {
    RepliedSnoc(t, Tau);
  }

  lemma ProducerAgrees<T>(cap: nat, o: Obj<T>, o': Obj<T>, l: Label<T>, t: seq<Label<T>>)
    requires ProducerStep(cap, o, o', l) && Agrees(o, t)
    ensures Agrees(o', t + [l])
  {
    hide Replied, Accepted, Values, Answers;
    RepliedSnoc(t, l);
    assert Replied(t) + [] == Replied(t) && Accepted(t) + [] == Accepted(t);
    if l.Tau? && o'.producer.DoneEnq? && o' != o && o'.producer.ok {
      PutAgrees(o, o', o.producer.x, t);
    }
  }

  lemma ServedAgrees<T>(o: Obj<T>, o': Obj<T>, e: Event<T>, t: seq<Label<T>>)
    requires Agrees(o, t) && o.consumer.PendingDeq? && o'.consumer.DoneDeq? && o'.producer == o.producer
    requires e == EventOf(o'.consumer.call, o'.consumer.reply) && !e.Put? && o'.hist == o.hist + [e]
    ensures Agrees(o', t + [Tau])
  {
    SelectSnoc(o.hist, e, ValueOf);
    SelectSnoc(o.hist, e, AnswerOf);
    AnswerAgrees(o, o', t);
  }

  lemma EmptyAgrees<T>(o: Obj<T>, o': Obj<T>, k: nat, t: seq<Label<T>>)
    requires Agrees(o, t) && o.consumer.PendingDeq? && o'.consumer == DoneDeq(o.consumer.call, None)
    requires o'.producer == o.producer && k <= |o.hist| && OnlyPuts(o.hist[k..])
    requires o'.hist == o.hist[..k] + [Missed] + o.hist[k..]
    ensures Agrees(o', t + [Tau])
  {
    MissedAgrees(o.hist[..k], o.hist[k..]);
    assert o.hist[..k] + o.hist[k..] == o.hist;
    AnswerAgrees(o, o', t);
  }

  lemma ConsumerAgrees<T>(cap: nat, o: Obj<T>, o': Obj<T>, l: Label<T>, t: seq<Label<T>>)
    requires Inv(cap, o) && ConsumerStep(o, o', l) && Agrees(o, t)
    ensures Agrees(o', t + [l])
  {
    hide Agrees;
    if l.Tau? && o' != o && o'.consumer.DoneDeq? {
      if o'.consumer.reply.Some? {
        ServedAgrees(o, o', EventOf(o.consumer.call, Some(o.queue[0])), t);
      } else {
        EmptyAgrees(o, o', o.consumer.mark.value, t);
      }
    } else {
      CalmAgrees(o, o', l, t);
    }
  }

  /** Calls, returns and observations leave the history alone. */
  lemma CalmAgrees<T>(o: Obj<T>, o': Obj<T>, l: Label<T>, t: seq<Label<T>>)
    requires Agrees(o, t) && o'.hist == o.hist && o'.producer == o.producer && !l.RetEnq?
    requires if l.RetDeq? then o.consumer == DoneDeq(l.call, l.reply) && !o'.consumer.DoneDeq?
             else Unreplied(o'.consumer) == Unreplied(o.consumer)
    ensures Agrees(o', t + [l])
  {
    RepliedSnoc(t, l);
  }

  /** Only enqueues follow the moment at which the queue was noted empty, so the late entry is still
      the consumer's last one. */
  lemma {:induction false} MissedAgrees<T>(h: seq<Event<T>>, k: seq<Event<T>>)
    requires OnlyPuts(k)
    ensures Answers(h + [Missed] + k) == Answers(h + k) + [Missed]
    ensures Values(h + [Missed] + k) == Values(h + k)
    decreases |k|
  {
    if k == [] {
      assert h + k == h && h + [Missed] + k == h + [Missed];
      SelectSnoc(h, Missed, ValueOf);
      SelectSnoc(h, Missed, AnswerOf);
    } else {
      var k0, e := k[..|k| - 1], k[|k| - 1];
      MissedAgrees(h, k0);
      assert h + k == h + k0 + [e] && h + [Missed] + k == h + [Missed] + k0 + [e];
      SelectSnoc(h + k0, e, ValueOf);
      SelectSnoc(h + k0, e, AnswerOf);
      SelectSnoc(h + [Missed] + k0, e, ValueOf);
      SelectSnoc(h + [Missed] + k0, e, AnswerOf);
    }
  }
}
