/** `LightweightSemaphore` with one signalling and one waiting thread, every interleaving of their
    atomic accesses to `m_count` and to the kernel semaphore.  The kernel semaphore is a number of
    tokens; a timed wait may expire at any moment. */
module Semaphore {

  /** What the waiter asked for: `tryWait()`, `wait()`, or `wait(timeout)`. */
  datatype Patience = Once | Forever | Timed

  datatype Signaller =
    | SIdle
    | SAdd(k: nat)   // 643: fetch_add
    | SPost          // 647: m_sema.signal
    | SFault

  datatype Waiter =
    | WIdle
    | WTryLoad(p: Patience)             // 621
    | WTryTake                          // 623
    | WSpin(p: Patience, left: nat)     // 577-579
    | WSpinTake                         // 581
    | WDecrement(p: Patience)           // 586
    | WBlock(p: Patience)               // 591, 594
    | WUndo                             // 603
    | WRedo                             // 607
    | WTryKernel                        // 608
    | WReturn(ok: bool)

  /** `signals` adds up the amounts signalled, `grants` counts the waits that have succeeded. */
  datatype State = State(count: int, tokens: nat, signaller: Signaller, waiter: Waiter, signals: nat, grants: nat)

  datatype Input = Go | Signal(k: nat) | Wait(p: Patience) | Expire

  const SPINS: nat := 10000

  function Start(initial: nat): State { State(initial, 0, SIdle, WIdle, initial, 0) }

  function SignallerNext(s: State, i: Input): State {
    match s.signaller
    case SIdle => if i.Signal? then s.(signaller := SAdd(i.k)) else s
    case SAdd(k) =>
      s.(count := s.count + k, signals := s.signals + k,
         signaller := if s.count < -1 then SFault else if s.count < 0 then SPost else SIdle)
    case SPost => s.(tokens := s.tokens + 1, signaller := SIdle)
    case SFault => s
  }

  function WaiterNext(s: State, i: Input): State {
    match s.waiter
    case WIdle => if i.Wait? then s.(waiter := WTryLoad(i.p)) else s
    case WTryLoad(p) =>
      s.(waiter := if s.count > 0 then WTryTake else if p.Once? then WReturn(false) else WSpin(p, SPINS))
    case WTryTake => Grant(s.(count := s.count - 1))
    case WSpin(p, left) =>
      s.(waiter := if left == 0 then WDecrement(p) else if s.count > 0 then WSpinTake else WSpin(p, left - 1))
    case WSpinTake => Grant(s.(count := s.count - 1))
    case WDecrement(p) =>
      if s.count > 0 then Grant(s.(count := s.count - 1)) else s.(count := s.count - 1, waiter := WBlock(p))
    case WBlock(p) =>
      if i.Expire? && p.Timed? then s.(waiter := WUndo)
      else if s.tokens > 0 then Grant(s.(tokens := s.tokens - 1))
      else s
    case WUndo => s.(count := s.count + 1, waiter := if s.count < 0 then WReturn(false) else WRedo)
    case WRedo => s.(count := s.count - 1, waiter := if s.count > 0 then WTryKernel else WUndo)
    case WTryKernel => if s.tokens > 0 then Grant(s.(tokens := s.tokens - 1)) else s.(waiter := WUndo)
    case WReturn(_) => s.(waiter := WIdle)
  }

  function Grant(s: State): State { s.(grants := s.grants + 1, waiter := WReturn(true)) }

  // ---- The books ----

  /** Where the waiter stands towards the count: it has not touched it; it has seen it positive; it has
      taken one off and owes it back unless a token comes; or it has put that one back although a token
      is under way. */
  datatype Phase = Clear | Sure | Owing | Restored

  function PhaseOf(w: Waiter): Phase {
    match w
    case WTryTake => Sure
    case WSpinTake => Sure
    case WBlock(_) => Owing
    case WUndo => Owing
    case WTryKernel => Owing
    case WRedo => Restored
    case _ => Clear
  }

  /** `under` is the number of kernel tokens present or about to be posted, `free` the number of signals
      no wait has used. */
  predicate Books(count: int, under: nat, free: int, phase: Phase) {
    match phase
    case Clear => count == free >= 0 && under == 0
    case Sure => count == free >= 1 && under == 0
    case Owing => count == free - 1 >= -1 && under == (if count < 0 then 0 else 1)
    case Restored => count == free >= 1 && under == 1
  }

  function Under(s: State): nat { s.tokens + (if s.signaller.SPost? then 1 else 0) }

  predicate Inv(s: State) {
    && !s.signaller.SFault?
    && Books(s.count, Under(s), s.signals - s.grants, PhaseOf(s.waiter))
    && (s.waiter.WTryKernel? ==> s.count >= 0)
  }

  lemma ConservesSignals(s: State)
    requires Inv(s)
    ensures s.grants <= s.signals
  {
  }

  /** A wait touches neither the signaller nor its signals, and counts as granted when it comes to
      return true. */
  lemma WaitGrants(s: State, i: Input)
    requires s.waiter != WReturn(true)
    ensures var s' := WaiterNext(s, i);
            && s'.signaller == s.signaller && s'.signals == s.signals
            && s'.grants == s.grants + (if s'.waiter == WReturn(true) then 1 else 0)
            && (s'.waiter.WIdle? <==> s.waiter.WReturn? || (s.waiter.WIdle? && !i.Wait?))
            && (s.waiter.WReturn? || s.waiter.WIdle? ==> s'.waiter != WReturn(true))
  {
  }

  /** The waiter is where a wait with patience `p` may be. */
  predicate Waits(w: Waiter, p: Patience) {
    match w
    case WIdle => false
    case WTryLoad(q) => q == p
    case WTryTake => true
    case WSpin(q, _) => q == p && !p.Once?
    case WSpinTake => !p.Once?
    case WDecrement(q) => q == p && !p.Once?
    case WBlock(q) => q == p && !p.Once?
    case WUndo => p.Timed?
    case WRedo => p.Timed?
    case WTryKernel => p.Timed?
    case WReturn(ok) => ok || !p.Forever?
  }

  /** Only an attempt or a timed wait can fail: `wait()` returns with a permit. */
  lemma WaitsOn(s: State, i: Input, p: Patience)
    ensures s.waiter.WIdle? && i == Wait(p) ==> Waits(WaiterNext(s, i).waiter, p)
    ensures Waits(s.waiter, p) && !s.waiter.WReturn? ==> Waits(WaiterNext(s, i).waiter, p)
  {
  }

  /** The whole invariant survives a signal exactly if the signal is for something or nobody waits in
      the kernel: `signal(0)` to a blocked waiter posts a token that no signal stands for. */
  lemma SignalKeepsBooks(s: State, i: Input)
    requires Inv(s)
    ensures Inv(SignallerNext(s, i)) <==> (s.signaller.SAdd? && s.count < 0 ==> s.signaller.k >= 1)
  {
  }

  lemma WaitKeepsBooks(s: State, i: Input)
    requires Inv(s)
    ensures Inv(WaiterNext(s, i))
  {
  }

  // ---- Runs ----

  datatype Move = BySignaller(i: Input) | ByWaiter(i: Input)

  function Next(s: State, m: Move): State {
    match m
    case BySignaller(i) => SignallerNext(s, i)
    case ByWaiter(i) => WaiterNext(s, i)
  }

  function Reach(initial: nat, sched: seq<Move>): State {
    if sched == [] then Start(initial) else Next(Reach(initial, sched[..|sched| - 1]), sched[|sched| - 1])
  }

  /** No call signals an amount of zero. */
  predicate Proper(sched: seq<Move>) {
    forall j :: 0 <= j < |sched| && sched[j].BySignaller? && sched[j].i.Signal? ==> sched[j].i.k >= 1
  }

  lemma {:induction false} ReachInv(initial: nat, sched: seq<Move>)
    requires Proper(sched)
    ensures Inv(Reach(initial, sched))
    ensures Reach(initial, sched).signaller.SAdd? ==> Reach(initial, sched).signaller.k >= 1
    decreases |sched|
  {
    if sched == [] {
    } else {
      var before, m := sched[..|sched| - 1], sched[|sched| - 1];
      ReachInv(initial, before);
      if m.BySignaller? {
        SignalKeepsBooks(Reach(initial, before), m.i);
      } else {
        WaitKeepsBooks(Reach(initial, before), m.i);
      }
    }
  }

  /** In every run: the count stays at -1 or above, no more waits succeed than there were signals, the
      assertion of line 644 holds, and when no wait is going on the count is exact and no kernel token
      is left over, whether the last wait succeeded, failed, or timed out. */
  lemma CountIsExact(initial: nat, sched: seq<Move>)
    requires Proper(sched)
    ensures var s := Reach(initial, sched);
            && -1 <= s.count && s.grants <= s.signals && !s.signaller.SFault?
            && (s.waiter.WIdle? || s.waiter.WReturn? ==>
                  s.count == s.signals - s.grants && s.tokens == 0 && !s.signaller.SPost?)
  {
    ReachInv(initial, sched);
  }

  /** No lost wake-up: if the waiter is blocked in the kernel while signals outnumber successful waits,
      exactly one token is there or about to be posted, and one that is there lets it go. */
  lemma NoLostWakeUp(initial: nat, sched: seq<Move>, i: Input)
    requires Proper(sched) && Reach(initial, sched).waiter.WBlock?
    requires Reach(initial, sched).signals > Reach(initial, sched).grants
    ensures var s := Reach(initial, sched);
            && (s.tokens == 1 <==> !s.signaller.SPost?) && s.tokens <= 1
            && (s.tokens == 1 && !i.Expire? ==> WaiterNext(s, i).waiter == WReturn(true))
            && (s.signaller.SPost? ==> SignallerNext(s, i).tokens == 1)
  {
    ReachInv(initial, sched);
  }

  /** A wait that times out gives up only when every signal is used up; while one is not, the undo loop
      goes round again only as long as the signaller has yet to post. */
  lemma TimeoutIsHonest(initial: nat, sched: seq<Move>, i: Input)
    requires Proper(sched)
    ensures var s := Reach(initial, sched);
            && (s.waiter.WUndo? && WaiterNext(s, i).waiter == WReturn(false) ==> s.signals == s.grants)
            && (s.waiter.WUndo? && s.signals == s.grants ==> WaiterNext(s, i).waiter == WReturn(false))
            && (s.waiter.WRedo? ==> WaiterNext(s, i).waiter.WTryKernel?)
            && (s.waiter.WTryKernel? && !WaiterNext(s, i).waiter.WReturn? ==> s.signaller.SPost?)
  {
    ReachInv(initial, sched);
  }

  /** A run in which a wait succeeds although nothing was ever signalled: the waiter blocks, and
      `signal(0)` wakes it. */
  lemma SignalZeroForgesPermit() returns (sched: seq<Move>)
    ensures Reach(0, sched).signals == 0 && Reach(0, sched).grants == 1
    ensures Reach(0, sched).waiter == WReturn(true)
  {
    hide Reach;
    var spun := BlockedRun();
    sched := Append(0, spun, BySignaller(Signal(0)));
    sched := Append(0, sched, BySignaller(Go));
    sched := Append(0, sched, BySignaller(Go));
    sched := Append(0, sched, ByWaiter(Go));
  }

  lemma Append(initial: nat, sched: seq<Move>, m: Move) returns (sched': seq<Move>)
    ensures Reach(initial, sched') == Next(Reach(initial, sched), m)
  {
    sched' := sched + [m];
    assert sched'[..|sched|] == sched;
  }

  lemma BlockedRun() returns (sched: seq<Move>)
    ensures Reach(0, sched) == State(-1, 0, SIdle, WBlock(Forever), 0, 0)
  {
    sched := Append(0, [], ByWaiter(Wait(Forever)));
    hide Reach;
    sched := Append(0, sched, ByWaiter(Go));
    sched := Spun(sched, SPINS);
    sched := Append(0, sched, ByWaiter(Go));
    sched := Append(0, sched, ByWaiter(Go));
  }

  lemma {:induction false} Spun(from: seq<Move>, left: nat) returns (sched: seq<Move>)
    requires Reach(0, from) == State(0, 0, SIdle, WSpin(Forever, left), 0, 0)
    ensures Reach(0, sched) == State(0, 0, SIdle, WSpin(Forever, 0), 0, 0)
    decreases left
  {
    hide Reach;
    if left == 0 {
      sched := from;
    } else {
      var next := Append(0, from, ByWaiter(Go));
      sched := Spun(next, left - 1);
    }
  }
}
