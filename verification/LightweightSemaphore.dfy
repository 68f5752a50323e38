/** `LightweightSemaphore` as the class it is, with its spin loop and its undo loop.  Before each access
    of the waiting thread the signalling thread may take one step of its own, as `turns` says; the ghost
    field `s` is the state of the machine in `Semaphore`. */
module LightweightSemaphore {
  import opened Semaphore

  /** What the signalling thread does next: nothing, or one step. */
  datatype Turn = Nothing | Step(i: Input)

  /** `Waiting`: the turns are used up before the call could return. */
  datatype Outcome = Returned(ok: bool) | Waiting

  /** Nothing is signalled by an amount of zero. */
  predicate ProperTurns(turns: seq<Turn>) {
    forall j :: 0 <= j < |turns| && turns[j].Step? && turns[j].i.Signal? ==> turns[j].i.k >= 1
  }

  /** The signalling thread does nothing. */
  predicate Quiet(turns: seq<Turn>) { forall j :: 0 <= j < |turns| ==> turns[j].Nothing? }

  /** A negative time limit is none (line 589). */
  function PatienceOf(timeout: int): Patience { if timeout < 0 then Forever else Timed }

  lemma PatienceIs(timeout: int)
    ensures PatienceOf(timeout) == if timeout < 0 then Forever else Timed
  {
  }

  /** Of `before` turns `after` are left, and a wait that gives up then has been blocked for all of its time; what
      remains of the turns, if anything, comes after the spins too. */
  predicate TimeUp(before: nat, after: nat, timeout: int) {
    0 <= timeout <= before - after && (after == 0 || before - after >= 10000 + timeout)
  }

  lemma TimeUpIs(before: nat, after: nat, timeout: int)
    ensures TimeUp(before, after, timeout) <==> 0 <= timeout <= before - after && (after == 0 || before - after >= 10000 + timeout)
  {
  }

  class Sema {
    var m_count: int
    var m_sema: nat           // tokens of the kernel semaphore
    var signaller: Signaller  // where the signalling thread is
    ghost var s: State

    ghost predicate Valid()
      reads this
    {
      && (m_count, m_sema, signaller) == (s.count, s.tokens, s.signaller)
      && Inv(s) && (signaller.SAdd? ==> signaller.k >= 1)
    }

    constructor (initialCount: nat)
      ensures Valid() && s == Start(initialCount)
      ensures m_count == initialCount && m_sema == 0 && signaller.SIdle? && s.waiter == WIdle
    {
      m_count, m_sema, signaller, s := initialCount, 0, SIdle, Start(initialCount);
    }

    /** Lines 640-649, without a step of the waiting thread in between: the assertion holds, and a token
        is posted exactly for a waiter that has taken the count below zero.  The books are in order
        afterwards unless that waiter was signalled an amount of zero. */
    method Signal(count: nat)
      requires Valid() && signaller.SIdle?
      modifies this
      ensures Valid() <==> count >= 1 || old(m_count) >= 0
      ensures signaller.SIdle? && s.waiter == old(s.waiter) && s.grants == old(s.grants)
      ensures s.signals == old(s.signals) + count && m_count == old(m_count) + count
      ensures m_sema == old(m_sema) + (if old(m_count) < 0 then 1 else 0)
    {
      var oldCount := m_count;
      m_count := m_count + count;
      assert oldCount >= -1;
      if oldCount < 0 {
        m_sema := m_sema + 1;
      }
      s := SignallerNext(SignallerNext(SignallerNext(s, Input.Signal(count)), Go), Go);
    }

    /** The signalling thread takes its next turn. */
    method Interleave(turns: seq<Turn>) returns (rest: seq<Turn>)
      requires Valid() && ProperTurns(turns)
      modifies this
      ensures Valid() && ProperTurns(rest) && rest == if turns == [] then [] else turns[1..]
      ensures s.waiter == old(s.waiter) && s.grants == old(s.grants) && s.signals >= old(s.signals)
      ensures Quiet(turns) ==> Quiet(rest) && s == old(s) && signaller == old(signaller)
    {
      rest := turns;
      if turns != [] {
        rest := turns[1..];
        if turns[0].Step? {
          var i := turns[0].i;
          SignalKeepsBooks(s, i);
          s := SignallerNext(s, i);
          match signaller
          case SIdle => signaller := if i.Signal? then SAdd(i.k) else SIdle;
          case SAdd(k) =>
            signaller := if m_count < 0 then SPost else SIdle;
            m_count := m_count + k;
          case SPost =>
            signaller := SIdle;
            m_sema := m_sema + 1;
          case SFault =>
        }
      }
    }

    /** `tryWait()`: it fails only when every signal is used up, and without waiting. */
    method TryWait(turns: seq<Turn>) returns (ok: bool, rest: seq<Turn>)
      requires Valid() && ProperTurns(turns) && s.waiter == WIdle
      modifies this
      ensures Quiet(turns) ==> Quiet(rest) && signaller == old(signaller) && s.signals == old(s.signals)
      ensures Valid() && ProperTurns(rest) && s.waiter == WIdle && s.grants == old(s.grants) + (if ok then 1 else 0)
      ensures m_count == s.signals - s.grants >= 0 && (!ok ==> s.signals == s.grants)
      ensures rest == if ok && turns != [] then turns[1..] else turns
    {
      WaitKeepsBooks(s, Input.Wait(Once));
      s := WaiterNext(s, Input.Wait(Once));
      ok, rest := Look(turns, Once);
      WaitKeepsBooks(s, Go);
      s := WaiterNext(s, Go);
    }

    /** The load of line 621 and the decrement of line 623. */
    method Look(turns: seq<Turn>, ghost p: Patience) returns (ok: bool, rest: seq<Turn>)
      requires Valid() && ProperTurns(turns) && s.waiter == WTryLoad(p)
      modifies this
      ensures Quiet(turns) ==> Quiet(rest) && signaller == old(signaller) && s.signals == old(s.signals)
      ensures Valid() && ProperTurns(rest) && s.grants == old(s.grants) + (if ok then 1 else 0)
      ensures s.waiter == if ok then WReturn(true) else if p.Once? then WReturn(false) else WSpin(p, SPINS)
      ensures !ok ==> s.signals == s.grants
      ensures rest == if ok && turns != [] then turns[1..] else turns
    {
      WaitKeepsBooks(s, Go);
      s := WaiterNext(s, Go);
      ok, rest := m_count > 0, turns;
      if ok {
        rest := Interleave(turns);
        WaitKeepsBooks(s, Go);
        s := WaiterNext(s, Go);
        m_count := m_count - 1;
      }
    }

    /** The spin loop (lines 576-585): 10000 turns pass, if there are as many, before it goes on to the decrement. */
    method Spin(turns: seq<Turn>, ghost p: Patience) returns (ok: bool, rest: seq<Turn>)
      requires Valid() && ProperTurns(turns) && s.waiter == WSpin(p, SPINS)
      modifies this
      ensures Quiet(turns) ==> Quiet(rest) && signaller == old(signaller) && s.signals == old(s.signals)
      ensures Valid() && ProperTurns(rest) && s.grants == old(s.grants) + (if ok then 1 else 0)
      ensures s.waiter == if ok then WReturn(true) else WDecrement(p)
      ensures |rest| <= |turns| && (!ok ==> |turns| - |rest| == if |turns| < 10000 then |turns| else 10000)
    {
      hide Quiet, ProperTurns;
      rest := turns;
      var spin := SPINS;
      while spin > 0
        invariant Quiet(turns) ==> Quiet(rest) && signaller == old(signaller) && s.signals == old(s.signals)
        invariant Valid() && ProperTurns(rest) && s.waiter == WSpin(p, spin) && s.grants == old(s.grants)
        invariant |turns| - |rest| == if |turns| < SPINS - spin then |turns| else SPINS - spin
      {
        rest := Interleave(rest);
        WaitKeepsBooks(s, Go);
        s := WaiterNext(s, Go);
        spin := spin - 1;
        if m_count > 0 {
          rest := Interleave(rest);
          WaitKeepsBooks(s, Go);
          s := WaiterNext(s, Go);
          m_count := m_count - 1;
          return true, rest;
        }
      }
      WaitKeepsBooks(s, Go);
      s := WaiterNext(s, Go);
      ok := false;
    }

    /** The wait in the kernel (lines 589-595); a timed one gives up after `timeout` turns, no earlier. */
    method Block(turns: seq<Turn>, timeout: int) returns (r: Outcome, rest: seq<Turn>)
      requires Valid() && ProperTurns(turns) && s.waiter == WBlock(PatienceOf(timeout))
      modifies this
      ensures Quiet(turns) ==> Quiet(rest) && signaller == old(signaller) && s.signals == old(s.signals)
      ensures Valid() && ProperTurns(rest) && |rest| <= |turns|
      ensures s.grants == old(s.grants) + (if r == Returned(true) then 1 else 0)
      ensures match r case Returned(ok) => s.waiter == (if ok then WReturn(true) else WUndo) && (!ok ==> |turns| - |rest| == timeout)
                      case Waiting => s.waiter == old(s.waiter) && rest == [] && m_sema == 0
                                      && (s.signals > s.grants ==> signaller.SPost?) && !(0 <= timeout <= |turns|)
    {
      rest := turns;
      var left := timeout;
      while m_sema == 0 && rest != [] && left != 0
        invariant Quiet(turns) ==> Quiet(rest) && signaller == old(signaller) && s.signals == old(s.signals)
        invariant Valid() && ProperTurns(rest) && s.waiter == old(s.waiter) && s.grants == old(s.grants)
        invariant |turns| - |rest| == timeout - left && (timeout >= 0 ==> left >= 0)
        decreases |rest|
      {
        rest := Interleave(rest);
        left := left - 1;
      }
      var taken := m_sema > 0;
      if !taken && left != 0 {
        return Waiting, rest;
      }
      WaitKeepsBooks(s, if taken then Go else Expire);
      s := WaiterNext(s, if taken then Go else Expire);
      if taken {
        m_sema := m_sema - 1;
      }
      r := Returned(taken);
    }

    /** The undo loop (lines 601-610).  It ends with nothing taken only when nothing is left to take, and
        leaves no token behind either way; it goes on only while the signalling thread has yet to post. */
    method Undo(turns: seq<Turn>) returns (r: Outcome, rest: seq<Turn>)
      requires Valid() && ProperTurns(turns) && s.waiter == WUndo
      modifies this
      ensures Quiet(turns) ==> Quiet(rest) && signaller == old(signaller) && s.signals == old(s.signals)
      ensures Valid() && ProperTurns(rest) && |rest| <= |turns|
      ensures s.grants == old(s.grants) + (if r == Returned(true) then 1 else 0)
      ensures match r case Returned(ok) => s.waiter == WReturn(ok) && m_sema == 0 && (!ok ==> s.signals == s.grants)
                      case Waiting => s.waiter == WUndo && rest == [] && m_count >= 0 && m_sema == 0 && signaller.SPost?
    {
      hide Quiet, ProperTurns;
      rest := turns;
      while true
        invariant Quiet(turns) ==> Quiet(rest) && signaller == old(signaller) && s.signals == old(s.signals)
        invariant Valid() && ProperTurns(rest) && s.waiter == WUndo && s.grants == old(s.grants) && |rest| <= |turns|
        decreases |rest|
      {
        rest := Interleave(rest);
        WaitKeepsBooks(s, Go);
        s := WaiterNext(s, Go);
        var oldCount := m_count;
        m_count := m_count + 1;
        if oldCount < 0 {
          return Returned(false), rest;
        }
        rest := Interleave(rest);
        WaitKeepsBooks(s, Go);
        s := WaiterNext(s, Go);
        oldCount := m_count;
        m_count := m_count - 1;
        assert oldCount > 0;  // the first half of the test of line 608
        var more := rest != [];
        rest := Interleave(rest);
        var token := m_sema > 0;
        WaitKeepsBooks(s, Go);
        s := WaiterNext(s, Go);
        if token {
          m_sema := m_sema - 1;
          return Returned(true), rest;
        }
        if !more {
          return Waiting, rest;
        }
      }
    }

    /** `waitWithPartialSpinning`, `timeout` being a number of turns.  It gives up only after it has been blocked for
        that many; a timed one is still waiting only if the turns are too few or a post is under way. */
    method WaitWithPartialSpinning(turns: seq<Turn>, timeout: int) returns (r: Outcome, rest: seq<Turn>)
      requires Valid() && ProperTurns(turns) && s.waiter == WSpin(PatienceOf(timeout), SPINS)
      modifies this
      ensures Quiet(turns) ==> Quiet(rest) && signaller == old(signaller) && s.signals == old(s.signals)
      ensures Valid() && ProperTurns(rest) && |rest| <= |turns|
      ensures s.grants == old(s.grants) + (if r == Returned(true) then 1 else 0)
      ensures match r case Returned(ok) => s.waiter == WReturn(ok) && (!ok ==> s.signals == s.grants && TimeUp(|turns|, |rest|, timeout))
                      case Waiting => rest == [] && m_sema == 0 && (s.waiter.WBlock? || s.waiter.WUndo?)
                                      && (s.signals > s.grants || 0 <= timeout < |turns| - 10000 ==> signaller.SPost?)
    {
      hide *;
      ghost var p := PatienceOf(timeout);
      PatienceIs(timeout);
      var ok;
      ok, rest := Spin(turns, p);
      if !ok {
        ok, rest := Decrement(rest, p);
      }
      r := Returned(ok);
      if !ok {
        r, rest := Block(rest, timeout);
        if r == Returned(false) {
          r, rest := Undo(rest);
          TimeUpIs(|turns|, |rest|, timeout);
        }
      }
    }

    /** Lines 586-588. */
    method Decrement(turns: seq<Turn>, ghost p: Patience) returns (ok: bool, rest: seq<Turn>)
      requires Valid() && ProperTurns(turns) && s.waiter == WDecrement(p)
      modifies this
      ensures Quiet(turns) ==> Quiet(rest) && signaller == old(signaller) && s.signals == old(s.signals)
      ensures Valid() && ProperTurns(rest) && s.grants == old(s.grants) + (if ok then 1 else 0)
      ensures s.waiter == if ok then WReturn(true) else WBlock(p)
      ensures rest == if turns == [] then [] else turns[1..]
    {
      rest := Interleave(turns);
      WaitKeepsBooks(s, Go);
      s := WaiterNext(s, Go);
      var oldCount := m_count;
      m_count := m_count - 1;
      ok := oldCount > 0;
    }

    /** `wait()` and `wait(timeout)`: once the call has returned the count is what has been signalled and
        not granted, and no token is present or about to be posted.  It fails only with every signal used up, after
        10000 looks and `timeout` turns in the kernel, and never without a time limit (a negative `timeout`). */
    method Wait(turns: seq<Turn>, timeout: int) returns (r: Outcome, rest: seq<Turn>)
      requires Valid() && ProperTurns(turns) && s.waiter == WIdle
      modifies this
      ensures Quiet(turns) ==> Quiet(rest) && signaller == old(signaller) && s.signals == old(s.signals)
      ensures Valid() && ProperTurns(rest) && |rest| <= |turns|
      ensures s.grants == old(s.grants) + (if r == Returned(true) then 1 else 0)
      ensures match r case Returned(ok) => s.waiter == WIdle && m_count == s.signals - s.grants >= 0 && m_sema == 0 && !signaller.SPost?
                                           && (!ok ==> s.signals == s.grants && TimeUp(|turns|, |rest|, timeout))
                      case Waiting => rest == [] && m_sema == 0
                                      && (s.signals > s.grants || 0 <= timeout < |turns| - 10000 ==> signaller.SPost?)
    {
      hide Quiet, ProperTurns;
      ghost var p := PatienceOf(timeout);
      WaitKeepsBooks(s, Input.Wait(p));
      s := WaiterNext(s, Input.Wait(p));
      var ok;
      ok, rest := Look(turns, p);
      r := Returned(ok);
      if !ok {
        r, rest := WaitWithPartialSpinning(rest, timeout);
      }
      if r.Returned? {
        WaitKeepsBooks(s, Go);
        s := WaiterNext(s, Go);
      }
    }
  }
}
