/** `BlockingReaderWriterQueue` as the class it is, for calls that nothing interrupts; the interleavings
    are in `BlockingQueue`. */
module BlockingReaderWriterQueue {
  import opened Wrappers
  import opened Words
  import M = Semaphore
  import Sizing
  import ReaderWriterQueue
  import LightweightSemaphore

  class Queue<T> {
    const inner: ReaderWriterQueue.Queue<T>
    const sema: LightweightSemaphore.Sema

    /** Both parts are idle, and there is one permit for each element. */
    ghost predicate Valid()
      reads this, inner, inner.Repr, sema
    {
      && sema !in inner.Repr
      && inner.Valid() && inner.s.prod.PIdle? && inner.s.cons.CIdle?
      && sema.Valid() && sema.s.waiter == M.WIdle && sema.signaller.SIdle?
      && sema.m_count == |inner.Contents()|
    }

    lemma Opened()
      requires Valid()
      ensures sema !in inner.Repr && inner.Valid() && inner.s.prod.PIdle? && inner.s.cons.CIdle?
      ensures sema.Valid() && sema.s.waiter == M.WIdle && sema.signaller.SIdle? && sema.m_count == |inner.Contents()|
      ensures sema.s.signals - sema.s.grants == |inner.Contents()|
    {
      hide ReaderWriterQueue.Queue.Valid;
    }

    lemma Closed()
      requires sema !in inner.Repr && inner.Valid() && inner.s.prod.PIdle? && inner.s.cons.CIdle?
      requires sema.Valid() && sema.s.waiter == M.WIdle && sema.signaller.SIdle? && sema.m_count == |inner.Contents()|
      ensures Valid()
    {
    }

    lemma AllNothing(turns: seq<LightweightSemaphore.Turn>)
      requires forall j :: 0 <= j < |turns| ==> turns[j].Nothing?
      ensures LightweightSemaphore.Quiet(turns) && LightweightSemaphore.ProperTurns(turns)
    {
    }

    constructor (maxSize: nat, maxBlock: nat)
      requires 1 <= maxSize < 0x8000_0000_0000_0000
      requires 2 <= maxBlock < 0x8000_0000_0000_0000 && IsPow2(maxBlock)
      ensures Valid() && inner.Contents() == [] && inner.cfg.cap == maxSize
      ensures fresh(inner) && fresh(inner.Repr) && fresh(sema)
    {
      hide *;
      Sizing.SizedIsValid(maxSize, maxBlock);
      sema := new LightweightSemaphore.Sema(0);
      inner := new ReaderWriterQueue.Queue<T>(maxSize, maxBlock);
      new;
      Closed();
    }

    /** Lines 697-739: a successful enqueue gives one permit. */
    method Enqueue(x: T, canAlloc: bool, memory: bool) returns (ok: bool)
      requires Valid()
      modifies inner, inner.Repr, sema
      ensures Valid() && fresh(inner.Repr - old(inner.Repr))
      ensures inner.Contents() == old(inner.Contents()) + (if ok then [x] else [])
      ensures ok <==> !old(inner.NoRoom()) || (canAlloc && memory)
      ensures if ok && old(inner.NoRoom()) then inner.OneMoreBlock(old(inner.Repr), old(inner.largestBlockSize))
              else inner.Repr == old(inner.Repr) && inner.largestBlockSize == old(inner.largestBlockSize)
      ensures !ok ==> |inner.Contents()| >= inner.cfg.cap
    {
      hide *;
      Opened();
      ok := inner.InnerEnqueue(x, canAlloc, memory);
      if ok {
        sema.Signal(1);
      }
      Closed();
    }

    /** Lines 747-757: a permit means an element, so that the inner call succeeds; no permit means that the
        queue is empty. */
    method TryDequeue() returns (reply: Option<T>)
      requires Valid()
      modifies inner, inner.Repr, sema
      ensures Valid() && fresh(inner.Repr - old(inner.Repr))
      ensures var q := old(inner.Contents());
              reply == (if q == [] then None else Some(q[0])) && inner.Contents() == (if q == [] then q else q[1..])
    {
      hide *;
      Opened();
      AllNothing([]);
      var ok, _ := sema.TryWait([]);
      if !ok {
        Closed();
        return None;
      }
      var success, _ := inner.TryDequeue([]);
      assert success.Some?;
      Closed();
      reply := success;
    }

    /** Lines 780-790 and, with a negative `timeout`, 763-770, while the producer does nothing for `time` turns, of which
        `left` are left when the call returns.  On an empty queue it fails after 10000 looks and `timeout` turns in the
        kernel, or is still waiting if there is no limit or `time` is too short. */
    method WaitDequeue(timeout: int, time: nat) returns (reply: Option<T>, waiting: bool, left: nat)
      requires Valid()
      modifies inner, inner.Repr, sema
      ensures fresh(inner.Repr - old(inner.Repr)) && (!waiting ==> Valid()) && left <= time
      ensures var q := old(inner.Contents());
              && reply == (if q == [] then None else Some(q[0])) && inner.Contents() == (if q == [] then q else q[1..])
              && (waiting ==> q == [] && !(0 <= timeout < time - 10000))
              && (q == [] && !waiting ==> 0 <= timeout <= time - left && (left == 0 || time - left >= 10000 + timeout))
    {
      hide *;
      Opened();
      var turns := seq(time, _ => LightweightSemaphore.Nothing);
      AllNothing(turns);
      var r, rest := sema.Wait(turns, timeout);
      left := |rest|;
      if r.Waiting? {
        return None, true, left;
      }
      LightweightSemaphore.TimeUpIs(time, left, timeout);
      if !r.ok {
        Closed();
        return None, false, left;
      }
      var success, _ := inner.TryDequeue([]);
      assert success.Some?;
      Closed();
      reply, waiting := success, false;
    }

    /** Lines 821-830. */
    method Pop() returns (ok: bool)
      requires Valid()
      modifies inner, inner.Repr, sema
      ensures Valid() && fresh(inner.Repr - old(inner.Repr))
      ensures var q := old(inner.Contents());
              ok == (q != []) && inner.Contents() == (if q == [] then q else q[1..])
    {
      hide *;
      Opened();
      AllNothing([]);
      var permit, _ := sema.TryWait([]);
      ok := permit;
      if ok {
        var result, _ := inner.Pop([]);
        assert result;
      }
      Closed();
    }

    /** Lines 834-837. */
    method SizeApprox() returns (n: nat)
      requires Valid()
      ensures n == |inner.Contents()|
    {
      Opened();
      n := if sema.m_count > 0 then sema.m_count else 0;
    }
  }
}
