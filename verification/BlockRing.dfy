/** The ring that the blocks' `next` fields make: distinct blocks, one cycle, a block more, a turn. */
module BlockRing {
  import opened Blocks
  import opened Slots
  import opened QueueBlock

  function NextIn<T>(ring: seq<Block<T>>, i: nat): Block<T>
    requires i < |ring|
  {
    if i + 1 == |ring| then ring[0] else ring[i + 1]
  }

  ghost predicate Apart<T>(ring: seq<Block<T>>) {
    forall i, j :: 0 <= i < j < |ring| ==> ring[i] != ring[j] && ring[i].data != ring[j].data
  }

  function InsertedAt<T>(ring: seq<Block<T>>, k: nat, nb: Block<T>): seq<Block<T>>
    requires k < |ring|
  {
    ring[..k + 1] + [nb] + ring[k + 1..]
  }

  lemma InsertedAtIs<T>(ring: seq<Block<T>>, k: nat, nb: Block<T>)
    requires k < |ring|
    ensures var r := InsertedAt(ring, k, nb); |r| == |ring| + 1 && r[0] == ring[0] && r[k] == ring[k] && r[k + 1] == nb
  {
  }

  lemma ApartOther<T>(ring: seq<Block<T>>, i: nat, k: nat)
    requires Apart(ring) && i < |ring| && k < |ring| && i != k
    ensures ring[i] != ring[k] && ring[i].data != ring[k].data
  {
    if i < k { } else { }
  }

  lemma ApartInserted<T>(ring: seq<Block<T>>, k: nat, nb: Block<T>)
    requires Apart(ring) && k < |ring|
    requires forall i :: 0 <= i < |ring| ==> ring[i] != nb && ring[i].data != nb.data
    ensures Apart(InsertedAt(ring, k, nb))
  {
    var r := InsertedAt(ring, k, nb);
    forall i, j | 0 <= i < j < |r|
      ensures r[i] != r[j] && r[i].data != r[j].data
    {
      var i', j' := if i <= k then i else i - 1, if j <= k then j else j - 1;
      if i != k + 1 && j != k + 1 {
        assert r[i] == ring[i'] && r[j] == ring[j'];
      }
    }
  }

  lemma ApartRotated<T>(ring: seq<Block<T>>)
    requires Apart(ring) && ring != []
    ensures Apart(Turned(ring))
  {
    var r := Turned(ring);
    forall i, j | 0 <= i < j < |r|
      ensures r[i] != r[j] && r[i].data != r[j].data
    {
      ApartOther(ring, i + 1, if j + 1 == |r| then 0 else j + 1);
    }
  }

  lemma InsertedClosed<T>(ring: seq<Block<T>>, k: nat, nb: Block<T>)
    requires k < |ring| && ring[k].next == nb && nb.next == NextIn(ring, k)
    requires forall i {:trigger NextIn(ring, i)} :: 0 <= i < |ring| && i != k ==> ring[i].next == NextIn(ring, i)
    ensures var r := InsertedAt(ring, k, nb);
            forall i {:trigger NextIn(r, i)} :: 0 <= i < |r| ==> r[i].next == NextIn(r, i)
  {
    var r := InsertedAt(ring, k, nb);
    forall i {:trigger NextIn(r, i)} | 0 <= i < |r|
      ensures r[i].next == NextIn(r, i)
    {
      if i < k {
        assert NextIn(r, i) == NextIn(ring, i);
      } else if i > k + 1 {
        assert NextIn(r, i) == NextIn(ring, i - 1);
      }
    }
  }

  lemma InsertedHolds<T>(ring: seq<Block<T>>, bs: seq<Blk<T>>, k: nat, nb: Block<T>, b: Blk<T>)
    requires k < |ring| == |bs| && nb.Holds(b)
    requires forall i :: 0 <= i < |ring| ==> ring[i].Holds(bs[i])
    ensures var r, bs' := InsertedAt(ring, k, nb), Insert(bs, k, b);
            |r| == |bs'| && forall i :: 0 <= i < |r| ==> r[i].Holds(bs'[i])
  {
    hide BufRep, Ok;
    var r, bs' := InsertedAt(ring, k, nb), Insert(bs, k, b);
    forall i | 0 <= i < |r|
      ensures r[i].Holds(bs'[i])
    {
      var i' := if i <= k then i else i - 1;
      if i != k + 1 {
        assert r[i] == ring[i'] && bs'[i] == bs[i'];
      }
    }
  }

  function Turned<T>(ring: seq<Block<T>>): seq<Block<T>>
    requires ring != []
  {
    ring[1..] + [ring[0]]
  }

  lemma TurnedFirst<T>(ring: seq<Block<T>>)
    requires 1 < |ring|
    ensures |Turned(ring)| == |ring| && Turned(ring)[0] == ring[1]
  {
  }

  lemma TurnedClosed<T>(ring: seq<Block<T>>)
    requires ring != []
    requires forall i {:trigger NextIn(ring, i)} :: 0 <= i < |ring| ==> ring[i].next == NextIn(ring, i)
    ensures var r := Turned(ring); forall i {:trigger NextIn(r, i)} :: 0 <= i < |r| ==> r[i].next == NextIn(r, i)
  {
    var r := Turned(ring);
    forall i {:trigger NextIn(r, i)} | 0 <= i < |r|
      ensures r[i].next == NextIn(r, i)
    {
      var i' := if i + 1 == |r| then 0 else i + 1;
      assert r[i] == ring[i'] && NextIn(r, i) == NextIn(ring, i');
    }
  }

  lemma TurnedHolds<T>(ring: seq<Block<T>>, bs: seq<Blk<T>>)
    requires 0 < |ring| == |bs| && forall i :: 0 <= i < |ring| ==> ring[i].Holds(bs[i])
    ensures var r, bs' := Turned(ring), Rotate(bs); forall i :: 0 <= i < |r| ==> r[i].Holds(bs'[i])
  {
    hide BufRep, Ok;
    var r, bs' := Turned(ring), Rotate(bs);
    forall i | 0 <= i < |r|
      ensures r[i].Holds(bs'[i])
    {
      var i' := if i + 1 == |r| then 0 else i + 1;
      assert r[i] == ring[i'] && bs'[i] == bs[i'];
    }
  }

  lemma InsertLast<T>(ring: seq<Block<T>>, bs: seq<Blk<T>>)
    requires 0 < |ring| == |bs|
    ensures forall nb: Block<T> {:trigger InsertedAt(ring, |ring| - 1, nb)} ::
              InsertedAt(ring, |ring| - 1, nb) == ring + [nb]
    ensures forall b: Blk<T> {:trigger Insert(bs, |bs| - 1, b)} :: Insert(bs, |bs| - 1, b) == bs + [b]
  {
  }
}
