/** Basic encoding rules (X.690), as far as SNMP messages need them: which octets stand for a length, an
    unsigned number, a subidentifier, an object identifier; and the shortest such octets. */
module Ber {

  type byte = x: int | 0 <= x < 256

  /** The number written before `bs`, with the octets of `bs` appended to it. */
  function Fold(acc: nat, bs: seq<byte>): nat
    decreases |bs|
  {
    if bs == [] then acc else Fold(acc * 256 + bs[0], bs[1..])
  }

  /** The number that big-endian octets stand for. */
  function Number(bs: seq<byte>): nat { Fold(0, bs) }

  lemma {:induction false} FoldSnoc(acc: nat, bs: seq<byte>, b: byte)
    ensures Fold(acc, bs + [b]) == Fold(acc, bs) * 256 + b
    decreases |bs|
  {
    if bs == [] {
      assert [b][1..] == [];
    } else {
      assert (bs + [b])[1..] == bs[1..] + [b];
      FoldSnoc(acc * 256 + bs[0], bs[1..], b);
    }
  }

  lemma {:induction false} FoldGrows(acc: nat, bs: seq<byte>)
    ensures acc <= Fold(acc, bs)
    decreases |bs|
  {
    if bs == [] {
    } else {
      FoldGrows(acc * 256 + bs[0], bs[1..]);
    }
  }

  lemma LeadingZero(bs: seq<byte>)
    requires bs != [] && Number(bs) == 0
    ensures bs[0] == 0
  {
    FoldGrows(bs[0], bs[1..]);
  }

  // ---- Lengths (section 8.1.3) ----

  /** Definite length octets: one octet below 128, or a count of octets and that many octets. */
  predicate IsLengthForm(ls: seq<byte>) {
    || (|ls| == 1 && ls[0] < 0x80)
    || (|ls| >= 2 && ls[0] > 0x80 && |ls| == 1 + (ls[0] - 0x80))
  }

  function LengthOf(ls: seq<byte>): nat
    requires IsLengthForm(ls)
  {
    if ls[0] < 0x80 then ls[0] else Number(ls[1..])
  }

  predicate IsLength(ls: seq<byte>, n: nat) {
    IsLengthForm(ls) && LengthOf(ls) == n
  }

  /** The fewest octets for a number. */
  function Octets(n: nat): (bs: seq<byte>)
    ensures |bs| >= 1
  {
    if n < 256 then [n] else Octets(n / 256) + [n % 256]
  }

  lemma {:induction false} OctetsStandFor(n: nat)
    ensures Number(Octets(n)) == n
  {
    if n >= 256 {
      OctetsStandFor(n / 256);
      FoldSnoc(0, Octets(n / 256), n % 256);
    } else {
      FoldSnoc(0, [], n);
      assert [] + [n] == [n];
    }
  }

  /** Numbers below 256^k need at most k octets. */
  lemma {:induction false} OctetsCount(n: nat, k: nat, bound: nat)
    requires 1 <= k && n < bound && bound == Pow256(k)
    ensures |Octets(n)| <= k
    decreases k
  {
    if n < 256 {
    } else {
      OctetsCount(n / 256, k - 1, Pow256(k - 1));
    }
  }

  function Pow256(k: nat): nat { if k == 0 then 1 else 256 * Pow256(k - 1) }

  /** The shortest definite form; beyond 126 length octets there is none. */
  function EncodeLength(n: nat): seq<byte> {
    if n < 0x80 then [n]
    else if |Octets(n)| <= 126 then [0x80 + |Octets(n)|] + Octets(n)
    else []
  }

  lemma LengthEncoded(n: nat)
    requires n < 0x1_0000_0000
    ensures IsLength(EncodeLength(n), n)
  {
    OctetsStandFor(n);
    OctetsCount(n, 4, Pow256(4));
    if n >= 0x80 {
      assert EncodeLength(n)[1..] == Octets(n);
    }
  }

  // ---- Integers (section 8.3) ----

  /** The number that octets stand for in two's complement. */
  function TwosComplement(bs: seq<byte>): int
    requires bs != []
  {
    if bs[0] < 0x80 then Number(bs) else Number(bs) - Pow256(|bs|)
  }

  lemma {:induction false} FoldBound(acc: nat, bs: seq<byte>, bound: nat)
    requires acc < bound
    ensures Fold(acc, bs) < bound * Pow256(|bs|)
    decreases |bs|
  {
    if bs == [] {
    } else {
      FoldBound(acc * 256 + bs[0], bs[1..], bound * 256);
      assert bound * 256 * Pow256(|bs| - 1) == bound * (256 * Pow256(|bs| - 1));
    }
  }

  /** The first bit is the sign: without it octets stand for the same number with and without a sign; with
      it they stand for a negative number. */
  lemma FirstBitIsSign(bs: seq<byte>)
    requires bs != []
    ensures Number(bs) < Pow256(|bs|)
    ensures TwosComplement(bs) == Number(bs) <==> bs[0] < 0x80
    ensures TwosComplement(bs) >= 0 <==> bs[0] < 0x80
    ensures bs[0] <= Number(bs)
  {
    FoldBound(0, bs, 1);
    FoldGrows(bs[0], bs[1..]);
  }

  lemma TwosSnoc(bs: seq<byte>, b: byte)
    requires bs != []
    ensures TwosComplement(bs + [b]) == 256 * TwosComplement(bs) + b
  {
    FoldSnoc(0, bs, b);
  }

  lemma TwosOne(b: byte)
    ensures TwosComplement([b]) == if b < 0x80 then b else b - 256
  {
    FoldSnoc(0, [], b);
    assert [] + [b] == [b] && Pow256(1) == 256;
  }

  /** The shortest two's complement octets of a number. */
  function IntOctets(n: int): (bs: seq<byte>)
    ensures bs != []
    decreases if n < 0 then -n else n
  {
    if -0x80 <= n < 0x80 then [n % 256] else IntOctets(n / 256) + [n % 256]
  }

  lemma {:induction false} IntEncoded(n: int)
    ensures TwosComplement(IntOctets(n)) == n
    decreases if n < 0 then -n else n
  {
    if -0x80 <= n < 0x80 {
      TwosOne(n % 256);
    } else {
      IntEncoded(n / 256);
      TwosSnoc(IntOctets(n / 256), n % 256);
    }
  }

  lemma Quarter(n: int, q: nat)
    requires 0 <= 2 * n + 0x1_0000 * q && 2 * n < 0x1_0000 * q
    ensures 0 <= 2 * (n / 256) + 256 * q && 2 * (n / 256) < 256 * q
  {
    QuarterOf(n / 256, n % 256, q);
  }

  lemma QuarterOf(m: int, r: nat, q: nat)
    requires r < 256 && 0 <= 2 * (256 * m + r) + 0x1_0000 * q && 2 * (256 * m + r) < 0x1_0000 * q
    ensures 0 <= 2 * m + 256 * q && 2 * m < 256 * q
  {
    SignOf(m + 128 * q, r);
    SignOf(m - 128 * q, r);
  }

  lemma SignOf(a: int, r: nat)
    requires r < 256
    ensures 0 <= 2 * (256 * a + r) <==> 0 <= a
  {
  }

  /** Numbers of a magnitude below half of 256^k, and minus that half, need at most k octets. */
  lemma {:induction false} IntOctetsCount(n: int, k: nat)
    requires 1 <= k && 0 <= 2 * n + Pow256(k) && 2 * n < Pow256(k)
    ensures |IntOctets(n)| <= k
    decreases k
  {
    if -0x80 <= n < 0x80 || k == 1 {
      assert Pow256(1) == 256;
    } else {
      Quarter(n, Pow256(k - 2));
      IntOctetsCount(n / 256, k - 1);
    }
  }

  // ---- Object identifiers (section 8.19) ----

  function Fold128(acc: nat, bs: seq<byte>): nat
    decreases |bs|
  {
    if bs == [] then acc else Fold128(acc * 128 + bs[0] % 128, bs[1..])
  }

  /** The octets of one subidentifier: seven bits each, the first bit set in all but the last. */
  predicate IsSubId(bs: seq<byte>) {
    |bs| >= 1 && bs[|bs| - 1] < 0x80 && forall i :: 0 <= i < |bs| - 1 ==> bs[i] >= 0x80
  }

  /** The octets of `v`, all but the last with the first bit set, before an octet or at the end. */
  function SubIdOctets(v: nat, last: bool): (bs: seq<byte>)
    ensures |bs| >= 1
  {
    var low: byte := v % 128 + (if last then 0 else 128);
    if v < 128 then [low] else SubIdOctets(v / 128, false) + [low]
  }

  lemma {:induction false} Fold128Snoc(acc: nat, bs: seq<byte>, b: byte)
    ensures Fold128(acc, bs + [b]) == Fold128(acc, bs) * 128 + b % 128
    decreases |bs|
  {
    if bs == [] {
      assert [b][1..] == [];
    } else {
      assert (bs + [b])[1..] == bs[1..] + [b];
      Fold128Snoc(acc * 128 + bs[0] % 128, bs[1..], b);
    }
  }

  lemma Fold128One(b: byte)
    ensures Fold128(0, [b]) == b % 128
  {
    assert [b][1..] == [];
  }

  lemma {:induction false} SubIdEncoded(v: nat, last: bool)
    ensures Fold128(0, SubIdOctets(v, last)) == v
    ensures forall i :: 0 <= i < |SubIdOctets(v, last)| - 1 ==> SubIdOctets(v, last)[i] >= 0x80
    ensures SubIdOctets(v, last)[|SubIdOctets(v, last)| - 1] < 0x80 <==> last
  {
    hide Fold128;
    var low: byte := v % 128 + (if last then 0 else 128);
    assert low % 128 == v % 128 && (low < 128 <==> last);
    if v >= 128 {
      SubIdEncoded(v / 128, false);
      Fold128Snoc(0, SubIdOctets(v / 128, false), low);
    } else {
      Fold128One(low);
    }
  }

  /** An object identifier has two arcs at least; the first is 0, 1 or 2, and only below 2 may the
      second exceed 39. */
  predicate IsOid(arcs: seq<nat>) {
    |arcs| >= 2 && arcs[0] <= 2 && (arcs[0] < 2 ==> arcs[1] <= 39)
  }

  /** The first two arcs share a subidentifier. */
  function SubIds(arcs: seq<nat>): seq<nat>
    requires |arcs| >= 2
  {
    [40 * arcs[0] + arcs[1]] + arcs[2..]
  }

  function EncodeSubIds(vs: seq<nat>): seq<byte> {
    if vs == [] then [] else SubIdOctets(vs[0], true) + EncodeSubIds(vs[1..])
  }

  function EncodeOid(arcs: seq<nat>): seq<byte>
    requires |arcs| >= 2
  {
    EncodeSubIds(SubIds(arcs))
  }
}
