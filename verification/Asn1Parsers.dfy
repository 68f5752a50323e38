/** The cursor parsers of asn1parsers.h.  A function says what each does with the octets at a position;
    a method does it with the loop of the source. */
module Asn1Parsers {
  import opened Ber
  import SnmpOid
  import OidText
  import Wrappers
  import opened Words

  /** What became of an attempt to parse: a value and the position after it; a rejection (`return
      false`); or behaviour that C++ does not define, such as a read outside the buffer or through the
      null pointer that a parser returned. */
  datatype Parsed<+T> = Got(value: T, at: nat) | Rejected | Undefined
  {
    predicate IsFailure() { !Got? }

    function PropagateFailure<U>(): Parsed<U>
      requires IsFailure()
    {
      if Rejected? then Rejected else Undefined
    }

    function Extract(): (T, nat)
      requires Got?
    {
      (value, at)
    }
  }

  /** The octets `bs` stand at position `p`. */
  predicate Here(d: seq<byte>, p: nat, bs: seq<byte>) {
    p + |bs| <= |d| && d[p..p + |bs|] == bs
  }

  lemma HereConcat(d: seq<byte>, p: nat, a: seq<byte>, b: seq<byte>)
    requires Here(d, p, a + b)
    ensures Here(d, p, a) && Here(d, p + |a|, b)
  {
    assert d[p..p + |a|] == (a + b)[..|a|];
    assert d[p + |a|..p + |a| + |b|] == (a + b)[|a|..];
  }

  lemma HereFirst(d: seq<byte>, p: nat, bs: seq<byte>)
    requires Here(d, p, bs) && bs != []
    ensures p < |d| && d[p] == bs[0] && Here(d, p + 1, bs[1..])
  {
    assert d[p..p + |bs|][0] == d[p];
    assert bs == [bs[0]] + bs[1..];
    HereConcat(d, p, [bs[0]], bs[1..]);
  }

  // ---- Single octets ----

  /** The tag `t`, or a rejection. */
  function Tag(d: seq<byte>, p: nat, t: byte): Parsed<byte> {
    if p >= |d| then Undefined else if d[p] != t then Rejected else Got(t, p + 1)
  }

  // ---- Numbers ----

  /** What is left of `x` in a word that wraps at `m`. */
  function Wrap(x: nat, m: nat): nat
    requires 0 < m
  {
    x % m
  }

  /** `n` octets added to `acc`, in a word that wraps at `m`. */
  function Accumulate(d: seq<byte>, p: nat, n: nat, acc: nat, m: nat): (r: Parsed<nat>)
    requires 0 < m
    ensures r.Got? ==> r.at == p + n && (n == 0 || p + n <= |d|) && (acc < m ==> r.value < m)
    decreases n
  {
    if n == 0 then Got(acc, p)
    else if p >= |d| then Undefined
    else Accumulate(d, p + 1, n - 1, Wrap(acc * 256 + d[p], m), m)
  }

  lemma WrapSmall(x: nat, m: nat)
    requires x < m
    ensures Wrap(x, m) == x
  {
    ModOf(x, m, 0, x);
  }

  lemma WrapBelow(x: nat, m: nat)
    requires 0 < m
    ensures Wrap(x, m) < m
  {
  }

  lemma Distribute(m: nat, q: nat, k: nat)
    ensures m * (256 * q + k) == 256 * (m * q) + m * k
  {
  }

  lemma WrapParts(x: nat, m: nat, t: nat, q: nat, r: nat, k: nat, r': nat, b: nat)
    requires t == m * q && x == t + r && 256 * r + b == m * k + r' && r' < m
    ensures (256 * x + b) % m == r'
  {
    Distribute(m, q, k);
    ModOf(256 * x + b, m, 256 * q + k, r');
  }

  lemma WrapStep(acc: nat, b: byte, m: nat)
    requires 0 < m
    ensures Wrap(Wrap(acc, m) * 256 + b, m) == Wrap(acc * 256 + b, m)
  {
    var q, r := acc / m, acc % m;
    var k, r' := (256 * r + b) / m, (256 * r + b) % m;
    WrapParts(acc, m, m * q, q, r, k, r', b);
  }

  lemma {:induction false} FoldWraps(acc: nat, bs: seq<byte>, m: nat)
    requires 0 < m
    ensures Wrap(Fold(Wrap(acc, m), bs), m) == Wrap(Fold(acc, bs), m)
    decreases |bs|
  {
    hide Wrap;
    if bs == [] {
      WrapBelow(acc, m);
      WrapSmall(Wrap(acc, m), m);
    } else {
      FoldWraps(Wrap(acc, m) * 256 + bs[0], bs[1..], m);
      FoldWraps(acc * 256 + bs[0], bs[1..], m);
      WrapStep(acc, bs[0], m);
    }
  }

  /** For any octets at all: the number they stand for, modulo the width of the word. */
  lemma {:induction false} AccumulateIs(d: seq<byte>, p: nat, bs: seq<byte>, acc: nat, m: nat)
    requires 0 < m && acc < m && Here(d, p, bs)
    ensures Accumulate(d, p, |bs|, acc, m) == Got(Wrap(Fold(acc, bs), m), p + |bs|)
    decreases |bs|
  {
    hide Wrap;
    if bs == [] {
      WrapSmall(acc, m);
    } else {
      HereFirst(d, p, bs);
      WrapBelow(acc * 256 + bs[0], m);
      AccumulateIs(d, p + 1, bs[1..], Wrap(acc * 256 + bs[0], m), m);
      FoldWraps(acc * 256 + bs[0], bs[1..], m);
    }
  }

  /** Octets that are not all in the buffer are read beyond its end. */
  lemma {:induction false} AccumulateBeyond(d: seq<byte>, p: nat, n: nat, acc: nat, m: nat)
    requires 0 < m && 0 < n && |d| < p + n
    ensures Accumulate(d, p, n, acc, m) == Undefined
    decreases n
  {
    if p >= |d| {
    } else {
      AccumulateBeyond(d, p + 1, n - 1, Wrap(acc * 256 + d[p], m), m);
    }
  }

  /** `GetFieldLength`. */
  function FieldLength(d: seq<byte>, p: nat): (r: Parsed<nat>) {
    if p >= |d| then Undefined
    else if d[p] < 0x80 then Got(d[p], p + 1)
    else Accumulate(d, p + 1, d[p] - 0x80, 0, WORD32)
  }

  /** Both definite forms are understood, whatever the number of length octets, for every length that
      fits 32 bits. */
  lemma FieldLengthInverts(d: seq<byte>, p: nat, ls: seq<byte>)
    requires IsLengthForm(ls) && Here(d, p, ls)
    ensures FieldLength(d, p) == Got(Wrap(LengthOf(ls), WORD32), p + |ls|)
    ensures LengthOf(ls) < WORD32 ==> FieldLength(d, p) == Got(LengthOf(ls), p + |ls|)
  {
    HereFirst(d, p, ls);
    if LengthOf(ls) < WORD32 {
      WrapSmall(LengthOf(ls), WORD32);
    }
    if ls[0] >= 0x80 {
      AccumulateIs(d, p + 1, ls[1..], 0, WORD32);
    }
  }

  /** `ParseInt`: more than four octets give the null pointer. */
  function Int(d: seq<byte>, p: nat, n: nat): (r: Parsed<nat>)
    ensures r.Got? ==> r.value < WORD32
  {
    if n > 4 then Undefined else Accumulate(d, p, n, 0, WORD32)
  }

  /** `ParseBigInt`. */
  function BigInt(d: seq<byte>, p: nat, n: nat): Parsed<nat> {
    if n > 8 then Undefined else Accumulate(d, p, n, 0, WORD)
  }

  /** `ParseIP`. */
  function Ip(d: seq<byte>, p: nat, n: nat): Parsed<nat> { Accumulate(d, p, n, 0, WORD32) }

  /** Up to four octets, and up to eight, fit their words: the parsers invert the encoding. */
  lemma IntInverts(d: seq<byte>, p: nat, bs: seq<byte>)
    requires Here(d, p, bs)
    ensures |bs| <= 4 ==> Int(d, p, |bs|) == Got(Number(bs), p + |bs|) && Ip(d, p, |bs|) == Got(Number(bs), p + |bs|)
    ensures |bs| <= 8 ==> BigInt(d, p, |bs|) == Got(Number(bs), p + |bs|)
  {
    hide Wrap, Pow256, Fold;
    FoldBound(0, bs, 1);
    Pow256UpTo(|bs|);
    AccumulateIs(d, p, bs, 0, WORD32);
    AccumulateIs(d, p, bs, 0, WORD);
    if |bs| <= 4 {
      WrapSmall(Number(bs), WORD32);
    }
    if |bs| <= 8 {
      WrapSmall(Number(bs), WORD);
    }
  }

  /** An INTEGER comes back exactly if its first bit is zero, which is to say if it is not negative: the
      parsers take the octets without a sign. */
  lemma IntComesBackIff(d: seq<byte>, p: nat, bs: seq<byte>)
    requires bs != [] && Here(d, p, bs)
    ensures |bs| <= 4 ==> (Int(d, p, |bs|) == Got(TwosComplement(bs), p + |bs|) <==> bs[0] < 0x80)
    ensures |bs| <= 8 ==> (BigInt(d, p, |bs|) == Got(TwosComplement(bs), p + |bs|) <==> bs[0] < 0x80)
    ensures bs[0] < 0x80 <==> TwosComplement(bs) >= 0
  {
    hide Int, BigInt, Here, TwosComplement;
    IntInverts(d, p, bs);
    FirstBitIsSign(bs);
  }

  lemma Pow256UpTo(k: nat)
    ensures k <= 4 ==> Pow256(k) <= WORD32
    ensures k <= 8 ==> Pow256(k) <= WORD
    ensures Pow256(4) == WORD32 && Pow256(8) == WORD
  {
    assert Pow256(1) == 0x100 && Pow256(2) == 0x1_0000 && Pow256(3) == 0x100_0000 && Pow256(4) == WORD32;
    assert Pow256(5) == 0x100_0000_0000 && Pow256(6) == 0x1_0000_0000_0000 && Pow256(7) == 0x100_0000_0000_0000;
  }

  // ---- Object identifiers ----

  /** The inner loop of `ParseOid` (lines 102-110), up to position `end`. */
  function SubId(d: seq<byte>, p: nat, end: nat, acc: nat): (r: Parsed<nat>)
    ensures !r.Rejected? && (r.Got? && p < end ==> p < r.at <= end && r.at <= |d| && r.value < WORD32)
    decreases end - p
  {
    if p >= end then Got(acc, p)
    else if p >= |d| then Undefined
    else
      var v := Wrap(acc * 128 + d[p] % 128, WORD32);
      if d[p] < 0x80 || p + 1 >= end then Got(v, p + 1) else SubId(d, p + 1, end, v)
  }

  /** What one more subidentifier adds: only 43 as the first one is split, into 1 and 3. */
  function WithSubId(arcs: seq<nat>, v: nat): seq<nat> {
    if v == 0x2b && arcs == [] then [1, 3] else arcs + [v]
  }

  /** The outer loop.  It ends exactly at `end` and never has more than one arc more than there were
      octets, so that the array never overflows. */
  function Arcs(d: seq<byte>, p: nat, end: nat, arcs: seq<nat>): (r: Parsed<seq<nat>>)
    requires p <= end
    ensures r.Got? ==> r.at == end && |r.value| <= |arcs| + (end - p) + 1 && (p < end ==> end <= |d|)
    ensures r.Got? && arcs != [] ==> |r.value| <= |arcs| + (end - p)
    ensures !r.Rejected?
    decreases end - p
  {
    if p == end then Got(arcs, p)
    else
      var r := SubId(d, p, end, 0);
      if r.Got? then Arcs(d, r.at, end, WithSubId(arcs, r.value)) else Undefined
  }

  lemma ArcsStep(d: seq<byte>, p: nat, end: nat, arcs: seq<nat>)
    requires p < end
    ensures var r := SubId(d, p, end, 0);
            Arcs(d, p, end, arcs) == if r.Got? then Arcs(d, r.at, end, WithSubId(arcs, r.value)) else Undefined
  {
    hide SubId;
  }

  lemma ArcsEnd(d: seq<byte>, p: nat, arcs: seq<nat>)
    ensures Arcs(d, p, p, arcs) == Got(arcs, p)
  {
  }

  /** `ParseOid`.  For the longest length the size of the array wraps to zero, and the first arc is
      written outside it. */
  function OidArcs(d: seq<byte>, p: nat, n: nat): (r: Parsed<seq<nat>>)
    ensures r.Got? ==> r.at == p + n && |r.value| <= n + 1
    ensures !r.Rejected?
  {
    if n + 1 >= WORD32 then Undefined else Arcs(d, p, p + n, [])
  }

  lemma {:induction false} Fold128Grows(acc: nat, bs: seq<byte>)
    ensures acc <= Fold128(acc, bs)
    decreases |bs|
  {
    if bs == [] {
    } else {
      Fold128Grows(acc * 128 + bs[0] % 128, bs[1..]);
    }
  }

  /** A subidentifier that fits 32 bits is read as it was written. */
  lemma {:induction false} SubIdInverts(d: seq<byte>, p: nat, end: nat, acc: nat, bs: seq<byte>)
    requires IsSubId(bs) && Here(d, p, bs) && p + |bs| <= end && Fold128(acc, bs) < WORD32
    ensures SubId(d, p, end, acc) == Got(Fold128(acc, bs), p + |bs|)
    decreases |bs|
  {
    hide Wrap;
    var v := acc * 128 + bs[0] % 128;
    HereFirst(d, p, bs);
    Fold128Grows(v, bs[1..]);
    WrapSmall(v, WORD32);
    if |bs| > 1 {
      SubIdInverts(d, p + 1, end, v, bs[1..]);
    } else {
      assert bs[1..] == [];
    }
  }

  function AddSubIds(arcs: seq<nat>, vs: seq<nat>): seq<nat>
    decreases |vs|
  {
    if vs == [] then arcs else AddSubIds(WithSubId(arcs, vs[0]), vs[1..])
  }

  lemma {:induction false} AddSubIdsIs(arcs: seq<nat>, vs: seq<nat>)
    requires arcs != []
    ensures AddSubIds(arcs, vs) == arcs + vs
    decreases |vs|
  {
    if vs == [] {
      assert arcs + vs == arcs;
    } else {
      AddSubIdsIs(arcs + [vs[0]], vs[1..]);
      assert arcs + [vs[0]] + vs[1..] == arcs + vs;
    }
  }

  predicate Words32(vs: seq<nat>) { forall i :: 0 <= i < |vs| ==> vs[i] < WORD32 }

  lemma {:induction false} ArcsInvert(d: seq<byte>, p: nat, end: nat, arcs: seq<nat>, vs: seq<nat>)
    requires Words32(vs) && Here(d, p, EncodeSubIds(vs)) && end == p + |EncodeSubIds(vs)|
    ensures Arcs(d, p, end, arcs) == Got(AddSubIds(arcs, vs), end)
    decreases |vs|
  {
    hide SubId, Arcs, SubIdOctets, Fold128;
    if vs == [] {
      ArcsEnd(d, p, arcs);
    } else {
      ArcsStep(d, p, end, arcs);
      var bs := SubIdOctets(vs[0], true);
      SubIdEncoded(vs[0], true);
      HereConcat(d, p, bs, EncodeSubIds(vs[1..]));
      SubIdInverts(d, p, end, 0, bs);
      ArcsInvert(d, p + |bs|, end, WithSubId(arcs, vs[0]), vs[1..]);
    }
  }

  /** What `ParseOid` makes of a properly encoded object identifier: itself if it is under 1.3;
      otherwise the first two arcs stay together as one number. */
  lemma OidInverts(d: seq<byte>, p: nat, arcs: seq<nat>)
    requires |arcs| >= 2 && Words32(SubIds(arcs)) && Here(d, p, EncodeOid(arcs)) && |EncodeOid(arcs)| + 1 < WORD32
    ensures OidArcs(d, p, |EncodeOid(arcs)|) == Got(AddSubIds([], SubIds(arcs)), p + |EncodeOid(arcs)|)
    ensures AddSubIds([], SubIds(arcs)) == if 40 * arcs[0] + arcs[1] == 0x2b then [1, 3] + arcs[2..] else SubIds(arcs)
  {
    var vs := SubIds(arcs);
    ArcsInvert(d, p, p + |EncodeOid(arcs)|, [], vs);
    assert vs[1..] == arcs[2..];
    AddSubIdsIs(WithSubId([], vs[0]), vs[1..]);
    assert [] + [vs[0]] + vs[1..] == vs;
  }

  /** Every object identifier that X.690 allows comes back exactly if it starts with 1.3. */
  lemma OidRoundTripIff(d: seq<byte>, p: nat, arcs: seq<nat>)
    requires IsOid(arcs) && Words32(SubIds(arcs)) && Here(d, p, EncodeOid(arcs)) && |EncodeOid(arcs)| + 1 < WORD32
    ensures OidArcs(d, p, |EncodeOid(arcs)|) == Got(arcs, p + |EncodeOid(arcs)|) <==> arcs[0] == 1 && arcs[1] == 3
  {
    OidInverts(d, p, arcs);
    assert [arcs[0], arcs[1]] + arcs[2..] == arcs;
    assert |SubIds(arcs)| == |arcs| - 1;
  }

  // ---- Strings ----

  /** A `char` widened to a 16-bit `wchar_t`: the upper half of the octets is sign-extended. */
  function Widen(b: byte): nat { if b < 0x80 then b else 0xFF00 + b }

  function WidenAll(bs: seq<byte>): seq<nat> { seq(|bs|, i requires 0 <= i < |bs| => Widen(bs[i])) }

  /** `ParseStr`, into an array made for `n` characters and a terminating zero. */
  function Str(d: seq<byte>, p: nat, n: nat): Parsed<seq<nat>> {
    if n + 1 >= WORD32 then Undefined
    else if n == 0 then Got([], p)
    else if p + n > |d| then Undefined
    else Got(WidenAll(d[p..p + n]), p + n)
  }

  /** Text comes back as its octets exactly if all of them are ASCII. */
  lemma StrInvertsIff(d: seq<byte>, p: nat, bs: seq<byte>)
    requires Here(d, p, bs) && |bs| + 1 < WORD32
    ensures Str(d, p, |bs|) == Got(WidenAll(bs), p + |bs|)
    ensures WidenAll(bs) == bs <==> forall i :: 0 <= i < |bs| ==> bs[i] < 0x80
  {
    if WidenAll(bs) == bs {
      forall i | 0 <= i < |bs| ensures bs[i] < 0x80 {
        assert WidenAll(bs)[i] == Widen(bs[i]);
      }
    }
  }

  // ---- The loops ----

  method GetFieldLength(buf: array<byte>, p: nat) returns (r: Parsed<nat>)
    ensures r == FieldLength(buf[..], p)
  {
    if p >= buf.Length {
      return Undefined;
    }
    if buf[p] < 0x80 {
      return Got(buf[p], p + 1);
    }
    r := ReadOctets(buf, p + 1, buf[p] - 0x80, WORD32);
  }

  /** The loop that `GetFieldLength`, `ParseInt`, `ParseBigInt` and `ParseIP` share. */
  method ReadOctets(buf: array<byte>, p: nat, n: nat, m: nat) returns (r: Parsed<nat>)
    requires 0 < m
    ensures r == Accumulate(buf[..], p, n, 0, m)
  {
    hide Wrap;
    var val, pTmp := 0, p;
    for i := 0 to n
      invariant pTmp == p + i && Accumulate(buf[..], p, n, 0, m) == Accumulate(buf[..], pTmp, n - i, val, m)
    {
      if pTmp >= buf.Length {
        return Undefined;
      }
      val := Wrap(val * 256 + buf[pTmp], m);
      pTmp := pTmp + 1;
    }
    r := Got(val, pTmp);
  }

  method ParseInt(buf: array<byte>, p: nat, fieldLen: nat) returns (r: Parsed<nat>)
    ensures r == Int(buf[..], p, fieldLen)
  {
    if fieldLen > 4 {
      return Undefined;
    }
    r := ReadOctets(buf, p, fieldLen, WORD32);
  }

  method ParseBigInt(buf: array<byte>, p: nat, fieldLen: nat) returns (r: Parsed<nat>)
    ensures r == BigInt(buf[..], p, fieldLen)
  {
    if fieldLen > 8 {
      return Undefined;
    }
    r := ReadOctets(buf, p, fieldLen, WORD);
  }

  method ParseIP(buf: array<byte>, p: nat, fieldLen: nat) returns (r: Parsed<nat>)
    ensures r == Ip(buf[..], p, fieldLen)
  {
    r := ReadOctets(buf, p, fieldLen, WORD32);
  }

  method ParseSubId(buf: array<byte>, p: nat, end: nat) returns (r: Parsed<nat>)
    requires p < end
    ensures r == SubId(buf[..], p, end, 0)
  {
    hide Wrap;
    var tmpVal, pTmp := 0, p;
    while pTmp < end
      invariant p <= pTmp <= end && (pTmp == p || pTmp < end)
      invariant SubId(buf[..], p, end, 0) == SubId(buf[..], pTmp, end, tmpVal)
    {
      if pTmp >= buf.Length {
        return Undefined;
      }
      tmpVal := Wrap(tmpVal * 128 + buf[pTmp] % 128, WORD32);
      pTmp := pTmp + 1;
      if buf[pTmp - 1] < 0x80 || pTmp == end {
        break;
      }
    }
    r := Got(tmpVal, pTmp);
  }

  /** `ParseOid`: no write falls outside the array made here.  A text that the object already has is left
      alone, so that the object stays in order exactly if the text reads as the new arcs. */
  method ParseOid(buf: array<byte>, p: nat, val: SnmpOid.Oid, fieldLen: nat) returns (r: Parsed<seq<nat>>)
    requires val.Valid()
    modifies val
    ensures r == OidArcs(buf[..], p, fieldLen)
    ensures r.Got? ==> val.Arcs() == r.value && val.wcsOid == old(val.wcsOid) && val.Oids != null && fresh(val.Oids)
    ensures r.Got? ==> (val.Valid() <==> val.wcsOid == null || OidText.DottedArcs(SnmpOid.CString(val.wcsOid[..])) == Wrappers.Some(r.value))
  {
    hide SubId, Arcs;
    if fieldLen + 1 >= WORD32 {
      return Undefined;
    }
    var oids, n, pTmp := new nat[fieldLen + 1], 0, p;
    while pTmp < p + fieldLen
      invariant p <= pTmp <= p + fieldLen && n <= pTmp - p + 1 && (n == pTmp - p + 1 ==> n >= 2)
      invariant Words32(oids[..n]) && Arcs(buf[..], p, p + fieldLen, []) == Arcs(buf[..], pTmp, p + fieldLen, oids[..n])
      modifies oids
    {
      ghost var before := oids[..n];
      ArcsStep(buf[..], pTmp, p + fieldLen, before);
      var sub := ParseSubId(buf, pTmp, p + fieldLen);
      if !sub.Got? {
        return Undefined;
      }
      var tmpVal := sub.value;
      pTmp := sub.at;
      if tmpVal == 0x2b && n == 0 {
        oids[0], oids[1], n := 1, 3, 2;
      } else {
        oids[n], n := tmpVal, n + 1;
      }
      assert oids[..n] == WithSubId(before, tmpVal);
    }
    ArcsEnd(buf[..], pTmp, oids[..n]);
    val.Oids, val.nOids := oids, n;
    r := Got(oids[..n], pTmp);
  }

  method ParseStr(buf: array<byte>, p: nat, fieldLen: nat) returns (r: Parsed<seq<nat>>)
    ensures r == Str(buf[..], p, fieldLen)
  {
    if fieldLen + 1 >= WORD32 {
      return Undefined;
    }
    var val := new nat[fieldLen + 1];
    for i := 0 to fieldLen
      invariant i == 0 || p + i <= buf.Length
      invariant forall k :: 0 <= k < i ==> val[k] == Widen(buf[p + k])
    {
      if p + i >= buf.Length {
        return Undefined;
      }
      val[i] := Widen(buf[p + i]);
    }
    val[fieldLen] := 0;
    assert fieldLen > 0 ==> val[..fieldLen] == WidenAll(buf[..][p..p + fieldLen]);
    r := Got(val[..fieldLen], p + fieldLen);
  }
}
