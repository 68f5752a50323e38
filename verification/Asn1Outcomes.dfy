/** Exactly what the cursor parsers make of any octets at all, encodings or not: each relation says in terms of
    the octets when a parser yields a value, and each lemma that it does so then and only then. */
module Asn1Outcomes {
  import opened Ber
  import opened Words
  import opened Asn1Parsers

  /** The length octets at `p` are all in the buffer. */
  predicate HasLength(d: seq<byte>, p: nat) { p < |d| && (d[p] < 0x80 || p + 1 + (d[p] - 0x80) <= |d|) }

  /** The position after them. */
  function LengthEnd(d: seq<byte>, p: nat): nat
    requires HasLength(d, p)
  {
    if d[p] < 0x80 then p + 1 else p + 1 + (d[p] - 0x80)
  }

  /** A short length is its octet; a long one is the number of its octets, as much of it as 32 bits hold. */
  function LengthRead(d: seq<byte>, p: nat): nat
    requires HasLength(d, p)
  {
    if d[p] < 0x80 then d[p] else Number(d[p + 1..LengthEnd(d, p)]) % 0x1_0000_0000
  }

  /** `n` octets, at most `most`, that stand for `v`. */
  predicate NumberAt(d: seq<byte>, p: nat, n: nat, most: nat, v: nat, q: nat) {
    && n <= most && q == p + n
    && if n == 0 then v == 0 else q <= |d| && v == Number(d[p..q])
  }

  /** Any number of octets, and what 32 bits hold of their number. */
  predicate AddressAt(d: seq<byte>, p: nat, n: nat, v: nat, q: nat) {
    && q == p + n
    && if n == 0 then v == 0 else q <= |d| && v == Number(d[p..q]) % 0x1_0000_0000
  }

  /** `n` octets and the characters they become: octets from 128 on are taken for negative numbers. */
  predicate TextAt(d: seq<byte>, p: nat, n: nat, s: seq<nat>, q: nat) {
    && n + 1 < 0x1_0000_0000 && q == p + n && |s| == n && (n == 0 || q <= |d|)
    && forall i :: 0 <= i < n ==> var b: nat := d[p + i]; s[i] == if b < 128 then b else 0x1_0000 - 0x100 + b
  }

  // ---- Numbers ----

  /** The `n` octets at `p`, as far as the buffer has them. */
  function Slice(d: seq<byte>, p: nat, n: nat): (bs: seq<byte>)
    ensures p + n <= |d| ==> |bs| == n && Here(d, p, bs) && bs == d[p..p + n]
  {
    if p + n <= |d| then d[p..p + n] else []
  }

  /** None of the loops over octets rejects anything. */
  lemma AccumulateOutcome(d: seq<byte>, p: nat, n: nat, m: nat)
    requires 0 < m
    ensures n == 0 ==> Accumulate(d, p, n, 0, m) == Got(0, p)
    ensures 0 < n && p + n <= |d| ==> Accumulate(d, p, n, 0, m) == Got(Number(d[p..p + n]) % m, p + n)
    ensures 0 < n && |d| < p + n ==> Accumulate(d, p, n, 0, m) == Undefined
  {
    if 0 < n && p + n <= |d| {
      AccumulateIs(d, p, Slice(d, p, n), 0, m);
    } else if 0 < n {
      AccumulateBeyond(d, p, n, 0, m);
    }
  }

  /** `GetFieldLength`, for any octets: it yields a length exactly if the octets are there. */
  lemma LengthOutcome(d: seq<byte>, p: nat)
    ensures FieldLength(d, p) == if HasLength(d, p) then Got(LengthRead(d, p), LengthEnd(d, p)) else Undefined
  {
    hide Accumulate, Number;
    if p < |d| && d[p] >= 0x80 {
      var k := d[p] - 0x80;
      AccumulateOutcome(d, p + 1, k, WORD32);
      if k == 0 {
        NoOctets(d[p + 1..p + 1]);
      }
    }
  }

  lemma NoOctets(bs: seq<byte>)
    requires bs == []
    ensures Number(bs) % WORD32 == 0
  {
  }

  lemma NumberFits(bs: seq<byte>)
    ensures |bs| <= 4 ==> Number(bs) < WORD32 && Number(bs) % WORD32 == Number(bs)
    ensures |bs| <= 8 ==> Number(bs) < WORD && Number(bs) % WORD == Number(bs)
  {
    hide Wrap, Pow256, Fold;
    FoldBound(0, bs, 1);
    Pow256UpTo(|bs|);
    if |bs| <= 4 {
      ModOf(Number(bs), WORD32, 0, Number(bs));
    }
    if |bs| <= 8 {
      ModOf(Number(bs), WORD, 0, Number(bs));
    }
  }

  /** `ParseInt` takes up to four octets, `ParseBigInt` up to eight, `ParseIP` any number of them. */
  lemma NumbersIff(d: seq<byte>, p: nat, n: nat, v: nat, q: nat)
    ensures Int(d, p, n) == Got(v, q) <==> NumberAt(d, p, n, 4, v, q)
    ensures BigInt(d, p, n) == Got(v, q) <==> NumberAt(d, p, n, 8, v, q)
    ensures Ip(d, p, n) == Got(v, q) <==> AddressAt(d, p, n, v, q)
    ensures !Int(d, p, n).Rejected? && !BigInt(d, p, n).Rejected? && !Ip(d, p, n).Rejected?
  {
    hide Accumulate, Number;
    AccumulateOutcome(d, p, n, WORD32);
    AccumulateOutcome(d, p, n, WORD);
    NumberFits(Slice(d, p, n));
  }

  // ---- Text ----

  lemma TextIff(d: seq<byte>, p: nat, n: nat, s: seq<nat>, q: nat)
    ensures Str(d, p, n) == Got(s, q) <==> TextAt(d, p, n, s, q)
    ensures !Str(d, p, n).Rejected?
  {
    if TextAt(d, p, n, s, q) && n > 0 {
      forall i | 0 <= i < n ensures s[i] == WidenAll(d[p..p + n])[i] {
        assert d[p..p + n][i] == d[p + i];
      }
      assert s == WidenAll(d[p..p + n]);
    }
  }

  /** Different octets become different text. */
  lemma TextKeepsOctets(d: seq<byte>, p: nat, bs: seq<byte>, e: seq<byte>, r: nat, cs: seq<byte>)
    requires Here(d, p, bs) && Here(e, r, cs) && |bs| + 1 < WORD32 && |cs| + 1 < WORD32
    ensures Str(d, p, |bs|).Got? && Str(e, r, |cs|).Got?
    ensures Str(d, p, |bs|).value == Str(e, r, |cs|).value <==> bs == cs
  {
    var s, t := Str(d, p, |bs|), Str(e, r, |cs|);
    StrInvertsIff(d, p, bs);
    StrInvertsIff(e, r, cs);
    TextIff(d, p, |bs|, s.value, s.at);
    TextIff(e, r, |cs|, t.value, t.at);
    hide Str, WidenAll;
    if s.value == t.value {
      forall i | 0 <= i < |bs| ensures bs[i] == cs[i] {
        assert bs[i] == d[p..p + |bs|][i] == d[p + i] && cs[i] == e[r..r + |cs|][i] == e[r + i];
        assert s.value[i] == t.value[i];
      }
    }
  }

  // ---- Object identifiers ----

  /** One subidentifier, or, at the end of the field, what there is of one. */
  predicate Group(g: seq<byte>, last: bool) {
    && g != [] && (forall j :: 0 <= j < |g| - 1 ==> g[j] >= 128)
    && (g[|g| - 1] < 128 || last)
  }

  function Joined(gs: seq<seq<byte>>): seq<byte> {
    if gs == [] then [] else gs[0] + Joined(gs[1..])
  }

  /** The octets `bs` in groups that end at the first octet below 128. */
  predicate Grouped(bs: seq<byte>, gs: seq<seq<byte>>) {
    Joined(gs) == bs && forall i :: 0 <= i < |gs| ==> Group(gs[i], i == |gs| - 1)
  }

  /** Seven bits of each octet, as many of them as 32 bits hold. */
  function GroupValues(gs: seq<seq<byte>>): (vs: seq<nat>)
    ensures |vs| == |gs|
  {
    seq(|gs|, i requires 0 <= i < |gs| => Fold128(0, gs[i]) % 0x1_0000_0000)
  }

  /** A first number of 43 is 1.3; no other number is split. */
  function Named(vs: seq<nat>): seq<nat> {
    if vs != [] && vs[0] == 43 then [1, 3] + vs[1..] else vs
  }

  /** `n` octets, whatever they are, and the arcs they become. */
  ghost predicate OidAt(d: seq<byte>, p: nat, n: nat, arcs: seq<nat>, q: nat) {
    && n + 1 < 0x1_0000_0000 && q == p + n && (n == 0 || q <= |d|)
    && exists gs :: Grouped(Slice(d, p, n), gs) && arcs == Named(GroupValues(gs))
  }

  lemma Wrap128Step(acc: nat, b: byte)
    ensures Wrap(Wrap(acc, WORD32) * 128 + b % 128, WORD32) == Wrap(acc * 128 + b % 128, WORD32)
  {
    var q, r := acc / WORD32, acc % WORD32;
    var k, r' := (128 * r + b % 128) / WORD32, (128 * r + b % 128) % WORD32;
    ModOf(128 * acc + b % 128, WORD32, 128 * q + k, r');
  }

  lemma {:induction false} Fold128Wraps(acc: nat, g: seq<byte>)
    ensures Wrap(Fold128(Wrap(acc, WORD32), g), WORD32) == Wrap(Fold128(acc, g), WORD32)
    decreases |g|
  {
    hide Wrap;
    if g == [] {
      WrapBelow(acc, WORD32);
      WrapSmall(Wrap(acc, WORD32), WORD32);
    } else {
      Fold128Wraps(Wrap(acc, WORD32) * 128 + g[0] % 128, g[1..]);
      Fold128Wraps(acc * 128 + g[0] % 128, g[1..]);
      Wrap128Step(acc, g[0]);
    }
  }

  lemma {:induction false} SubIdOutcome(d: seq<byte>, p: nat, end: nat, acc: nat, g: seq<byte>)
    requires Group(g, p + |g| == end) && Here(d, p, g) && p + |g| <= end
    ensures SubId(d, p, end, acc) == Got(Wrap(Fold128(acc, g), WORD32), p + |g|)
    decreases |g|
  {
    hide Wrap;
    var v := acc * 128 + g[0] % 128;
    HereFirst(d, p, g);
    if |g| > 1 {
      SubIdOutcome(d, p + 1, end, Wrap(v, WORD32), g[1..]);
      Fold128Wraps(v, g[1..]);
    } else {
      assert g[1..] == [];
    }
  }

  /** Without a number of 43 in front the rest is taken as it is. */
  lemma {:induction false} ArcsOutcome(d: seq<byte>, p: nat, arcs: seq<nat>, gs: seq<seq<byte>>)
    requires Grouped(Joined(gs), gs) && Here(d, p, Joined(gs))
    ensures Arcs(d, p, p + |Joined(gs)|, arcs) == Got(AddSubIds(arcs, GroupValues(gs)), p + |Joined(gs)|)
    decreases |gs|
  {
    hide SubId, Arcs, Fold128;
    var end := p + |Joined(gs)|;
    if gs == [] {
      ArcsEnd(d, p, arcs);
    } else {
      var g, rest := gs[0], gs[1..];
      HereConcat(d, p, g, Joined(rest));
      ArcsStep(d, p, end, arcs);
      forall i | 0 <= i < |rest| ensures Group(rest[i], i == |rest| - 1) { assert rest[i] == gs[i + 1]; }
      LastGroup(gs);
      SubIdOutcome(d, p, end, 0, g);
      ArcsOutcome(d, p + |g|, WithSubId(arcs, GroupValues(gs)[0]), rest);
      assert GroupValues(gs)[1..] == GroupValues(rest);
    }
  }

  lemma LastGroup(gs: seq<seq<byte>>)
    requires gs != [] && Grouped(Joined(gs), gs)
    ensures |gs| == 1 <==> |Joined(gs)| == |gs[0]|
  {
    if |gs| > 1 {
      assert gs[1..] != [] && gs[1..][0] == gs[1] && Group(gs[1], 1 == |gs| - 1);
    }
  }

  /** Any octets at all fall into such groups. */
  lemma {:induction false} Groups(bs: seq<byte>) returns (gs: seq<seq<byte>>)
    ensures Grouped(bs, gs)
    decreases |bs|
  {
    if bs == [] {
      gs := [];
    } else {
      var rest := Groups(bs[1..]);
      if bs[0] < 128 || rest == [] {
        gs := [[bs[0]]] + rest;
        Prepended([bs[0]], rest);
      } else {
        var g := [bs[0]] + rest[0];
        gs := [g] + rest[1..];
        assert Group(rest[0], 0 == |rest| - 1);
        Prepended(g, rest[1..]);
        assert g + Joined(rest[1..]) == [bs[0]] + (rest[0] + Joined(rest[1..]));
        forall i | 0 <= i < |gs| ensures Group(gs[i], i == |gs| - 1) {
          if i > 0 {
            assert gs[i] == rest[i];
          }
        }
      }
      assert [bs[0]] + bs[1..] == bs;
    }
  }

  lemma Prepended(g: seq<byte>, gs: seq<seq<byte>>)
    ensures Joined([g] + gs) == g + Joined(gs)
  {
    assert ([g] + gs)[1..] == gs;
  }

  lemma NamedIs(vs: seq<nat>)
    ensures AddSubIds([], vs) == Named(vs)
  {
    if vs != [] {
      AddSubIdsIs(WithSubId([], vs[0]), vs[1..]);
      assert [vs[0]] + vs[1..] == vs;
    }
  }

  lemma OidIs(d: seq<byte>, p: nat, gs: seq<seq<byte>>)
    requires Grouped(Joined(gs), gs) && Here(d, p, Joined(gs)) && |Joined(gs)| + 1 < WORD32
    ensures OidArcs(d, p, |Joined(gs)|) == Got(Named(GroupValues(gs)), p + |Joined(gs)|)
  {
    hide Arcs, Here;
    ArcsOutcome(d, p, [], gs);
    NamedIs(GroupValues(gs));
  }

  /** `ParseOid`, for any octets and any length. */
  lemma OidIff(d: seq<byte>, p: nat, n: nat, arcs: seq<nat>, q: nat)
    ensures OidArcs(d, p, n) == Got(arcs, q) <==> OidAt(d, p, n, arcs, q)
    ensures !OidArcs(d, p, n).Rejected?
  {
    hide Arcs, Named, GroupValues;
    var bs := Slice(d, p, n);
    if n + 1 < WORD32 && p + n <= |d| {
      var gs := Groups(bs);
      OidIs(d, p, gs);
      if OidAt(d, p, n, arcs, q) {
        var hs :| Grouped(bs, hs) && arcs == Named(GroupValues(hs));
        OidIs(d, p, hs);
      }
    } else if n == 0 {
      ArcsEnd(d, p, []);
      NoGroups(arcs);
    } else if n + 1 < WORD32 {
      BeyondIsUndefined(d, p, n);
    }
  }

  lemma BeyondIsUndefined(d: seq<byte>, p: nat, n: nat)
    requires 0 < n && |d| < p + n
    ensures OidArcs(d, p, n) == Undefined
  {
    hide SubId;
  }

  lemma NoGroups(arcs: seq<nat>)
    ensures (exists gs :: Grouped([], gs) && arcs == Named(GroupValues(gs))) <==> arcs == []
  {
    if arcs == [] {
      assert Grouped([], []) && GroupValues([]) == [];
    }
    forall gs | Grouped([], gs) ensures gs == [] { NoneJoined(gs); }
  }

  lemma NoneJoined(gs: seq<seq<byte>>)
    requires Grouped(Joined(gs), gs)
    ensures Joined(gs) == [] <==> gs == []
  {
    if gs != [] {
      assert Group(gs[0], 0 == |gs| - 1);
    }
  }
}
