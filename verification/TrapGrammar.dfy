/** Which packets `Decode` accepts, for any octets, and what it makes of them: a grammar of positions, tags and
    numbers.  `Accepted` and `AcceptedIs` say that a packet is accepted exactly if it has this shape. */
module TrapGrammar {
  import opened Wrappers
  import opened Words
  import opened Ber
  import opened Asn1Parsers
  import opened Asn1Outcomes
  import opened TrapDecoding

  // ---- Fields ----

  /** The tag `t` and length octets, up to `q`. */
  predicate HeadAt(d: seq<byte>, p: nat, t: byte, q: nat) {
    p < |d| && d[p] == t && HasLength(d, p + 1) && q == LengthEnd(d, p + 1)
  }

  /** A number of at most `most` octets. */
  predicate NumberFieldAt(d: seq<byte>, p: nat, t: byte, most: nat, v: nat, q: nat) {
    p < |d| && d[p] == t && HasLength(d, p + 1) && NumberAt(d, LengthEnd(d, p + 1), LengthRead(d, p + 1), most, v, q)
  }

  ghost predicate OidFieldAt(d: seq<byte>, p: nat, arcs: seq<nat>, q: nat) {
    p < |d| && d[p] == 0x06 && HasLength(d, p + 1) && OidAt(d, LengthEnd(d, p + 1), LengthRead(d, p + 1), arcs, q)
  }

  predicate TextFieldAt(d: seq<byte>, p: nat, s: seq<nat>, q: nat) {
    p < |d| && d[p] == 0x04 && HasLength(d, p + 1) && TextAt(d, LengthEnd(d, p + 1), LengthRead(d, p + 1), s, q)
  }

  lemma HeadIff(d: seq<byte>, p: nat, t: byte, n: nat, q: nat)
    ensures Header(d, p, t) == Got(n, q) <==> HeadAt(d, p, t, q) && n == LengthRead(d, p + 1)
  {
    hide FieldLength, LengthRead, LengthEnd, HasLength;
    LengthOutcome(d, p + 1);
  }

  lemma IntFieldIff(d: seq<byte>, p: nat, v: nat, q: nat)
    ensures IntField(d, p) == Got(v, q) <==> NumberFieldAt(d, p, 0x02, 4, v, q)
  {
    var h := Header(d, p, SNMP_TYPE_INT);
    hide Header, Int, NumberAt, HasLength, LengthRead, LengthEnd;
    if h.Got? {
      HeadIff(d, p, 0x02, h.value, h.at);
      NumbersIff(d, h.at, h.value, v, q);
    } else if NumberFieldAt(d, p, 0x02, 4, v, q) {
      HeadIff(d, p, 0x02, LengthRead(d, p + 1), LengthEnd(d, p + 1));
    }
  }

  lemma TimeFieldIff(d: seq<byte>, p: nat, v: nat, q: nat)
    ensures TimeField(d, p) == Got(v, q) <==> NumberFieldAt(d, p, 0x43, 8, v, q)
  {
    var h := Header(d, p, SNMP_TYPE_TIME);
    hide Header, Wide, NumberAt, HasLength, LengthRead, LengthEnd;
    if h.Got? {
      HeadIff(d, p, 0x43, h.value, h.at);
      WideIff(d, h.at, h.value, v, q);
    } else if NumberFieldAt(d, p, 0x43, 8, v, q) {
      HeadIff(d, p, 0x43, LengthRead(d, p + 1), LengthEnd(d, p + 1));
    }
  }

  lemma WideIff(d: seq<byte>, p: nat, n: nat, v: nat, q: nat)
    ensures Wide(d, p, n) == Got(v, q) <==> NumberAt(d, p, n, 8, v, q)
  {
    hide Int, BigInt, Number;
    NumbersIff(d, p, n, v, q);
  }

  lemma OidFieldIff(d: seq<byte>, p: nat, arcs: seq<nat>, q: nat)
    ensures OidField(d, p) == Got(arcs, q) <==> OidFieldAt(d, p, arcs, q)
  {
    var h := Header(d, p, SNMP_TYPE_OID);
    hide Header, OidArcs, OidAt, HasLength, LengthRead, LengthEnd;
    if h.Got? {
      HeadIff(d, p, 0x06, h.value, h.at);
      OidIff(d, h.at, h.value, arcs, q);
    } else if OidFieldAt(d, p, arcs, q) {
      HeadIff(d, p, 0x06, LengthRead(d, p + 1), LengthEnd(d, p + 1));
    }
  }

  lemma SeqHeadIff(d: seq<byte>, p: nat, q: nat)
    ensures Header(d, p, SNMP_TYPE_SEQ).Got? && Header(d, p, SNMP_TYPE_SEQ).at == q <==> HeadAt(d, p, 0x30, q)
  {
    var h := Header(d, p, SNMP_TYPE_SEQ);
    hide Header, LengthRead, HasLength, LengthEnd;
    if h.Got? {
      HeadIff(d, p, 0x30, h.value, h.at);
    } else if HeadAt(d, p, 0x30, q) {
      HeadIff(d, p, 0x30, LengthRead(d, p + 1), q);
    }
  }

  // ---- The v1 branch ----

  /** Where the fields of a v1 body begin, and what is in those that the trap's identity is made of: the enterprise,
      from 0; the address and the generic code, nine octets from `ip`; the specific code; the time; the list. */
  datatype V1Layout = V1Layout(enterprise: seq<nat>, ip: nat, specificAt: nat, specific: nat, time: nat, list: nat)

  ghost predicate V1At(d: seq<byte>, p: nat, b: Body, l: V1Layout, q: nat) {
    && OidFieldAt(d, p, l.enterprise, l.ip)
    && l.ip + 9 <= |d| && d[l.ip] == 0x40 && d[l.ip + 1] == 4 && d[l.ip + 6] == 0x02 && d[l.ip + 7] == 1
    && l.specificAt == l.ip + 9 && NumberFieldAt(d, l.specificAt, 0x02, 4, l.specific, l.time)
    && NumberFieldAt(d, l.time, 0x43, 8, b.time, l.list)
    && HeadAt(d, l.list, 0x30, q)
    && b.sourceIp == Some(Number(d[l.ip + 2..l.ip + 6]))
    && (var g: nat := d[l.ip + 8]; b.trapOid == l.enterprise + (if g == 6 then [0, l.specific] else [g + 1]))
    && b.requestId == 0 && b.error == 0 && b.errorIndex == 0
  }

  lemma FixedIff(d: seq<byte>, p: nat, t: byte, n: byte)
    ensures FixedHeader(d, p, t, n).Got? <==> p + 2 <= |d| && d[p] == t && d[p + 1] == n
    ensures FixedHeader(d, p, t, n).Got? ==> FixedHeader(d, p, t, n).at == p + 2
  {
  }

  /** The address and the generic code. */
  lemma FixedFields(d: seq<byte>, p: nat)
    ensures p + 4 <= |d| ==> Ip(d, p, 4) == Got(Number(d[p..p + 4]), p + 4)
    ensures p + 4 > |d| ==> !Ip(d, p, 4).Got?
    ensures p < |d| ==> Int(d, p, 1) == Got(d[p], p + 1)
    ensures p >= |d| ==> !Int(d, p, 1).Got?
  {
    hide Accumulate, Number;
    AccumulateOutcome(d, p, 4, WORD32);
    AccumulateOutcome(d, p, 1, WORD32);
    if p + 4 <= |d| {
      NumberFits(d[p..p + 4]);
    }
    if p < |d| {
      NumberFits(d[p..p + 1]);
      OneNumber(d[p..p + 1]);
    }
  }

  lemma OneNumber(bs: seq<byte>)
    requires |bs| == 1
    ensures Number(bs) == bs[0]
  {
    assert bs[1..] == [];
    assert Fold(0, bs) == Fold(0 * 256 + bs[0], bs[1..]);
  }

  lemma V1IdentityHas(d: seq<byte>, p: nat) returns (enterprise: seq<nat>, ip: nat, specific: nat)
    requires V1Identity(d, p).Got?
    ensures OidFieldAt(d, p, enterprise, ip)
    ensures ip + 9 <= |d| && d[ip] == 0x40 && d[ip + 1] == 4 && d[ip + 6] == 0x02 && d[ip + 7] == 1
    ensures NumberFieldAt(d, ip + 9, 0x02, 4, specific, V1Identity(d, p).at)
    ensures V1Identity(d, p).value == (enterprise + GenericArcs(d[ip + 8], specific), Number(d[ip + 2..ip + 6]))
  {
    hide OidField, FixedHeader, Ip, Int, IntField, GenericArcs, OidFieldAt, NumberFieldAt, Number;
    var e := OidField(d, p);
    enterprise, ip := e.value, e.at;
    OidFieldIff(d, p, enterprise, ip);
    FixedIff(d, ip, SNMP_TYPE_IPADDR, 4);
    FixedFields(d, ip + 2);
    FixedIff(d, ip + 6, SNMP_TYPE_INT, 1);
    FixedFields(d, ip + 8);
    var s := IntField(d, ip + 9);
    specific := s.value;
    IntFieldIff(d, ip + 9, specific, s.at);
  }

  lemma V1IdentityIs(d: seq<byte>, p: nat, enterprise: seq<nat>, ip: nat, specific: nat, q: nat)
    requires OidFieldAt(d, p, enterprise, ip)
    requires ip + 9 <= |d| && d[ip] == 0x40 && d[ip + 1] == 4 && d[ip + 6] == 0x02 && d[ip + 7] == 1
    requires NumberFieldAt(d, ip + 9, 0x02, 4, specific, q)
    ensures V1Identity(d, p) == Got((enterprise + GenericArcs(d[ip + 8], specific), Number(d[ip + 2..ip + 6])), q)
  {
    hide OidField, FixedHeader, Ip, Int, IntField, GenericArcs, OidFieldAt, NumberFieldAt, Number;
    OidFieldIff(d, p, enterprise, ip);
    FixedIff(d, ip, SNMP_TYPE_IPADDR, 4);
    FixedFields(d, ip + 2);
    FixedIff(d, ip + 6, SNMP_TYPE_INT, 1);
    FixedFields(d, ip + 8);
    IntFieldIff(d, ip + 9, specific, q);
    FixedValue(d, ip, SNMP_TYPE_IPADDR, 4);
    FixedValue(d, ip + 6, SNMP_TYPE_INT, 1);
  }

  lemma FixedValue(d: seq<byte>, p: nat, t: byte, n: byte)
    requires FixedHeader(d, p, t, n).Got?
    ensures FixedHeader(d, p, t, n) == Got(n, p + 2)
  {
  }

  lemma V1Has(d: seq<byte>, p: nat) returns (l: V1Layout)
    requires V1Body(d, p).Got?
    ensures V1At(d, p, V1Body(d, p).value, l, V1Body(d, p).at)
  {
    hide V1Identity, TimeField, Header, OidFieldAt, NumberFieldAt, HeadAt, Number;
    var enterprise, ip, specific := V1IdentityHas(d, p);
    var time := V1Identity(d, p).at;
    var t := TimeField(d, time);
    TimeFieldIff(d, time, t.value, t.at);
    SeqHeadIff(d, t.at, V1Body(d, p).at);
    l := V1Layout(enterprise, ip, ip + 9, specific, time, t.at);
  }

  lemma V1Is(d: seq<byte>, p: nat, b: Body, l: V1Layout, q: nat)
    requires V1At(d, p, b, l, q)
    ensures V1Body(d, p) == Got(b, q)
  {
    hide V1Identity, TimeField, Header, OidFieldAt, NumberFieldAt, HeadAt, Number;
    V1IdentityIs(d, p, l.enterprise, l.ip, l.specific, l.time);
    TimeFieldIff(d, l.time, b.time, l.list);
    SeqHeadIff(d, l.list, q);
  }

  // ---- The v2 branch ----

  /** Where the fields of a v2 body end: the three numbers, the heads of the list and of the first binding, that
      binding's name and time, the head of the second binding and its name. */
  datatype V2Layout = V2Layout(id: nat, error: nat, index: nat, list: nat, first: nat, timeName: seq<nat>, name: nat, time: nat,
                               second: nat, oidName: seq<nat>, otherName: nat)

  ghost predicate V2At(d: seq<byte>, p: nat, b: Body, l: V2Layout, q: nat) {
    && NumberFieldAt(d, p, 0x02, 4, b.requestId, l.id)
    && NumberFieldAt(d, l.id, 0x02, 4, b.error, l.error)
    && NumberFieldAt(d, l.error, 0x02, 4, b.errorIndex, l.index)
    && HeadAt(d, l.index, 0x30, l.list) && HeadAt(d, l.list, 0x30, l.first)
    && OidFieldAt(d, l.first, l.timeName, l.name)
    && NumberFieldAt(d, l.name, 0x43, 8, b.time, l.time)
    && HeadAt(d, l.time, 0x30, l.second)
    && OidFieldAt(d, l.second, l.oidName, l.otherName)
    && OidFieldAt(d, l.otherName, b.trapOid, q)
    && b.sourceIp == None
  }

  lemma V2Has(d: seq<byte>, p: nat) returns (l: V2Layout)
    requires V2Body(d, p).Got?
    ensures V2At(d, p, V2Body(d, p).value, l, V2Body(d, p).at)
  {
    hide IntField, OidField, TimeField, Header, OidFieldAt, NumberFieldAt, HeadAt;
    var a := IntField(d, p);
    var b := IntField(d, a.at);
    var c := IntField(d, b.at);
    var list := Header(d, c.at, SNMP_TYPE_SEQ);
    var first := Header(d, list.at, SNMP_TYPE_SEQ);
    var name := OidField(d, first.at);
    var time := TimeField(d, name.at);
    var second := Header(d, time.at, SNMP_TYPE_SEQ);
    var other := OidField(d, second.at);
    var trapOid := OidField(d, other.at);
    IntFieldIff(d, p, a.value, a.at);
    IntFieldIff(d, a.at, b.value, b.at);
    IntFieldIff(d, b.at, c.value, c.at);
    SeqHeadIff(d, c.at, list.at);
    SeqHeadIff(d, list.at, first.at);
    OidFieldIff(d, first.at, name.value, name.at);
    TimeFieldIff(d, name.at, time.value, time.at);
    SeqHeadIff(d, time.at, second.at);
    OidFieldIff(d, second.at, other.value, other.at);
    OidFieldIff(d, other.at, trapOid.value, trapOid.at);
    l := V2Layout(a.at, b.at, c.at, list.at, first.at, name.value, name.at, time.at, second.at, other.value, other.at);
  }

  lemma V2Is(d: seq<byte>, p: nat, b: Body, l: V2Layout, q: nat)
    requires V2At(d, p, b, l, q)
    ensures V2Body(d, p) == Got(b, q)
  {
    hide IntField, OidField, TimeField, Header, OidFieldAt, NumberFieldAt, HeadAt;
    IntFieldIff(d, p, b.requestId, l.id);
    IntFieldIff(d, l.id, b.error, l.error);
    IntFieldIff(d, l.error, b.errorIndex, l.index);
    SeqHeadIff(d, l.index, l.list);
    SeqHeadIff(d, l.list, l.first);
    OidFieldIff(d, l.first, l.timeName, l.name);
    TimeFieldIff(d, l.name, b.time, l.time);
    SeqHeadIff(d, l.time, l.second);
    OidFieldIff(d, l.second, l.oidName, l.otherName);
    OidFieldIff(d, l.otherName, b.trapOid, q);
  }

  // ---- The variables ----

  /** The value of type `t` whose length octets begin at `p`, in the fields of a variable that are otherwise as they
      were made. */
  ghost predicate ValueAt(d: seq<byte>, p: nat, t: byte, v: TrapVar, q: nat) {
    && (t == 0x05 || HasLength(d, p))
    && (var at, n := if HasLength(d, p) then LengthEnd(d, p) else 0, if HasLength(d, p) then LengthRead(d, p) else 0;
        if t == 0x02 || t == 0x43 then
          && NumberAt(d, at, n, 8, if n <= 4 then v.iVal else v.ullVal, q)
          && (if n <= 4 then v.ullVal == 0 else v.iVal == 0) && v.bVal == false && v.wcsVal == None && v.oidVal == None
        else if t == 0x40 then
          AddressAt(d, at, n, v.iVal, q) && v.ullVal == 0 && v.bVal == false && v.wcsVal == None && v.oidVal == None
        else if t == 0x04 then
          v.wcsVal.Some? && TextAt(d, at, n, v.wcsVal.value, q) && v.iVal == v.ullVal == 0 && v.bVal == false && v.oidVal == None
        else if t == 0x06 then
          v.oidVal.Some? && OidAt(d, at, n, v.oidVal.value, q) && v.iVal == v.ullVal == 0 && v.bVal == false && v.wcsVal == None
        else if t == 0x05 then
          q == p + 1 && v.iVal == v.ullVal == 0 && v.bVal == false && v.wcsVal == None && v.oidVal == None
        else
          && t == 0x01 && at + 1 < |d| && v.bVal == (d[at + 1] != 0) && q == at + 2
          && v.iVal == v.ullVal == 0 && v.wcsVal == None && v.oidVal == None)
  }

  lemma ValueIff(d: seq<byte>, p: nat, oid: seq<nat>, t: byte, v: TrapVar, q: nat)
    requires v.oid == oid && v.iValueType == t
    ensures Value(d, p, NewVar(oid, t)) == Got(v, q) <==> ValueAt(d, p, t, v, q)
  {
    hide FieldLength, Wide, Str, OidArcs, Ip, HasLength, LengthRead, LengthEnd, NumberAt, AddressAt, TextAt, OidAt;
    LengthOutcome(d, p);
    if HasLength(d, p) {
      var at, n := LengthEnd(d, p), LengthRead(d, p);
      WideIff(d, at, n, if n <= 4 then v.iVal else v.ullVal, q);
      NumbersIff(d, at, n, v.iVal, q);
      if v.wcsVal.Some? {
        TextIff(d, at, n, v.wcsVal.value, q);
      }
      if v.oidVal.Some? {
        OidIff(d, at, n, v.oidVal.value, q);
      }
    }
  }

  /** Where a variable's name begins, and its type. */
  datatype VarLayout = VarLayout(name: nat, value: nat, end: nat)

  ghost predicate VarAt(d: seq<byte>, p: nat, v: TrapVar, l: VarLayout) {
    && HeadAt(d, p, 0x30, l.name) && OidFieldAt(d, l.name, v.oid, l.value)
    && l.value < |d| && v.iValueType == d[l.value] && d[l.value] in {0x01, 0x02, 0x04, 0x05, 0x06, 0x40, 0x43}
    && ValueAt(d, l.value + 1, d[l.value], v, l.end)
  }

  lemma ValueKeeps(d: seq<byte>, p: nat, v: TrapVar)
    requires Value(d, p, v).Got?
    ensures Value(d, p, v).value.oid == v.oid && Value(d, p, v).value.iValueType == v.iValueType
    ensures v.iValueType in {0x01, 0x02, 0x04, 0x05, 0x06, 0x40, 0x43}
  {
    hide FieldLength, Wide, Str, OidArcs, Ip;
  }

  lemma VarHas(d: seq<byte>, p: nat) returns (l: VarLayout)
    requires Var(d, p).Got?
    ensures VarAt(d, p, Var(d, p).value, l) && l.end == Var(d, p).at
  {
    var head := Header(d, p, SNMP_TYPE_SEQ);
    var name := OidField(d, head.at);
    hide Header, OidField, Value, OidFieldAt, HeadAt, ValueAt;
    var v := Value(d, name.at + 1, NewVar(name.value, d[name.at]));
    SeqHeadIff(d, p, head.at);
    OidFieldIff(d, head.at, name.value, name.at);
    ValueKeeps(d, name.at + 1, NewVar(name.value, d[name.at]));
    ValueIff(d, name.at + 1, name.value, d[name.at], v.value, v.at);
    l := VarLayout(head.at, name.at, v.at);
  }

  lemma VarIs(d: seq<byte>, p: nat, v: TrapVar, l: VarLayout)
    requires VarAt(d, p, v, l)
    ensures Var(d, p) == Got(v, l.end)
  {
    hide Header, OidField, Value, OidFieldAt, HeadAt, ValueAt, NewVar;
    SeqHeadIff(d, p, l.name);
    OidFieldIff(d, l.name, v.oid, l.value);
    ValueIff(d, l.value + 1, v.oid, d[l.value], v, l.end);
  }

  /** Variables one behind the other, as long as there is a SEQUENCE before the end of the packet. */
  ghost predicate VarsAt(d: seq<byte>, p: nat, packetLen: nat, vs: seq<TrapVar>, ls: seq<VarLayout>, q: nat)
    decreases |vs|
  {
    if vs == [] then ls == [] && q == p && (p >= packetLen || (p < |d| && d[p] != 0x30))
    else p < packetLen && ls != [] && VarAt(d, p, vs[0], ls[0]) && VarsAt(d, ls[0].end, packetLen, vs[1..], ls[1..], q)
  }

  lemma {:induction false} VarsHave(d: seq<byte>, p: nat, packetLen: nat, before: seq<TrapVar>)
    returns (vs: seq<TrapVar>, ls: seq<VarLayout>)
    requires Vars(d, p, packetLen, before).Got?
    ensures Vars(d, p, packetLen, before).value == before + vs && VarsAt(d, p, packetLen, vs, ls, Vars(d, p, packetLen, before).at)
    decreases packetLen - p
  {
    hide Var, VarAt;
    vs, ls := [], [];
    if p >= packetLen || d[p] != SNMP_TYPE_SEQ {
    } else {
      var v := Var(d, p);
      var l := VarHas(d, p);
      var vs', ls' := VarsHave(d, v.at, packetLen, before + [v.value]);
      vs, ls := [v.value] + vs', [l] + ls';
      assert before + [v.value] + vs' == before + vs;
    }
  }

  lemma {:induction false} VarsAre(d: seq<byte>, p: nat, packetLen: nat, before: seq<TrapVar>, vs: seq<TrapVar>, ls: seq<VarLayout>, q: nat)
    requires VarsAt(d, p, packetLen, vs, ls, q)
    ensures Vars(d, p, packetLen, before) == Got(before + vs, q)
    decreases |vs|
  {
    hide Var;
    if vs == [] {
      assert before + vs == before;
    } else {
      VarIs(d, p, vs[0], ls[0]);
      FirstOctet(d, p, vs[0], ls[0]);
      VarsAre(d, ls[0].end, packetLen, before + [vs[0]], vs[1..], ls[1..], q);
      assert before + [vs[0]] + vs[1..] == before + vs;
    }
  }

  lemma FirstOctet(d: seq<byte>, p: nat, v: TrapVar, l: VarLayout)
    requires VarAt(d, p, v, l)
    ensures p < |d| && d[p] == 0x30
  {
  }

  // ---- The packet ----

  /** The outer length is that of the rest of the packet; a version of four octets at most; the community. */
  ghost predicate EnvelopeAt(d: seq<byte>, packetLen: nat, version: nat, community: seq<nat>, versionAt: nat, communityAt: nat, q: nat) {
    && HeadAt(d, 0, 0x30, versionAt) && versionAt + LengthRead(d, 1) == packetLen
    && NumberFieldAt(d, versionAt, 0x02, 4, version, communityAt)
    && TextFieldAt(d, communityAt, community, q)
  }

  lemma EnvelopeHas(d: seq<byte>, packetLen: nat) returns (versionAt: nat, communityAt: nat)
    requires Envelope(d, packetLen).Got?
    ensures var e := Envelope(d, packetLen);
            EnvelopeAt(d, packetLen, e.value.0, e.value.1, versionAt, communityAt, e.at)
  {
    hide Header, Int, Str, NumberAt, TextAt, LengthRead, LengthEnd, HasLength;
    var outer := Header(d, 0, SNMP_TYPE_SEQ);
    HeadIff(d, 0, 0x30, outer.value, outer.at);
    var h := Header(d, outer.at, SNMP_TYPE_INT);
    HeadIff(d, outer.at, 0x02, h.value, h.at);
    var version := Int(d, h.at, h.value);
    NumbersIff(d, h.at, h.value, version.value, version.at);
    var h' := Header(d, version.at, SNMP_TYPE_STR);
    HeadIff(d, version.at, 0x04, h'.value, h'.at);
    var text := Str(d, h'.at, h'.value);
    TextIff(d, h'.at, h'.value, text.value, text.at);
    versionAt, communityAt := outer.at, version.at;
  }

  lemma EnvelopeIs(d: seq<byte>, packetLen: nat, version: nat, community: seq<nat>, versionAt: nat, communityAt: nat, q: nat)
    requires EnvelopeAt(d, packetLen, version, community, versionAt, communityAt, q)
    ensures Envelope(d, packetLen) == Got((version, community), q)
  {
    var n, n' := LengthRead(d, versionAt + 1), LengthRead(d, communityAt + 1);
    var at, at' := LengthEnd(d, versionAt + 1), LengthEnd(d, communityAt + 1);
    hide Header, Int, Str, TextAt, LengthRead, LengthEnd, HasLength;
    HeadIff(d, 0, 0x30, LengthRead(d, 1), versionAt);
    HeadIff(d, versionAt, 0x02, n, at);
    NumbersIff(d, at, n, version, communityAt);
    HeadIff(d, communityAt, 0x04, n', at');
    TextIff(d, at', n', community, q);
  }

  lemma RequestIff(d: seq<byte>, p: nat, t: byte, q: nat)
    ensures Request(d, p) == Got(t, q) <==> t in {0xA4, 0xA6, 0xA7} && HeadAt(d, p, t, q)
  {
    hide FieldLength, HasLength, LengthRead, LengthEnd;
    LengthOutcome(d, p + 1);
  }

  datatype Layout = Layout(version: nat, community: nat, body: nat, v1: V1Layout, v2: V2Layout, vars: nat, varList: seq<VarLayout>)

  /** The shape of a packet that is accepted as `m`: `q` is where reading ends. */
  ghost predicate PacketAt(d: seq<byte>, packetLen: nat, m: Trap, l: Layout, q: nat) {
    && EnvelopeAt(d, packetLen, m.version, m.community, l.version, l.community, m.reqType)
    && m.trapType in {0xA4, 0xA6, 0xA7} && HeadAt(d, m.reqType, m.trapType, l.body)
    && (if m.trapType == 0xA4 then V1At(d, l.body, m.body, l.v1, l.vars) else V2At(d, l.body, m.body, l.v2, l.vars))
    && VarsAt(d, l.vars, packetLen, m.vars, l.varList, q)
  }

  /** Every packet that is accepted has that shape. */
  lemma Accepted(d: seq<byte>, packetLen: nat) returns (l: Layout)
    requires Decode(d, packetLen).Got?
    ensures PacketAt(d, packetLen, Decode(d, packetLen).value, l, Decode(d, packetLen).at)
  {
    var e := Envelope(d, packetLen);
    var r := Request(d, e.at);
    var body := if r.value == SNMP_V1TRAP then V1Body(d, r.at) else V2Body(d, r.at);
    hide Envelope, Request, V1Body, V2Body, Vars, EnvelopeAt, HeadAt, V1At, V2At, VarsAt;
    var versionAt, communityAt := EnvelopeHas(d, packetLen);
    RequestIff(d, e.at, r.value, r.at);
    var v1: V1Layout, v2: V2Layout := V1Layout([], 0, 0, 0, 0, 0), V2Layout(0, 0, 0, 0, 0, [], 0, 0, 0, [], 0);
    if r.value == SNMP_V1TRAP {
      v1 := V1Has(d, r.at);
    } else {
      v2 := V2Has(d, r.at);
    }
    var vs, ls := VarsHave(d, body.at, packetLen, []);
    assert [] + vs == vs;
    l := Layout(versionAt, communityAt, r.at, v1, v2, body.at, ls);
  }

  /** And every packet of that shape is accepted, as what its octets say. */
  lemma AcceptedIs(d: seq<byte>, packetLen: nat, m: Trap, l: Layout, q: nat)
    requires PacketAt(d, packetLen, m, l, q)
    ensures Decode(d, packetLen) == Got(m, q)
  {
    hide Envelope, Request, V1Body, V2Body, Vars, EnvelopeAt, HeadAt, V1At, V2At, VarsAt;
    EnvelopeIs(d, packetLen, m.version, m.community, l.version, l.community, m.reqType);
    RequestIff(d, m.reqType, m.trapType, l.body);
    if m.trapType == 0xA4 {
      V1Is(d, l.body, m.body, l.v1, l.vars);
    } else {
      V2Is(d, l.body, m.body, l.v2, l.vars);
    }
    VarsAre(d, l.vars, packetLen, [], m.vars, l.varList, q);
    assert [] + m.vars == m.vars;
  }

  /** So a packet is accepted exactly if it has this shape. */
  lemma DecodeIff(d: seq<byte>, packetLen: nat, m: Trap, q: nat)
    ensures Decode(d, packetLen) == Got(m, q) <==> exists l :: PacketAt(d, packetLen, m, l, q)
  {
    hide Decode, PacketAt;
    if Decode(d, packetLen) == Got(m, q) {
      var l := Accepted(d, packetLen);
    }
    if l :| PacketAt(d, packetLen, m, l, q) {
      AcceptedIs(d, packetLen, m, l, q);
    }
  }

  /** What `DecodeIff` says of the octets that decide: an accepted packet is a SEQUENCE as long as its length says, its
      request is a v1 trap, an inform or a v2 trap, found again at `reqType`, and each of its variables has one of the
      seven types. */
  lemma AcceptedIsTrap(d: seq<byte>, packetLen: nat)
    requires Decode(d, packetLen).Got?
    ensures HasLength(d, 1) && d[0] == 0x30 && LengthEnd(d, 1) + LengthRead(d, 1) == packetLen
    ensures var m := Decode(d, packetLen).value;
            && m.reqType < |d| && m.trapType == d[m.reqType] && m.trapType in {0xA4, 0xA6, 0xA7}
            && (m.trapType == 0xA4 <==> m.body.sourceIp.Some?)
            && forall i :: 0 <= i < |m.vars| ==> m.vars[i].iValueType in {0x01, 0x02, 0x04, 0x05, 0x06, 0x40, 0x43}
  {
    hide Decode, V1At, V2At, VarsAt, NumberFieldAt, TextFieldAt, LengthRead, HasLength, LengthEnd;
    var m := Decode(d, packetLen).value;
    var l := Accepted(d, packetLen);
    SourceIp(d, m.body, l);
    KnownTypes(d, l.vars, packetLen, m.vars, l.varList, Decode(d, packetLen).at);
  }

  lemma SourceIp(d: seq<byte>, b: Body, l: Layout)
    ensures V1At(d, l.body, b, l.v1, l.vars) ==> b.sourceIp.Some?
    ensures V2At(d, l.body, b, l.v2, l.vars) ==> b.sourceIp.None?
  {
    hide OidFieldAt, NumberFieldAt, HeadAt, Number;
  }

  lemma {:induction false} KnownTypes(d: seq<byte>, p: nat, packetLen: nat, vs: seq<TrapVar>, ls: seq<VarLayout>, q: nat)
    requires VarsAt(d, p, packetLen, vs, ls, q)
    ensures forall i :: 0 <= i < |vs| ==> vs[i].iValueType in {0x01, 0x02, 0x04, 0x05, 0x06, 0x40, 0x43}
    decreases |vs|
  {
    hide HeadAt, OidFieldAt, ValueAt;
    if vs == [] {
    } else {
      KnownTypes(d, ls[0].end, packetLen, vs[1..], ls[1..], q);
      assert forall i :: 1 <= i < |vs| ==> vs[i] == vs[1..][i - 1];
    }
  }
}
