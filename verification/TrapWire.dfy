/** SNMP messages and their encodings: the specification that `Decode` inverts.  A message may be written
    with any definite length form, and its numbers with leading octets; `Carries` says which encodings
    stand for which message, `Encode` gives the shortest one. */
module TrapWire {
  import opened Wrappers
  import opened Words
  import opened Ber
  import opened Asn1Parsers
  import opened TrapDecoding

  datatype Val = IntVal(n: int) | TimeVal(n: int) | StrVal(s: seq<byte>) | NullVal | OidVal(arcs: seq<nat>) | IpVal(ip: nat)

  datatype Binding = Binding(name: seq<nat>, val: Val)

  /** A v1 trap (section 4.1.6 of RFC 1157), or a v2 trap or inform (sections 4.2.6 and 4.2.7 of RFC
      3416), whose first two bindings are the time stamp and the identity of the trap. */
  datatype Pdu =
    | V1(enterprise: seq<nat>, ip: nat, generic: int, specific: int, time: int)
    | V2(inform: bool, requestId: int, error: int, errorIndex: int, timeName: seq<nat>, time: int, oidName: seq<nat>, trapOid: seq<nat>)

  datatype Message = Message(version: int, community: seq<byte>, pdu: Pdu, bindings: seq<Binding>)

  // ---- Encodings ----

  datatype Tlv = Tlv(tag: byte, len: seq<byte>, content: seq<byte>)

  datatype WireVar = WireVar(len: seq<byte>, name: Tlv, value: Tlv)

  datatype WirePdu =
    | WireV1(enterprise: Tlv, ip: Tlv, generic: Tlv, specific: Tlv, time: Tlv, listLen: seq<byte>)
    | WireV2(requestId: Tlv, error: Tlv, errorIndex: Tlv, listLen: seq<byte>, timeLen: seq<byte>, timeName: Tlv, time: Tlv,
             oidLen: seq<byte>, oidName: Tlv, trapOid: Tlv)

  datatype Wire = Wire(len: seq<byte>, version: Tlv, community: Tlv, tag: byte, pduLen: seq<byte>, pdu: WirePdu, vars: seq<WireVar>)

  function Bytes(t: Tlv): seq<byte> { [t.tag] + (t.len + t.content) }

  function SeqHead(len: seq<byte>): seq<byte> { [SNMP_TYPE_SEQ] + len }

  function VarBytes(v: WireVar): seq<byte> { SeqHead(v.len) + (Bytes(v.name) + Bytes(v.value)) }

  function VarsBytes(vs: seq<WireVar>): seq<byte> {
    if vs == [] then [] else VarBytes(vs[0]) + VarsBytes(vs[1..])
  }

  function PduBytes(b: WirePdu, rest: seq<byte>): seq<byte> {
    match b
    case WireV1(enterprise, ip, generic, specific, time, listLen) =>
      Bytes(enterprise) + (Bytes(ip) + (Bytes(generic) + (Bytes(specific) + (Bytes(time) + (SeqHead(listLen) + rest)))))
    case WireV2(requestId, error, errorIndex, listLen, timeLen, timeName, time, oidLen, oidName, trapOid) =>
      Bytes(requestId) + (Bytes(error) + (Bytes(errorIndex) + (SeqHead(listLen) + (SeqHead(timeLen) + (Bytes(timeName) +
      (Bytes(time) + (SeqHead(oidLen) + (Bytes(oidName) + (Bytes(trapOid) + rest)))))))))
  }

  function RequestBytes(w: Wire): seq<byte> {
    [w.tag] + (w.pduLen + PduBytes(w.pdu, VarsBytes(w.vars)))
  }

  function InnerBytes(w: Wire): seq<byte> { Bytes(w.version) + (Bytes(w.community) + RequestBytes(w)) }

  function WireBytes(w: Wire): seq<byte> { SeqHead(w.len) + InnerBytes(w) }

  // ---- Which encodings stand for which message ----

  predicate Sound(t: Tlv, tag: byte) {
    t.tag == tag && IsLength(t.len, |t.content|) && |t.content| + 1 < WORD32
  }

  /** The octets stand for `n`: in two's complement, as section 8.3 of X.690 has it (`signed`), or without a
      sign, as the code takes them. */
  predicate CarriesNumber(t: Tlv, tag: byte, n: int, most: nat, signed: bool) {
    && Sound(t, tag) && |t.content| <= most
    && if signed then t.content != [] && TwosComplement(t.content) == n else Number(t.content) == n
  }

  /** Under 1.3, with arcs of 32 bits. */
  predicate Under13(arcs: seq<nat>) {
    |arcs| >= 2 && arcs[0] == 1 && arcs[1] == 3 && Words32(arcs)
  }

  predicate CarriesOid(t: Tlv, arcs: seq<nat>) {
    Sound(t, SNMP_TYPE_OID) && Under13(arcs) && t.content == EncodeOid(arcs)
  }

  predicate Ascii(s: seq<byte>) { forall i :: 0 <= i < |s| ==> s[i] < 0x80 }

  predicate CarriesText(t: Tlv, s: seq<byte>) { Sound(t, SNMP_TYPE_STR) && Ascii(s) && t.content == s }

  predicate CarriesVal(t: Tlv, v: Val, signed: bool) {
    match v
    case IntVal(n) => CarriesNumber(t, SNMP_TYPE_INT, n, 8, signed)
    case TimeVal(n) => CarriesNumber(t, SNMP_TYPE_TIME, n, 8, signed)
    case StrVal(s) => CarriesText(t, s)
    case NullVal => Sound(t, SNMP_TYPE_NULL) && t.content == []
    case OidVal(arcs) => CarriesOid(t, arcs)
    case IpVal(n) => CarriesNumber(t, SNMP_TYPE_IPADDR, n, 4, false)
  }

  predicate CarriesVar(w: WireVar, b: Binding, signed: bool) {
    IsLengthForm(w.len) && CarriesOid(w.name, b.name) && CarriesVal(w.value, b.val, signed)
  }

  predicate CarriesVars(ws: seq<WireVar>, bs: seq<Binding>, signed: bool) {
    |ws| == |bs| && forall i :: 0 <= i < |ws| ==> CarriesVar(ws[i], bs[i], signed)
  }

  predicate CarriesPdu(w: WirePdu, m: Pdu, signed: bool) {
    match w
    case WireV1(enterprise, ip, generic, specific, time, listLen) =>
      && m.V1? && CarriesOid(enterprise, m.enterprise)
      && CarriesNumber(ip, SNMP_TYPE_IPADDR, m.ip, 4, false) && |ip.content| == 4 && CarriesNumber(generic, SNMP_TYPE_INT, m.generic, 4, signed)
      && CarriesNumber(specific, SNMP_TYPE_INT, m.specific, 4, signed) && CarriesNumber(time, SNMP_TYPE_TIME, m.time, 8, signed)
      && IsLengthForm(listLen)
    case WireV2(requestId, error, errorIndex, listLen, timeLen, timeName, time, oidLen, oidName, trapOid) =>
      && m.V2? && CarriesNumber(requestId, SNMP_TYPE_INT, m.requestId, 4, signed) && CarriesNumber(error, SNMP_TYPE_INT, m.error, 4, signed)
      && CarriesNumber(errorIndex, SNMP_TYPE_INT, m.errorIndex, 4, signed)
      && IsLengthForm(listLen) && IsLengthForm(timeLen) && IsLengthForm(oidLen)
      && CarriesOid(timeName, m.timeName) && CarriesNumber(time, SNMP_TYPE_TIME, m.time, 8, signed)
      && CarriesOid(oidName, m.oidName) && CarriesOid(trapOid, m.trapOid)
  }

  function RequestTag(m: Pdu): byte {
    if m.V1? then SNMP_V1TRAP else if m.inform then SNMP_V2INFORM else SNMP_V2TRAP
  }

  predicate Carries(w: Wire, m: Message, signed: bool) {
    && IsLength(w.len, |InnerBytes(w)|) && |InnerBytes(w)| < WORD32
    && CarriesNumber(w.version, SNMP_TYPE_INT, m.version, 4, signed) && CarriesText(w.community, m.community)
    && w.tag == RequestTag(m.pdu) && IsLengthForm(w.pduLen)
    && CarriesPdu(w.pdu, m.pdu, signed) && CarriesVars(w.vars, m.bindings, signed)
  }

  /** A null value with a long length form. */
  predicate LongNull(w: WireVar) { w.value.tag == SNMP_TYPE_NULL && |w.value.len| > 1 }

  /** The first binding that is one, or the number of bindings. */
  function FirstLongNull(ws: seq<WireVar>): (n: nat)
    ensures n <= |ws|
    ensures n == |ws| <==> forall i :: 0 <= i < |ws| ==> !LongNull(ws[i])
  {
    if ws == [] || LongNull(ws[0]) then 0
    else
      var n := FirstLongNull(ws[1..]);
      assert forall i :: 1 <= i < |ws| ==> ws[i] == ws[1..][i - 1];
      1 + n
  }

  /** The address and the generic code of a v1 trap have the only lengths that the code compares with,
      in one octet. */
  predicate PlainPdu(w: WirePdu) { w.WireV1? ==> |w.ip.len| == 1 && w.generic.len == [1] }

  /** `Carries` asks only for some definite form where the code skips a length: around the data of the request,
      the list and the bindings.  These are the right lengths. */
  predicate TrueLengths(w: Wire) {
    var rest := VarsBytes(w.vars);
    && IsLength(w.pduLen, |PduBytes(w.pdu, rest)|)
    && PduLengths(w.pdu, |rest|)
    && forall i :: 0 <= i < |w.vars| ==> IsLength(w.vars[i].len, |Bytes(w.vars[i].name)| + |Bytes(w.vars[i].value)|)
  }

  predicate PduLengths(w: WirePdu, rest: nat) {
    match w
    case WireV1(_, _, _, _, _, listLen) => IsLength(listLen, rest)
    case WireV2(_, _, _, listLen, timeLen, timeName, time, oidLen, oidName, trapOid) =>
      && IsLength(timeLen, |Bytes(timeName)| + |Bytes(time)|) && IsLength(oidLen, |Bytes(oidName)| + |Bytes(trapOid)|)
      && IsLength(listLen, |SeqHead(timeLen)| + |Bytes(timeName)| + |Bytes(time)| + |SeqHead(oidLen)| + |Bytes(oidName)|
                           + |Bytes(trapOid)| + rest)
  }

  // ---- What the decoded object shows ----

  /** The value of a variable, as the conversion to text takes it (lines 100-164): the wide number if it
      is not zero, otherwise the narrow one. */
  function Shown(v: TrapVar): Option<Val> {
    var n := if v.ullVal > 0 then v.ullVal else v.iVal;
    if v.iValueType == SNMP_TYPE_INT then Some(IntVal(n))
    else if v.iValueType == SNMP_TYPE_TIME then Some(TimeVal(n))
    else if v.iValueType == SNMP_TYPE_STR && v.wcsVal.Some? && (forall i :: 0 <= i < |v.wcsVal.value| ==> v.wcsVal.value[i] < 256)
    then Some(StrVal(v.wcsVal.value))
    else if v.iValueType == SNMP_TYPE_NULL then Some(NullVal)
    else if v.iValueType == SNMP_TYPE_OID && v.oidVal.Some? then Some(OidVal(v.oidVal.value))
    else if v.iValueType == SNMP_TYPE_IPADDR then Some(IpVal(v.iVal))
    else None
  }

  predicate ShowsVar(v: TrapVar, b: Binding) { v.oid == b.name && Shown(v) == Some(b.val) }

  predicate ShowsVars(vs: seq<TrapVar>, bs: seq<Binding>) {
    |vs| == |bs| && forall i :: 0 <= i < |vs| ==> ShowsVar(vs[i], bs[i])
  }

  /** The arcs that the code puts behind the enterprise: for generic trap 6, zero and the specific code
      (section 3.1 of RFC 3584); for the others the generic code plus one. */
  function IdentityArcs(generic: int, specific: int): seq<int> {
    if generic == 6 then [0, specific] else [generic + 1]
  }

  /** The fields that a message should leave. */
  predicate ShowsBody(b: Body, m: Pdu) {
    match m
    case V1(enterprise, ip, generic, specific, time) =>
      && b.requestId == b.error == b.errorIndex == 0 && b.trapOid == enterprise + IdentityArcs(generic, specific)
      && b.time == time && b.sourceIp == Some(ip)
    case V2(_, requestId, error, errorIndex, _, time, _, trapOid) =>
      && b.requestId == requestId && b.error == error && b.errorIndex == errorIndex && b.trapOid == trapOid
      && b.time == time && b.sourceIp == None
  }

  /** The identity that section 3.1 of RFC 3584 gives to a v1 trap. */
  function StandardIdentity(enterprise: seq<nat>, generic: int, specific: int): seq<int> {
    if generic == 6 then enterprise + [0, specific] else SNMP_TRAPS + [generic + 1]
  }

  const SNMP_TRAPS: seq<nat> := [1, 3, 6, 1, 6, 3, 1, 1, 5]

  /** The code gives a v1 trap its standard identity exactly if it is enterprise-specific, or if the
      enterprise is that of the standard traps. */
  lemma IdentityIff(b: Body, m: Pdu)
    requires m.V1? && ShowsBody(b, m)
    ensures b.trapOid == StandardIdentity(m.enterprise, m.generic, m.specific) <==> m.generic == 6 || m.enterprise == SNMP_TRAPS
  {
    if m.generic != 6 && m.enterprise + [m.generic + 1] == SNMP_TRAPS + [m.generic + 1] {
      assert m.enterprise == (m.enterprise + [m.generic + 1])[..|m.enterprise|];
      assert SNMP_TRAPS == (SNMP_TRAPS + [m.generic + 1])[..|SNMP_TRAPS|];
    }
  }

  /** A cold start reported by enterprise 1.3.6 becomes 1.3.6.1 instead of 1.3.6.1.6.3.1.1.5.1. */
  lemma ColdStartDiffers(b: Body)
    requires ShowsBody(b, V1([1, 3, 6], 0, 0, 0, 0))
    ensures b.trapOid == [1, 3, 6, 1] && StandardIdentity([1, 3, 6], 0, 0) == [1, 3, 6, 1, 6, 3, 1, 1, 5, 1]
  {
  }

  predicate Shows(t: Trap, m: Message) {
    && t.version == m.version && t.community == m.community && t.trapType == RequestTag(m.pdu)
    && ShowsBody(t.body, m.pdu) && ShowsVars(t.vars, m.bindings)
  }

  // ---- Reading one field ----

  lemma FormReads(d: seq<byte>, p: nat, tag: byte, len: seq<byte>, rest: seq<byte>)
    requires IsLengthForm(len) && Here(d, p, ([tag] + len) + rest)
    ensures Header(d, p, tag).Got? && Header(d, p, tag).at == p + 1 + |len|
    ensures LengthOf(len) < WORD32 ==> Header(d, p, tag).value == LengthOf(len)
    ensures Here(d, p + 1 + |len|, rest)
  {
    HereConcat(d, p, [tag] + len, rest);
    HereFirst(d, p, [tag] + len);
    assert ([tag] + len)[1..] == len;
    FieldLengthInverts(d, p + 1, len);
  }

  lemma TlvReads(d: seq<byte>, p: nat, t: Tlv, tag: byte, rest: seq<byte>)
    requires Sound(t, tag) && Here(d, p, Bytes(t) + rest)
    ensures Header(d, p, tag) == Got(|t.content|, p + 1 + |t.len|) && Here(d, p + 1 + |t.len|, t.content)
    ensures p + 1 + |t.len| + |t.content| == p + |Bytes(t)| && Here(d, p + |Bytes(t)|, rest)
  {
    hide IsLengthForm, LengthOf, Header;
    assert Bytes(t) + rest == ([tag] + t.len) + (t.content + rest);
    FormReads(d, p, tag, t.len, t.content + rest);
    HereConcat(d, p + 1 + |t.len|, t.content, rest);
  }

  lemma IntReads(d: seq<byte>, p: nat, t: Tlv, n: int, rest: seq<byte>)
    requires CarriesNumber(t, SNMP_TYPE_INT, n, 4, false) && Here(d, p, Bytes(t) + rest)
    ensures IntField(d, p) == Got(n, p + |Bytes(t)|) && Here(d, p + |Bytes(t)|, rest)
  {
    hide Bytes, Here, Header, IsLength, Int, BigInt, Number;
    TlvReads(d, p, t, SNMP_TYPE_INT, rest);
    IntInverts(d, p + 1 + |t.len|, t.content);
  }

  lemma TimeReads(d: seq<byte>, p: nat, t: Tlv, n: int, rest: seq<byte>)
    requires CarriesNumber(t, SNMP_TYPE_TIME, n, 8, false) && Here(d, p, Bytes(t) + rest)
    ensures TimeField(d, p) == Got(n, p + |Bytes(t)|) && Here(d, p + |Bytes(t)|, rest)
  {
    hide Bytes, Here, Header, IsLength, Int, BigInt, Number;
    TlvReads(d, p, t, SNMP_TYPE_TIME, rest);
    IntInverts(d, p + 1 + |t.len|, t.content);
  }

  lemma OidReads(d: seq<byte>, p: nat, t: Tlv, arcs: seq<nat>, rest: seq<byte>)
    requires CarriesOid(t, arcs) && Here(d, p, Bytes(t) + rest)
    ensures OidField(d, p) == Got(arcs, p + |Bytes(t)|) && Here(d, p + |Bytes(t)|, rest)
  {
    hide Bytes, Here, Header, IsLength, EncodeOid, OidArcs, Under13;
    TlvReads(d, p, t, SNMP_TYPE_OID, rest);
    OidContent(d, p + 1 + |t.len|, arcs);
  }

  lemma OidContent(d: seq<byte>, p: nat, arcs: seq<nat>)
    requires Under13(arcs) && Here(d, p, EncodeOid(arcs)) && |EncodeOid(arcs)| + 1 < WORD32
    ensures OidArcs(d, p, |EncodeOid(arcs)|) == Got(arcs, p + |EncodeOid(arcs)|)
  {
    OidRoundTripIff(d, p, arcs);
  }

  lemma SeqReads(d: seq<byte>, p: nat, len: seq<byte>, rest: seq<byte>)
    requires IsLengthForm(len) && Here(d, p, SeqHead(len) + rest)
    ensures Header(d, p, SNMP_TYPE_SEQ).Got? && Header(d, p, SNMP_TYPE_SEQ).at == p + |SeqHead(len)|
    ensures p < |d| && d[p] == SNMP_TYPE_SEQ && Here(d, p + |SeqHead(len)|, rest)
  {
    FormReads(d, p, SNMP_TYPE_SEQ, len, rest);
  }

  /** A field whose length is compared with the octet `n` is accepted exactly if its length octets are
      just that one. */
  lemma FixedReads(d: seq<byte>, p: nat, t: Tlv, tag: byte, n: byte, rest: seq<byte>)
    requires Sound(t, tag) && n < 0x80 && Here(d, p, Bytes(t) + rest)
    ensures t.len == [n] ==> FixedHeader(d, p, tag, n) == Got(n, p + 2) && |t.content| == n && Here(d, p + 2, t.content)
    ensures t.len != [n] ==> FixedHeader(d, p, tag, n).Rejected?
    ensures Here(d, p + |Bytes(t)|, rest) && (t.len == [n] ==> p + |Bytes(t)| == p + 2 + n)
  {
    TlvReads(d, p, t, tag, rest);
    HereFirst(d, p, Bytes(t) + rest);
    assert (Bytes(t) + rest)[1..] == t.len + (t.content + rest);
    HereFirst(d, p + 1, t.len + (t.content + rest));
  }

  // ---- Reading one variable ----

  lemma LengthReads(d: seq<byte>, p: nat, t: Tlv)
    requires Sound(t, t.tag) && Here(d, p, Bytes(t))
    ensures p < |d| && d[p] == t.tag && FieldLength(d, p + 1) == Got(|t.content|, p + 1 + |t.len|)
    ensures Here(d, p + 1 + |t.len|, t.content) && p + 1 + |t.len| + |t.content| == p + |Bytes(t)|
  {
    assert Bytes(t) + [] == Bytes(t);
    TlvReads(d, p, t, t.tag, []);
    HereFirst(d, p, Bytes(t));
  }

  lemma NumberReads(d: seq<byte>, p: nat, t: Tlv, v: Val, name: seq<nat>)
    requires CarriesVal(t, v, false) && (v.IntVal? || v.TimeVal? || v.IpVal?) && Here(d, p, Bytes(t))
    ensures var r := Value(d, p + 1, NewVar(name, t.tag));
            r.Got? && r.at == p + |Bytes(t)| && ShowsVar(r.value, Binding(name, v))
  {
    hide Bytes, Here, FieldLength, Int, BigInt, Ip, Number, IsLength;
    LengthReads(d, p, t);
    IntInverts(d, p + 1 + |t.len|, t.content);
  }

  lemma TextReads(d: seq<byte>, p: nat, t: Tlv, v: Val, name: seq<nat>)
    requires CarriesVal(t, v, false) && v.StrVal? && Here(d, p, Bytes(t))
    ensures var r := Value(d, p + 1, NewVar(name, t.tag));
            r.Got? && r.at == p + |Bytes(t)| && ShowsVar(r.value, Binding(name, v))
  {
    hide Bytes, Here, FieldLength, Str, IsLength, WidenAll;
    LengthReads(d, p, t);
    StrInvertsIff(d, p + 1 + |t.len|, t.content);
    assert WidenAll(t.content) == v.s;
  }

  lemma OidValReads(d: seq<byte>, p: nat, t: Tlv, v: Val, name: seq<nat>)
    requires CarriesVal(t, v, false) && v.OidVal? && Here(d, p, Bytes(t))
    ensures var r := Value(d, p + 1, NewVar(name, t.tag));
            r.Got? && r.at == p + |Bytes(t)| && ShowsVar(r.value, Binding(name, v))
  {
    hide Bytes, Here, FieldLength, OidArcs, IsLength, EncodeOid;
    LengthReads(d, p, t);
    OidContent(d, p + 1 + |t.len|, v.arcs);
  }

  lemma NullReads(d: seq<byte>, p: nat, t: Tlv, name: seq<nat>)
    requires Sound(t, SNMP_TYPE_NULL) && t.content == [] && Here(d, p, Bytes(t))
    ensures var r := Value(d, p + 1, NewVar(name, t.tag));
            && r == Got(NewVar(name, t.tag), p + 2)
            && if |t.len| > 1 then p + 2 < |d| && d[p + 2] == 0 else p + 2 == p + |Bytes(t)|
  {
    if |t.len| > 1 {
      LeadingZero(t.len[1..]);
      assert Bytes(t)[2] == t.len[1] == 0;
      assert d[p..p + |Bytes(t)|][2] == d[p + 2];
    }
  }

  /** Every value comes back; the cursor is behind it, unless it is a null with a long length form: then
      it is on one of that form's zeros. */
  lemma ValReads(d: seq<byte>, p: nat, t: Tlv, v: Val, name: seq<nat>)
    requires CarriesVal(t, v, false) && Here(d, p, Bytes(t))
    ensures p < |d| && d[p] == t.tag
    ensures var r := Value(d, p + 1, NewVar(name, t.tag));
            && r.Got? && ShowsVar(r.value, Binding(name, v))
            && if t.tag == SNMP_TYPE_NULL && |t.len| > 1 then r.at < |d| && d[r.at] == 0 else r.at == p + |Bytes(t)|
  {
    HereFirst(d, p, Bytes(t));
    match v
    case IntVal(_) => NumberReads(d, p, t, v, name);
    case TimeVal(_) => NumberReads(d, p, t, v, name);
    case IpVal(_) => NumberReads(d, p, t, v, name);
    case StrVal(_) => TextReads(d, p, t, v, name);
    case OidVal(_) => OidValReads(d, p, t, v, name);
    case NullVal => NullReads(d, p, t, name);
  }

  lemma VarReads(d: seq<byte>, p: nat, w: WireVar, b: Binding, rest: seq<byte>)
    requires CarriesVar(w, b, false) && Here(d, p, VarBytes(w) + rest)
    ensures var r := Var(d, p);
            && r.Got? && ShowsVar(r.value, b)
            && if LongNull(w) then r.at < |d| && d[r.at] == 0 else r.at == p + |VarBytes(w)|
    ensures p < |d| && d[p] == SNMP_TYPE_SEQ && Here(d, p + |VarBytes(w)|, rest)
  {
    hide Value, OidField, CarriesVal, Shown, Header, SeqHead, Bytes, Here, IsLengthForm, CarriesOid;
    HereConcat(d, p, VarBytes(w), rest);
    SeqReads(d, p, w.len, Bytes(w.name) + Bytes(w.value));
    var q := p + |SeqHead(w.len)|;
    OidReads(d, q, w.name, b.name, Bytes(w.value));
    ValReads(d, q + |Bytes(w.name)|, w.value, b.val, b.name);
  }

  /** The loop reads the bindings in order, up to a null value with a long length form; there it stops as
      if the list were over. */
  lemma {:induction false} VarsRead(d: seq<byte>, p: nat, ws: seq<WireVar>, bs: seq<Binding>, before: seq<TrapVar>, bs0: seq<Binding>)
    requires CarriesVars(ws, bs, false) && Here(d, p, VarsBytes(ws)) && p + |VarsBytes(ws)| == |d| && ShowsVars(before, bs0)
    ensures var r, n := Vars(d, p, |d|, before), FirstLongNull(ws);
            if n == |ws| then r.Got? && r.at == |d| && ShowsVars(r.value, bs0 + bs)
            else r.Got? && r.at < |d| && ShowsVars(r.value, bs0 + bs[..n + 1])
    decreases |ws|
  {
    hide Var, CarriesVar, ShowsVar, LongNull, VarBytes, Here;
    if ws == [] {
      assert bs0 + bs == bs0;
    } else {
      VarReads(d, p, ws[0], bs[0], VarsBytes(ws[1..]));
      var r := Var(d, p);
      assert bs0 + [bs[0]] + bs[1..] == bs0 + bs;
      if LongNull(ws[0]) {
        assert Vars(d, r.at, |d|, before + [r.value]) == Got(before + [r.value], r.at);
        assert bs[..1] == [bs[0]];
      } else {
        VarsRead(d, r.at, ws[1..], bs[1..], before + [r.value], bs0 + [bs[0]]);
        var n := FirstLongNull(ws[1..]);
        if n < |ws[1..]| {
          assert bs0 + [bs[0]] + bs[1..][..n + 1] == bs0 + bs[..n + 2];
        }
      }
    }
  }

  /** A boolean written 01 01 b is read one octet late: the octet behind it is taken for its value, and the
      cursor goes behind that. */
  lemma BoolReadsLate(d: seq<byte>, p: nat, b: byte, name: seq<nat>)
    requires Here(d, p, [SNMP_TYPE_BOOL, 1, b])
    ensures var v := NewVar(name, SNMP_TYPE_BOOL);
            Value(d, p + 1, v) == if p + 3 == |d| then Undefined else Got(v.(bVal := d[p + 3] != 0), p + 4)
  {
    var bs := [SNMP_TYPE_BOOL, 1, b];
    assert d[p..p + 3][1] == bs[1];
    hide NewVar;
    assert FieldLength(d, p + 1) == Got(1, p + 2);
  }

  // ---- Reading a message ----

  /** The second half of a v2 body, from the name of the time stamp on. */
  function V2Second(w: WirePdu, rest: seq<byte>): seq<byte>
    requires w.WireV2?
  {
    Bytes(w.timeName) + (Bytes(w.time) + (SeqHead(w.oidLen) + (Bytes(w.oidName) + (Bytes(w.trapOid) + rest))))
  }

  lemma V2SecondReads(d: seq<byte>, p5: nat, w: WirePdu, m: Pdu, rest: seq<byte>)
    returns (p6: nat, p7: nat, p8: nat, p9: nat, p10: nat)
    requires w.WireV2? && CarriesPdu(w, m, false) && Here(d, p5, V2Second(w, rest))
    ensures OidField(d, p5) == Got(m.timeName, p6)
    ensures TimeField(d, p6) == Got(m.time, p7)
    ensures Header(d, p7, SNMP_TYPE_SEQ).Got? && Header(d, p7, SNMP_TYPE_SEQ).at == p8
    ensures OidField(d, p8) == Got(m.oidName, p9)
    ensures OidField(d, p9) == Got(m.trapOid, p10)
    ensures p5 <= p10 && Here(d, p10, rest) && p10 + |rest| == p5 + |V2Second(w, rest)|
  {
    hide Bytes, SeqHead, Here, IntField, OidField, TimeField, Header, CarriesNumber, CarriesOid, IsLengthForm;
    var b9 := Bytes(w.trapOid) + rest;
    var b8 := Bytes(w.oidName) + b9;
    var b7 := SeqHead(w.oidLen) + b8;
    var b6 := Bytes(w.time) + b7;
    OidReads(d, p5, w.timeName, m.timeName, b6);
    p6 := p5 + |Bytes(w.timeName)|;
    TimeReads(d, p6, w.time, m.time, b7);
    p7 := p6 + |Bytes(w.time)|;
    SeqReads(d, p7, w.oidLen, b8);
    p8 := p7 + |SeqHead(w.oidLen)|;
    OidReads(d, p8, w.oidName, m.oidName, b9);
    p9 := p8 + |Bytes(w.oidName)|;
    OidReads(d, p9, w.trapOid, m.trapOid, rest);
    p10 := p9 + |Bytes(w.trapOid)|;
  }

  lemma V2FirstReads(d: seq<byte>, p: nat, w: WirePdu, m: Pdu, rest: seq<byte>)
    returns (p1: nat, p2: nat, p3: nat, p4: nat, p5: nat)
    requires w.WireV2? && CarriesPdu(w, m, false) && Here(d, p, PduBytes(w, rest))
    ensures IntField(d, p) == Got(m.requestId, p1)
    ensures IntField(d, p1) == Got(m.error, p2)
    ensures IntField(d, p2) == Got(m.errorIndex, p3)
    ensures Header(d, p3, SNMP_TYPE_SEQ).Got? && Header(d, p3, SNMP_TYPE_SEQ).at == p4
    ensures Header(d, p4, SNMP_TYPE_SEQ).Got? && Header(d, p4, SNMP_TYPE_SEQ).at == p5
    ensures p <= p5 && Here(d, p5, V2Second(w, rest)) && p5 + |V2Second(w, rest)| == p + |PduBytes(w, rest)|
  {
    hide Bytes, SeqHead, Here, IntField, OidField, TimeField, Header, CarriesNumber, CarriesOid, IsLengthForm;
    var b5 := V2Second(w, rest);
    var b4 := SeqHead(w.timeLen) + b5;
    var b3 := SeqHead(w.listLen) + b4;
    var b2 := Bytes(w.errorIndex) + b3;
    var b1 := Bytes(w.error) + b2;
    assert PduBytes(w, rest) == Bytes(w.requestId) + b1;
    hide V2Second, PduBytes;
    IntReads(d, p, w.requestId, m.requestId, b1);
    p1 := p + |Bytes(w.requestId)|;
    IntReads(d, p1, w.error, m.error, b2);
    p2 := p1 + |Bytes(w.error)|;
    IntReads(d, p2, w.errorIndex, m.errorIndex, b3);
    p3 := p2 + |Bytes(w.errorIndex)|;
    SeqReads(d, p3, w.listLen, b4);
    p4 := p3 + |SeqHead(w.listLen)|;
    SeqReads(d, p4, w.timeLen, b5);
    p5 := p4 + |SeqHead(w.timeLen)|;
  }

  lemma V2Reads(d: seq<byte>, p: nat, w: WirePdu, m: Pdu, rest: seq<byte>)
    requires w.WireV2? && CarriesPdu(w, m, false) && Here(d, p, PduBytes(w, rest))
    ensures var r := V2Body(d, p);
            r.Got? && ShowsBody(r.value, m) && p <= r.at && r.at + |rest| == p + |PduBytes(w, rest)| && Here(d, r.at, rest)
  {
    CarriesV2(w, m);
    hide PduBytes, V2Second, Here, IntField, OidField, TimeField, Header, CarriesPdu, V2Numbers, V2Identity;
    var p1, p2, p3, p4, p5 := V2FirstReads(d, p, w, m, rest);
    V2NumbersOf(d, p, p1, p2);
    var p6, p7, p8, p9, p10 := V2SecondReads(d, p5, w, m, rest);
    V2IdentityOf(d, p3, p4, p5, p6, p7, p8, p9);
  }

  lemma V2NumbersOf(d: seq<byte>, p: nat, p1: nat, p2: nat)
    requires IntField(d, p).Got? && IntField(d, p).at == p1 && IntField(d, p1).Got? && IntField(d, p1).at == p2 && IntField(d, p2).Got?
    ensures V2Numbers(d, p)
         == Got((IntField(d, p).value, IntField(d, p1).value, IntField(d, p2).value), IntField(d, p2).at)
  {
    hide IntField;
  }

  lemma V2IdentityOf(d: seq<byte>, p3: nat, p4: nat, p5: nat, p6: nat, p7: nat, p8: nat, p9: nat)
    requires Header(d, p3, SNMP_TYPE_SEQ).Got? && Header(d, p3, SNMP_TYPE_SEQ).at == p4
    requires Header(d, p4, SNMP_TYPE_SEQ).Got? && Header(d, p4, SNMP_TYPE_SEQ).at == p5
    requires OidField(d, p5).Got? && OidField(d, p5).at == p6 && TimeField(d, p6).Got? && TimeField(d, p6).at == p7
    requires Header(d, p7, SNMP_TYPE_SEQ).Got? && Header(d, p7, SNMP_TYPE_SEQ).at == p8
    requires OidField(d, p8).Got? && OidField(d, p8).at == p9 && OidField(d, p9).Got?
    ensures V2Identity(d, p3) == Got((TimeField(d, p6).value, OidField(d, p9).value), OidField(d, p9).at)
  {
    hide Header, OidField, TimeField;
  }

  lemma CarriesV2(w: WirePdu, m: Pdu)
    requires w.WireV2? && CarriesPdu(w, m, false)
    ensures m.V2?
  {
  }

  /** The second half of a v1 body, from the time stamp on. */
  function V1Second(w: WirePdu, rest: seq<byte>): seq<byte>
    requires w.WireV1?
  {
    Bytes(w.time) + (SeqHead(w.listLen) + rest)
  }

  /** The middle of a v1 body: the generic and the specific code, and what follows. */
  function V1Codes(w: WirePdu, rest: seq<byte>): seq<byte>
    requires w.WireV1?
  {
    Bytes(w.generic) + (Bytes(w.specific) + V1Second(w, rest))
  }

  lemma OuterV1(w: WirePdu, m: Pdu, rest: seq<byte>)
    requires w.WireV1? && CarriesPdu(w, m, false)
    ensures PduBytes(w, rest) == Bytes(w.enterprise) + (Bytes(w.ip) + V1Codes(w, rest))
    ensures m.V1? && CarriesOid(w.enterprise, m.enterprise)
    ensures CarriesNumber(w.ip, SNMP_TYPE_IPADDR, m.ip, 4, false) && |w.ip.content| == 4
  {
    hide Bytes, SeqHead, CarriesOid, CarriesNumber, IsLengthForm;
  }

  lemma V1FirstReads(d: seq<byte>, p: nat, w: WirePdu, m: Pdu, rest: seq<byte>) returns (p1: nat)
    requires w.WireV1? && CarriesPdu(w, m, false) && Here(d, p, PduBytes(w, rest))
    ensures p <= p1 && OidField(d, p) == Got(m.enterprise, p1)
    ensures FixedHeader(d, p1, SNMP_TYPE_IPADDR, 4) == if |w.ip.len| == 1 then Got(4, p1 + 2) else Rejected
    ensures |w.ip.len| == 1 ==>
              && Ip(d, p1 + 2, 4) == Got(m.ip, p1 + 6)
              && Here(d, p1 + 6, V1Codes(w, rest)) && p1 + 6 + |V1Codes(w, rest)| == p + |PduBytes(w, rest)|
  {
    hide Bytes, SeqHead, Here, OidField, FixedHeader, CarriesOid, CarriesNumber, CarriesPdu, IsLengthForm, Ip, PduBytes, V1Codes;
    var b2 := V1Codes(w, rest);
    var b1 := Bytes(w.ip) + b2;
    OuterV1(w, m, rest);
    OidReads(d, p, w.enterprise, m.enterprise, b1);
    p1 := p + |Bytes(w.enterprise)|;
    AddressReads(d, p1, w.ip, m.ip, b2);
  }

  lemma V1CodesRead(d: seq<byte>, q: nat, w: WirePdu, m: Pdu, rest: seq<byte>) returns (p2: nat)
    requires w.WireV1? && CarriesPdu(w, m, false) && Here(d, q, V1Codes(w, rest))
    ensures FixedHeader(d, q, SNMP_TYPE_INT, 1) == if w.generic.len == [1] then Got(1, q + 2) else Rejected
    ensures w.generic.len == [1] ==>
              && Int(d, q + 2, 1) == Got(m.generic, q + 3) && IntField(d, q + 3) == Got(m.specific, p2)
              && q <= p2 && Here(d, p2, V1Second(w, rest)) && p2 + |V1Second(w, rest)| == q + |V1Codes(w, rest)|
  {
    hide Bytes, SeqHead, Here, IntField, FixedHeader, CarriesOid, CarriesNumber, IsLengthForm, Int, V1Second;
    var b2 := V1Second(w, rest);
    var b1 := Bytes(w.specific) + b2;
    GenericReads(d, q, w.generic, m.generic, b1);
    p2 := q + 3 + |Bytes(w.specific)|;
    if w.generic.len == [1] {
      IntReads(d, q + 3, w.specific, m.specific, b2);
    }
  }

  lemma V1IdentityReads(d: seq<byte>, p: nat, w: WirePdu, m: Pdu, rest: seq<byte>)
    requires w.WireV1? && m.V1? && CarriesPdu(w, m, false) && Here(d, p, PduBytes(w, rest))
    ensures var r := V1Identity(d, p);
            if PlainPdu(w) then
              && r.Got? && r.value == (m.enterprise + GenericArcs(m.generic, m.specific), m.ip) && p <= r.at
              && Here(d, r.at, V1Second(w, rest)) && r.at + |V1Second(w, rest)| == p + |PduBytes(w, rest)|
            else r.Rejected?
  {
    hide PduBytes, V1Second, V1Codes, Here, IntField, OidField, FixedHeader, Ip, Int, CarriesPdu, GenericArcs;
    var p1 := V1FirstReads(d, p, w, m, rest);
    if |w.ip.len| == 1 {
      var p2 := V1CodesRead(d, p1 + 6, w, m, rest);
    }
  }

  lemma AddressReads(d: seq<byte>, p: nat, t: Tlv, ip: nat, rest: seq<byte>)
    requires CarriesNumber(t, SNMP_TYPE_IPADDR, ip, 4, false) && |t.content| == 4 && Here(d, p, Bytes(t) + rest)
    ensures FixedHeader(d, p, SNMP_TYPE_IPADDR, 4) == if |t.len| == 1 then Got(4, p + 2) else Rejected
    ensures |t.len| == 1 ==> Ip(d, p + 2, 4) == Got(ip, p + 6) && Here(d, p + 6, rest) && |Bytes(t)| == 6
  {
    assert |t.len| == 1 <==> t.len == [4];
    hide Bytes, Here, FixedHeader, IsLength, Int, Ip, BigInt, Number;
    FixedReads(d, p, t, SNMP_TYPE_IPADDR, 4, rest);
    if |t.len| == 1 {
      IntInverts(d, p + 2, t.content);
    }
  }

  lemma GenericReads(d: seq<byte>, p: nat, t: Tlv, generic: int, rest: seq<byte>)
    requires CarriesNumber(t, SNMP_TYPE_INT, generic, 4, false) && Here(d, p, Bytes(t) + rest)
    ensures FixedHeader(d, p, SNMP_TYPE_INT, 1) == if t.len == [1] then Got(1, p + 2) else Rejected
    ensures t.len == [1] ==> Int(d, p + 2, 1) == Got(generic, p + 3) && Here(d, p + 3, rest) && |Bytes(t)| == 3
  {
    hide Bytes, Here, FixedHeader, IsLength, Int, Ip, BigInt, Number;
    FixedReads(d, p, t, SNMP_TYPE_INT, 1, rest);
    if t.len == [1] {
      IntInverts(d, p + 2, t.content);
    }
  }

  lemma V1SecondReads(d: seq<byte>, p2: nat, w: WirePdu, m: Pdu, rest: seq<byte>)
    returns (p3: nat, p4: nat)
    requires w.WireV1? && CarriesPdu(w, m, false) && Here(d, p2, V1Second(w, rest))
    ensures TimeField(d, p2) == Got(m.time, p3)
    ensures Header(d, p3, SNMP_TYPE_SEQ).Got? && Header(d, p3, SNMP_TYPE_SEQ).at == p4
    ensures p2 <= p4 && Here(d, p4, rest) && p4 + |rest| == p2 + |V1Second(w, rest)|
  {
    hide Bytes, SeqHead, Here, TimeField, Header, CarriesNumber, CarriesOid, IsLengthForm;
    TimeReads(d, p2, w.time, m.time, SeqHead(w.listLen) + rest);
    p3 := p2 + |Bytes(w.time)|;
    SeqReads(d, p3, w.listLen, rest);
    p4 := p3 + |SeqHead(w.listLen)|;
  }

  /** The v1 branch inverts the encoding if the address and the generic code have the lengths that the
      code compares with; otherwise it rejects the packet. */
  lemma V1Reads(d: seq<byte>, p: nat, w: WirePdu, m: Pdu, rest: seq<byte>)
    requires w.WireV1? && CarriesPdu(w, m, false) && Here(d, p, PduBytes(w, rest))
    ensures var r := V1Body(d, p);
            if PlainPdu(w) then
              r.Got? && ShowsBody(r.value, m) && p <= r.at && r.at + |rest| == p + |PduBytes(w, rest)| && Here(d, r.at, rest)
            else r.Rejected?
  {
    CarriesV1(w, m);
    hide PduBytes, V1Second, Here, V1Identity, TimeField, Header, CarriesPdu, PlainPdu;
    V1IdentityReads(d, p, w, m, rest);
    if PlainPdu(w) {
      var p3, p4 := V1SecondReads(d, V1Identity(d, p).at, w, m, rest);
    }
  }

  lemma CarriesV1(w: WirePdu, m: Pdu)
    requires w.WireV1? && CarriesPdu(w, m, false)
    ensures m.V1?
  {
  }

  lemma OneOctet(b: byte)
    ensures Number([b]) == b
  {
    FoldSnoc(0, [], b);
    assert [] + [b] == [b];
  }

  lemma EnvelopeReads(d: seq<byte>, w: Wire, m: Message)
    requires Carries(w, m, false) && d == WireBytes(w)
    ensures var p := |SeqHead(w.len)| + |Bytes(w.version)| + |Bytes(w.community)|;
            && Envelope(d, |d|).Got? && Envelope(d, |d|).at == p
            && Envelope(d, |d|).value.0 == m.version && Envelope(d, |d|).value.1 == m.community
            && Here(d, p, RequestBytes(w)) && p + |RequestBytes(w)| == |d|
  {
    hide Bytes, SeqHead, RequestBytes, Int, Str, Ascii, IsLength, Header, Here, Number, CarriesPdu, CarriesVars, IsLengthForm,
         RequestTag, Envelope;
    var b1 := Bytes(w.community) + RequestBytes(w);
    WholeReads(d, w.len, InnerBytes(w));
    var p1 := |SeqHead(w.len)|;
    TlvReads(d, p1, w.version, SNMP_TYPE_INT, b1);
    IntInverts(d, p1 + 1 + |w.version.len|, w.version.content);
    var p2 := p1 + |Bytes(w.version)|;
    TlvReads(d, p2, w.community, SNMP_TYPE_STR, RequestBytes(w));
    TextInverts(d, p2 + 1 + |w.community.len|, w.community.content);
    EnvelopeOf(d, |InnerBytes(w)|, p1, |w.version.content|, p1 + 1 + |w.version.len|, m.version, p2, |m.community|,
               p2 + 1 + |w.community.len|, m.community);
  }

  /** The envelope, put together from its parts. */
  lemma EnvelopeOf(d: seq<byte>, n: nat, p1: nat, n1: nat, q1: nat, version: nat, p2: nat, n2: nat, q2: nat, community: seq<byte>)
    requires Header(d, 0, SNMP_TYPE_SEQ) == Got(n, p1) && n == |d| - p1
    requires Header(d, p1, SNMP_TYPE_INT) == Got(n1, q1) && n1 <= 4
    requires Int(d, q1, n1) == Got(version, p2)
    requires Header(d, p2, SNMP_TYPE_STR) == Got(n2, q2)
    requires Str(d, q2, n2).Got? && Str(d, q2, n2).value == community
    ensures var r := Envelope(d, |d|);
            r.Got? && r.value.0 == version && r.value.1 == community && r.at == Str(d, q2, n2).at
  {
    hide Header, Int, Str;
  }

  lemma WholeReads(d: seq<byte>, len: seq<byte>, inner: seq<byte>)
    requires IsLength(len, |inner|) && |inner| < WORD32 && d == SeqHead(len) + inner
    ensures Header(d, 0, SNMP_TYPE_SEQ) == Got(|inner|, |SeqHead(len)|) && Here(d, |SeqHead(len)|, inner)
    ensures |inner| == |d| - |SeqHead(len)|
  {
    assert d[0..|d|] == d;
    FormReads(d, 0, SNMP_TYPE_SEQ, len, inner);
  }

  lemma TextInverts(d: seq<byte>, p: nat, s: seq<byte>)
    requires Here(d, p, s) && |s| + 1 < WORD32 && Ascii(s)
    ensures Str(d, p, |s|).Got? && Str(d, p, |s|).value == s && Str(d, p, |s|).at == p + |s|
  {
    StrInvertsIff(d, p, s);
  }

  lemma RequestReads(d: seq<byte>, p: nat, w: Wire, m: Message)
    requires Carries(w, m, false) && Here(d, p, RequestBytes(w))
    ensures var r := Request(d, p);
            && r.Got? && r.value == w.tag && p <= r.at
            && Here(d, r.at, PduBytes(w.pdu, VarsBytes(w.vars)))
            && r.at + |PduBytes(w.pdu, VarsBytes(w.vars))| == p + |RequestBytes(w)|
  {
    hide PduBytes, VarsBytes;
    var b := PduBytes(w.pdu, VarsBytes(w.vars));
    assert RequestBytes(w) == ([w.tag] + w.pduLen) + b;
    HereFirst(d, p, RequestBytes(w));
    FormReads(d, p, w.tag, w.pduLen, b);
  }

  /** What `Decode` makes of an encoding is the message: the whole packet is read, the fields hold what the
      message says, all bindings in order, and the request's tag is found again. */
  predicate Inverted(w: Wire, m: Message) {
    var d := WireBytes(w);
    var r := Decode(d, |d|);
    && r.Got? && r.at == |d| && Shows(r.value, m)
    && r.value.reqType < |d| && d[r.value.reqType] == RequestTag(m.pdu)
  }

  // Numbers with and without their signs

  /** What the octets of a value stand for if their sign is disregarded. */
  function UnsignedVal(t: Tlv, v: Val): Val {
    match v
    case IntVal(_) => IntVal(Number(t.content))
    case TimeVal(_) => TimeVal(Number(t.content))
    case _ => v
  }

  function UnsignedVars(ws: seq<WireVar>, bs: seq<Binding>): (us: seq<Binding>)
    requires |ws| == |bs|
    ensures |us| == |bs|
  {
    seq(|bs|, i requires 0 <= i < |bs| => bs[i].(val := UnsignedVal(ws[i].value, bs[i].val)))
  }

  function UnsignedPdu(w: WirePdu, m: Pdu): Pdu
    requires w.WireV1? <==> m.V1?
  {
    if w.WireV1? then
      m.(generic := Number(w.generic.content), specific := Number(w.specific.content), time := Number(w.time.content))
    else
      m.(requestId := Number(w.requestId.content), error := Number(w.error.content), errorIndex := Number(w.errorIndex.content),
         time := Number(w.time.content))
  }

  function Unsigned(w: Wire, m: Message): Message
    requires |w.vars| == |m.bindings| && (w.pdu.WireV1? <==> m.pdu.V1?)
  {
    Message(Number(w.version.content), m.community, UnsignedPdu(w.pdu, m.pdu), UnsignedVars(w.vars, m.bindings))
  }

  predicate ValNotNegative(v: Val) { (v.IntVal? ==> v.n >= 0) && (v.TimeVal? ==> v.n >= 0) }

  /** The specific code of a v1 trap is looked at for generic trap 6 only. */
  predicate PduNotNegative(m: Pdu) {
    match m
    case V1(_, _, generic, specific, time) => generic >= 0 && (generic == 6 ==> specific >= 0) && time >= 0
    case V2(_, requestId, error, errorIndex, _, time, _, _) => requestId >= 0 && error >= 0 && errorIndex >= 0 && time >= 0
  }

  predicate NotNegative(m: Message) {
    m.version >= 0 && PduNotNegative(m.pdu) && forall i :: 0 <= i < |m.bindings| ==> ValNotNegative(m.bindings[i].val)
  }

  lemma SignDropped(w: Wire, m: Message)
    requires Carries(w, m, true)
    ensures |w.vars| == |m.bindings| && (w.pdu.WireV1? <==> m.pdu.V1?) && Carries(w, Unsigned(w, m), false)
  {
    hide Number, TwosComplement, Sound, CarriesOid, CarriesText, IsLength, IsLengthForm, InnerBytes;
    forall i | 0 <= i < |w.vars| ensures CarriesVar(w.vars[i], Unsigned(w, m).bindings[i], false) {
      assert CarriesVar(w.vars[i], m.bindings[i], true);
    }
  }

  /** A number comes back exactly if it is not negative; a negative one becomes 128 or more. */
  lemma NumberSame(t: Tlv, tag: byte, n: int, most: nat)
    requires CarriesNumber(t, tag, n, most, true)
    ensures Number(t.content) == n <==> n >= 0
    ensures n < 0 ==> Number(t.content) >= 0x80
  {
    FirstBitIsSign(t.content);
    hide Number;
  }

  lemma ValSame(t: Tlv, v: Val)
    requires CarriesVal(t, v, true)
    ensures UnsignedVal(t, v) == v <==> ValNotNegative(v)
  {
    hide Number, CarriesNumber;
    match v
    case IntVal(n) => NumberSame(t, SNMP_TYPE_INT, n, 8);
    case TimeVal(n) => NumberSame(t, SNMP_TYPE_TIME, n, 8);
    case _ =>
  }

  lemma VarsSame(vs: seq<TrapVar>, ws: seq<WireVar>, bs: seq<Binding>)
    requires CarriesVars(ws, bs, true) && ShowsVars(vs, UnsignedVars(ws, bs))
    ensures ShowsVars(vs, bs) <==> forall i :: 0 <= i < |bs| ==> ValNotNegative(bs[i].val)
  {
    hide CarriesVal, UnsignedVal, ValNotNegative, Shown, CarriesOid;
    forall i | 0 <= i < |bs| ensures ShowsVar(vs[i], bs[i]) <==> ValNotNegative(bs[i].val) {
      assert CarriesVar(ws[i], bs[i], true);
      assert ShowsVar(vs[i], UnsignedVars(ws, bs)[i]);
      ValSame(ws[i].value, bs[i].val);
    }
  }

  lemma IdentitySame(enterprise: seq<nat>, g: int, s: int, g': nat, s': nat)
    requires (g' == g <==> g >= 0) && (g < 0 ==> g' >= 0x80) && (s' == s <==> s >= 0)
    ensures enterprise + IdentityArcs(g', s') == enterprise + IdentityArcs(g, s) <==> g >= 0 && (g == 6 ==> s >= 0)
  {
    var a, b: seq<int>, e: seq<int> := IdentityArcs(g', s'), IdentityArcs(g, s), enterprise;
    if e + a == e + b {
      assert a == (e + a)[|e|..] && b == (e + b)[|e|..];
      assert a == b && a[0] == b[0];
    }
  }

  lemma PduSame(b: Body, w: WirePdu, m: Pdu)
    requires (w.WireV1? <==> m.V1?) && CarriesPdu(w, m, true) && ShowsBody(b, UnsignedPdu(w, m))
    ensures ShowsBody(b, m) <==> PduNotNegative(m)
  {
    hide Number, CarriesNumber, CarriesOid, IsLengthForm, IdentityArcs;
    if w.WireV1? {
      NumberSame(w.generic, SNMP_TYPE_INT, m.generic, 4);
      NumberSame(w.specific, SNMP_TYPE_INT, m.specific, 4);
      NumberSame(w.time, SNMP_TYPE_TIME, m.time, 8);
      IdentitySame(m.enterprise, m.generic, m.specific, Number(w.generic.content), Number(w.specific.content));
    } else {
      NumberSame(w.requestId, SNMP_TYPE_INT, m.requestId, 4);
      NumberSame(w.error, SNMP_TYPE_INT, m.error, 4);
      NumberSame(w.errorIndex, SNMP_TYPE_INT, m.errorIndex, 4);
      NumberSame(w.time, SNMP_TYPE_TIME, m.time, 8);
    }
  }

  lemma ShowsSame(t: Trap, w: Wire, m: Message)
    requires Carries(w, m, true) && |w.vars| == |m.bindings| && (w.pdu.WireV1? <==> m.pdu.V1?) && Shows(t, Unsigned(w, m))
    ensures Shows(t, m) <==> NotNegative(m)
  {
    hide Number, CarriesNumber, CarriesPdu, CarriesVars, CarriesText, IsLength, IsLengthForm, ShowsVars, ShowsBody, PduNotNegative,
         UnsignedPdu, UnsignedVars, InnerBytes;
    UnsignedTag(w.pdu, m.pdu);
    NumberSame(w.version, SNMP_TYPE_INT, m.version, 4);
    PduSame(t.body, w.pdu, m.pdu);
    VarsSame(t.vars, w.vars, m.bindings);
  }

  lemma UnsignedTag(w: WirePdu, m: Pdu)
    requires w.WireV1? <==> m.V1?
    ensures RequestTag(UnsignedPdu(w, m)) == RequestTag(m)
  {
  }

  /** Decoding inverts an encoding if and only if
      - the length of a v1 trap's address, and of every null value, is written in one octet;
      - the generic code of a v1 trap is written with one octet of length and one of content;
      - no number that the code keeps is negative.
      Everywhere else any definite length form and any leading octets will do.  A v1 trap that breaks the
      first or the second condition is rejected.  A null value that breaks the first ends the list of
      bindings: `Decode` accepts the packet and drops the later ones.  Numbers are taken without signs. */
  lemma DecodeInverts(w: Wire, m: Message)
    requires Carries(w, m, true)
    ensures |w.vars| == |m.bindings| && (w.pdu.WireV1? <==> m.pdu.V1?)
    ensures Inverted(w, m) <==>
              PlainPdu(w.pdu) && (forall i :: 0 <= i < |w.vars| ==> !LongNull(w.vars[i])) && NotNegative(m)
    ensures var d, n, u := WireBytes(w), FirstLongNull(w.vars), Unsigned(w, m);
            var r := Decode(d, |d|);
            && (!PlainPdu(w.pdu) ==> r.Rejected?)
            && (PlainPdu(w.pdu) && n == |w.vars| ==> r.Got? && r.at == |d| && Shows(r.value, u))
            && (PlainPdu(w.pdu) && n < |w.vars| ==> r.Got? && r.at < |d| && Shows(r.value, u.(bindings := u.bindings[..n + 1])))
  {
    hide WireBytes, Decode, Shows, Carries, PlainPdu, LongNull, NotNegative, RequestTag;
    SignDropped(w, m);
    var u, d := Unsigned(w, m), WireBytes(w);
    DecodeReads(w, u);
    SameTag(w, m);
    if PlainPdu(w.pdu) && FirstLongNull(w.vars) == |w.vars| {
      assert u.bindings[..|u.bindings|] == u.bindings;
      assert u.(bindings := u.bindings) == u;
      ShowsSame(Decode(d, |d|).value, w, m);
    }
  }

  lemma SameTag(w: Wire, m: Message)
    requires |w.vars| == |m.bindings| && (w.pdu.WireV1? <==> m.pdu.V1?)
    ensures RequestTag(Unsigned(w, m).pdu) == RequestTag(m.pdu)
  {
    UnsignedTag(w.pdu, m.pdu);
  }

  /** The message as far as `Decode` reads it, and where it stops. */
  lemma DecodeReads(w: Wire, m: Message)
    requires Carries(w, m, false)
    ensures |m.bindings| == |w.vars|
    ensures var d, n := WireBytes(w), FirstLongNull(w.vars);
            var r := Decode(d, |d|);
            if PlainPdu(w.pdu) then
              && r.Got? && (r.at == |d| <==> n == |w.vars|) && r.at <= |d|
              && Shows(r.value, m.(bindings := m.bindings[..if n == |w.vars| then n else n + 1]))
              && r.value.reqType < |d| && d[r.value.reqType] == RequestTag(m.pdu)
            else r.Rejected?
  {
    hide WireBytes, RequestBytes, PduBytes, VarsBytes, Envelope, Request, V1Body, V2Body, Vars, ShowsBody, PlainPdu, LongNull,
         CarriesPdu, CarriesVar, CarriesNumber, CarriesText, ShowsVar, Here;
    var d := WireBytes(w);
    EnvelopeReads(d, w, m);
    var p := Envelope(d, |d|).at;
    RequestReads(d, p, w, m);
    RequestTagAt(d, p, w);
    var q := Request(d, p).at;
    PduReads(d, q, w.pdu, m.pdu, VarsBytes(w.vars));
    if PlainPdu(w.pdu) {
      var body := if w.tag == SNMP_V1TRAP then V1Body(d, q) else V2Body(d, q);
      VarsRead(d, body.at, w.vars, m.bindings, [], []);
      var n := FirstLongNull(w.vars);
      var bs := m.bindings[..if n == |w.vars| then n else n + 1];
      assert [] + bs == bs && (n == |w.vars| ==> bs == m.bindings);
    }
  }

  lemma RequestTagAt(d: seq<byte>, p: nat, w: Wire)
    requires Here(d, p, RequestBytes(w))
    ensures p < |d| && d[p] == w.tag
  {
    HereFirst(d, p, RequestBytes(w));
  }

  lemma PduReads(d: seq<byte>, p: nat, w: WirePdu, m: Pdu, rest: seq<byte>)
    requires CarriesPdu(w, m, false) && Here(d, p, PduBytes(w, rest))
    ensures var r := if RequestTag(m) == SNMP_V1TRAP then V1Body(d, p) else V2Body(d, p);
            if PlainPdu(w) then
              r.Got? && ShowsBody(r.value, m) && p <= r.at && r.at + |rest| == p + |PduBytes(w, rest)| && Here(d, r.at, rest)
            else r.Rejected?
  {
    if w.WireV1? {
      V1Reads(d, p, w, m, rest);
    } else {
      V2Reads(d, p, w, m, rest);
    }
    hide V1Body, V2Body, PduBytes, Here, ShowsBody;
  }

  // ---- The shortest encoding ----

  function MakeTlv(tag: byte, content: seq<byte>): Tlv { Tlv(tag, EncodeLength(|content|), content) }

  function EncodeIp(n: nat): seq<byte>
    requires n < WORD32
  {
    [n / 0x100_0000, n / 0x1_0000 % 256, n / 0x100 % 256, n % 256]
  }

  lemma Base256(n: nat)
    requires n < WORD32
    ensures n / 0x100_0000 < 256
    ensures n / 0x1_0000 == n / 0x100_0000 * 256 + n / 0x1_0000 % 256
    ensures n / 0x100 == n / 0x1_0000 * 256 + n / 0x100 % 256
    ensures n == n / 0x100 * 256 + n % 256
  {
  }

  lemma IpEncoded(n: nat)
    requires n < WORD32
    ensures |EncodeIp(n)| == 4 && Number(EncodeIp(n)) == n
  {
    Base256(n);
    FourOctets(n / 0x100_0000, n / 0x1_0000 % 256, n / 0x100 % 256, n % 256);
    hide Number;
  }

  lemma FourOctets(a: byte, b: byte, c: byte, d: byte)
    ensures Number([a, b, c, d]) == ((a * 256 + b) * 256 + c) * 256 + d
  {
    hide Fold;
    assert [a, b, c, d] == [a] + [b] + [c] + [d];
    OneOctet(a);
    FoldSnoc(0, [a], b);
    FoldSnoc(0, [a] + [b], c);
    FoldSnoc(0, [a] + [b] + [c], d);
  }

  predicate Fits32(n: int) { -0x8000_0000 <= n < 0x8000_0000 }

  predicate Fits64(n: int) { -0x8000_0000_0000_0000 <= n < 0x8000_0000_0000_0000 }

  /** What a binding may hold: numbers that fit eight octets, ASCII text, identifiers under 1.3. */
  predicate EncodableVal(v: Val) {
    match v
    case IntVal(n) => Fits64(n)
    case TimeVal(n) => Fits64(n)
    case StrVal(s) => Ascii(s) && |s| + 1 < WORD32
    case NullVal => true
    case OidVal(arcs) => EncodableOid(arcs)
    case IpVal(n) => n < WORD32
  }

  predicate EncodableOid(arcs: seq<nat>) { Under13(arcs) && |EncodeOid(arcs)| + 1 < WORD32 }

  predicate EncodableVars(bs: seq<Binding>) {
    forall i :: 0 <= i < |bs| ==> EncodableOid(bs[i].name) && EncodableVal(bs[i].val)
  }

  predicate EncodablePdu(m: Pdu) {
    match m
    case V1(enterprise, ip, generic, specific, time) =>
      EncodableOid(enterprise) && ip < WORD32 && Fits32(generic) && Fits32(specific) && Fits64(time)
    case V2(_, requestId, error, errorIndex, timeName, time, oidName, trapOid) =>
      && Fits32(requestId) && Fits32(error) && Fits32(errorIndex) && Fits64(time)
      && EncodableOid(timeName) && EncodableOid(oidName) && EncodableOid(trapOid)
  }

  predicate Encodable(m: Message) {
    && Fits32(m.version) && Ascii(m.community) && |m.community| + 1 < WORD32
    && EncodablePdu(m.pdu) && EncodableVars(m.bindings)
    && |RequestBytes(Encode(m))| < WORD32 && |InnerBytes(Encode(m))| < WORD32
  }

  function EncodeVal(v: Val): Tlv
    requires EncodableVal(v)
  {
    match v
    case IntVal(n) => MakeTlv(SNMP_TYPE_INT, IntOctets(n))
    case TimeVal(n) => MakeTlv(SNMP_TYPE_TIME, IntOctets(n))
    case StrVal(s) => MakeTlv(SNMP_TYPE_STR, s)
    case NullVal => MakeTlv(SNMP_TYPE_NULL, [])
    case OidVal(arcs) => MakeTlv(SNMP_TYPE_OID, EncodeOid(arcs))
    case IpVal(n) => MakeTlv(SNMP_TYPE_IPADDR, EncodeIp(n))
  }

  function EncodeVar(b: Binding): WireVar
    requires EncodableOid(b.name) && EncodableVal(b.val)
  {
    var name, value := MakeTlv(SNMP_TYPE_OID, EncodeOid(b.name)), EncodeVal(b.val);
    WireVar(EncodeLength(|Bytes(name)| + |Bytes(value)|), name, value)
  }

  function EncodeVars(bs: seq<Binding>): (ws: seq<WireVar>)
    requires EncodableVars(bs)
    ensures |ws| == |bs|
  {
    seq(|bs|, i requires 0 <= i < |bs| => EncodeVar(bs[i]))
  }

  function EncodePdu(m: Pdu, vars: seq<WireVar>): WirePdu
    requires EncodablePdu(m)
  {
    match m
    case V1(enterprise, ip, generic, specific, time) =>
      WireV1(MakeTlv(SNMP_TYPE_OID, EncodeOid(enterprise)), MakeTlv(SNMP_TYPE_IPADDR, EncodeIp(ip)),
             MakeTlv(SNMP_TYPE_INT, IntOctets(generic)), MakeTlv(SNMP_TYPE_INT, IntOctets(specific)),
             MakeTlv(SNMP_TYPE_TIME, IntOctets(time)), EncodeLength(|VarsBytes(vars)|))
    case V2(_, requestId, error, errorIndex, timeName, time, oidName, trapOid) =>
      var tn, t := MakeTlv(SNMP_TYPE_OID, EncodeOid(timeName)), MakeTlv(SNMP_TYPE_TIME, IntOctets(time));
      var on, o := MakeTlv(SNMP_TYPE_OID, EncodeOid(oidName)), MakeTlv(SNMP_TYPE_OID, EncodeOid(trapOid));
      var timeLen, oidLen := EncodeLength(|Bytes(tn)| + |Bytes(t)|), EncodeLength(|Bytes(on)| + |Bytes(o)|);
      var list := |SeqHead(timeLen)| + |Bytes(tn)| + |Bytes(t)| + |SeqHead(oidLen)| + |Bytes(on)| + |Bytes(o)| + |VarsBytes(vars)|;
      WireV2(MakeTlv(SNMP_TYPE_INT, IntOctets(requestId)), MakeTlv(SNMP_TYPE_INT, IntOctets(error)),
             MakeTlv(SNMP_TYPE_INT, IntOctets(errorIndex)), EncodeLength(list), timeLen, tn, t, oidLen, on, o)
  }

  function Encode(m: Message): Wire
    requires EncodablePdu(m.pdu) && EncodableVars(m.bindings)
  {
    var vars := EncodeVars(m.bindings);
    var pdu := EncodePdu(m.pdu, vars);
    var w := Wire([], MakeTlv(SNMP_TYPE_INT, IntOctets(m.version)), MakeTlv(SNMP_TYPE_STR, m.community), RequestTag(m.pdu),
                  EncodeLength(|PduBytes(pdu, VarsBytes(vars))|), pdu, vars);
    w.(len := EncodeLength(|InnerBytes(w)|))
  }

  lemma TlvEncoded(tag: byte, content: seq<byte>)
    requires |content| + 1 < WORD32
    ensures Sound(MakeTlv(tag, content), tag)
  {
    LengthEncoded(|content|);
  }

  lemma NumberEncoded(tag: byte, n: int)
    requires Fits64(n)
    ensures CarriesNumber(MakeTlv(tag, IntOctets(n)), tag, n, 8, true)
    ensures Fits32(n) ==> CarriesNumber(MakeTlv(tag, IntOctets(n)), tag, n, 4, true)
  {
    Pow256UpTo(0);
    hide Pow256, IntOctets, Number, TwosComplement;
    IntEncoded(n);
    IntOctetsCount(n, 8);
    if Fits32(n) {
      IntOctetsCount(n, 4);
    }
    TlvEncoded(tag, IntOctets(n));
  }

  lemma OidEncoded(arcs: seq<nat>)
    requires EncodableOid(arcs)
    ensures CarriesOid(MakeTlv(SNMP_TYPE_OID, EncodeOid(arcs)), arcs)
  {
    TlvEncoded(SNMP_TYPE_OID, EncodeOid(arcs));
  }

  lemma ValEncoded(v: Val)
    requires EncodableVal(v)
    ensures CarriesVal(EncodeVal(v), v, true)
  {
    hide EncodeOid, CarriesOid, IntOctets, EncodeIp, Number, TwosComplement;
    match v
    case IntVal(n) => NumberEncoded(SNMP_TYPE_INT, n);
    case TimeVal(n) => NumberEncoded(SNMP_TYPE_TIME, n);
    case StrVal(s) => TlvEncoded(SNMP_TYPE_STR, s);
    case NullVal => TlvEncoded(SNMP_TYPE_NULL, []);
    case OidVal(arcs) => OidEncoded(arcs);
    case IpVal(n) =>
      IpEncoded(n);
      TlvEncoded(SNMP_TYPE_IPADDR, EncodeIp(n));
  }

  /** The shortest definite form of any length that the packet has room for. */
  lemma FormEncoded(n: nat)
    requires n < WORD32
    ensures IsLengthForm(EncodeLength(n)) && IsLength(EncodeLength(n), n)
  {
    LengthEncoded(n);
  }

  lemma VarsEncoded(bs: seq<Binding>)
    requires EncodableVars(bs) && |VarsBytes(EncodeVars(bs))| < WORD32
    ensures CarriesVars(EncodeVars(bs), bs, true)
    ensures var ws := EncodeVars(bs); forall i :: 0 <= i < |ws| ==> IsLength(ws[i].len, |Bytes(ws[i].name)| + |Bytes(ws[i].value)|)
  {
    forall i | 0 <= i < |bs|
      ensures CarriesVar(EncodeVars(bs)[i], bs[i], true)
      ensures var w := EncodeVars(bs)[i]; IsLength(w.len, |Bytes(w.name)| + |Bytes(w.value)|)
    {
      VarAmong(EncodeVars(bs), i);
      OidEncoded(bs[i].name);
      ValEncoded(bs[i].val);
      FormEncoded(|Bytes(EncodeVars(bs)[i].name)| + |Bytes(EncodeVars(bs)[i].value)|);
    }
  }

  lemma {:induction false} VarAmong(ws: seq<WireVar>, i: nat)
    requires i < |ws|
    ensures |Bytes(ws[i].name)| + |Bytes(ws[i].value)| <= |VarsBytes(ws)|
    decreases i
  {
    if i == 0 {
    } else {
      VarAmong(ws[1..], i - 1);
    }
  }

  lemma PduEncoded(m: Pdu, vars: seq<WireVar>)
    requires EncodablePdu(m) && |PduBytes(EncodePdu(m, vars), VarsBytes(vars))| < WORD32
    ensures CarriesPdu(EncodePdu(m, vars), m, true) && PduLengths(EncodePdu(m, vars), |VarsBytes(vars)|)
  {
    hide EncodeOid, CarriesOid, IntOctets, EncodeIp, Number, EncodeLength, IsLengthForm, VarsBytes, IsLength, TwosComplement, Bytes,
         SeqHead;
    match m
    case V1(enterprise, ip, generic, specific, time) =>
      OidEncoded(enterprise);
      IpEncoded(ip);
      TlvEncoded(SNMP_TYPE_IPADDR, EncodeIp(ip));
      NumberEncoded(SNMP_TYPE_INT, generic);
      NumberEncoded(SNMP_TYPE_INT, specific);
      NumberEncoded(SNMP_TYPE_TIME, time);
      FormEncoded(|VarsBytes(vars)|);
    case V2(_, requestId, error, errorIndex, timeName, time, oidName, trapOid) =>
      NumberEncoded(SNMP_TYPE_INT, requestId);
      NumberEncoded(SNMP_TYPE_INT, error);
      NumberEncoded(SNMP_TYPE_INT, errorIndex);
      NumberEncoded(SNMP_TYPE_TIME, time);
      OidEncoded(timeName);
      OidEncoded(oidName);
      OidEncoded(trapOid);
      var w := EncodePdu(m, vars);
      FormEncoded(|Bytes(w.timeName)| + |Bytes(w.time)|);
      FormEncoded(|Bytes(w.oidName)| + |Bytes(w.trapOid)|);
      FormEncoded(|SeqHead(w.timeLen)| + |Bytes(w.timeName)| + |Bytes(w.time)| + |SeqHead(w.oidLen)| + |Bytes(w.oidName)|
                  + |Bytes(w.trapOid)| + |VarsBytes(vars)|);
  }

  /** The shortest encoding of every encodable message, whose lengths are all true, decodes to that message
      if and only if it has no negative number and no generic code of more than one octet. */
  lemma RoundTrip(m: Message)
    requires Encodable(m)
    ensures Carries(Encode(m), m, true) && TrueLengths(Encode(m))
    ensures Inverted(Encode(m), m) <==> NotNegative(m) && (m.pdu.V1? ==> m.pdu.generic < 0x80)
  {
    hide Decode, Shows, EncodePdu, PduBytes, VarsBytes, CarriesNumber, CarriesPdu, CarriesVars, Bytes, IsLengthForm, Inverted, PlainPdu,
         LongNull, EncodeVal, NotNegative, PduLengths, TwosComplement, IsLength, CarriesText;
    var w := Encode(m);
    RequestParts(w);
    VarsEncoded(m.bindings);
    PduEncoded(m.pdu, w.vars);
    NumberEncoded(SNMP_TYPE_INT, m.version);
    TextEncoded(m.community);
    FormEncoded(|PduBytes(w.pdu, VarsBytes(w.vars))|);
    FormEncoded(|InnerBytes(w)|);
    SameInner(w, w.(len := []));
    PduPlain(m.pdu, w.vars);
    forall i | 0 <= i < |w.vars| ensures !LongNull(w.vars[i]) { VarPlain(m.bindings[i]); }
    DecodeInverts(w, m);
    if NotNegative(m) {
      PduOf(m);
    }
  }

  lemma PduOf(m: Message)
    requires NotNegative(m)
    ensures m.pdu.V1? ==> m.pdu.generic >= 0
  {
  }

  lemma TextEncoded(s: seq<byte>)
    requires Ascii(s) && |s| + 1 < WORD32
    ensures CarriesText(MakeTlv(SNMP_TYPE_STR, s), s)
  {
    TlvEncoded(SNMP_TYPE_STR, s);
  }

  lemma SameInner(w: Wire, w': Wire)
    requires w' == w.(len := w'.len)
    ensures InnerBytes(w) == InnerBytes(w')
  {
  }

  lemma PduPlain(m: Pdu, vars: seq<WireVar>)
    requires EncodablePdu(m)
    ensures PlainPdu(EncodePdu(m, vars)) <==> (m.V1? ==> -0x80 <= m.generic < 0x80)
  {
    if m.V1? {
      OneOctetIff(m.generic);
    }
  }

  lemma OneOctetIff(n: int)
    requires Fits32(n)
    ensures EncodeLength(|IntOctets(n)|) == [1] <==> -0x80 <= n < 0x80
  {
    Pow256UpTo(0);
    IntOctetsCount(n, 4);
  }

  lemma VarPlain(b: Binding)
    requires EncodableOid(b.name) && EncodableVal(b.val)
    ensures !LongNull(EncodeVar(b))
  {
  }

  lemma RequestParts(w: Wire)
    ensures |VarsBytes(w.vars)| <= |PduBytes(w.pdu, VarsBytes(w.vars))| <= |RequestBytes(w)|
  {
    hide VarsBytes;
  }

  // ---- An example ----

  lemma ExampleOid()
    ensures Under13([1, 3, 6]) && EncodeOid([1, 3, 6]) == [43, 6]
  {
    assert SubIds([1, 3, 6]) == [43, 6];
    assert SubIdOctets(43, true) == [43] && SubIdOctets(6, true) == [6];
    assert EncodeSubIds([6]) == [6] + EncodeSubIds([]);
  }

  lemma ExampleNumber(tag: byte, b: byte)
    requires b < 0x80
    ensures CarriesNumber(Tlv(tag, [1], [b]), tag, b, 4, true)
  {
    TwosOne(b);
  }

  const EXAMPLE_OID := Tlv(SNMP_TYPE_OID, [2], [43, 6])
  const EXAMPLE_ONE := Tlv(SNMP_TYPE_INT, [1], [1])
  const EXAMPLE_TEXT: seq<byte> := [112, 117, 98]

  function ExamplePdu(long: bool, request: byte): WirePdu {
    WireV2(Tlv(SNMP_TYPE_INT, [1], [request]), EXAMPLE_ONE, EXAMPLE_ONE, [0x81, if long then 37 else 36], [7], EXAMPLE_OID,
           Tlv(SNMP_TYPE_TIME, [1], [9]), [8], EXAMPLE_OID, EXAMPLE_OID)
  }

  function ExampleVars(long: bool): seq<WireVar> {
    [WireVar(if long then [7] else [6], EXAMPLE_OID, Tlv(SNMP_TYPE_NULL, if long then [0x81, 0] else [0], [])),
     WireVar([7], EXAMPLE_OID, EXAMPLE_ONE)]
  }

  function ExampleWire(long: bool, request: byte): Wire {
    Wire([if long then 59 else 58], EXAMPLE_ONE, Tlv(SNMP_TYPE_STR, [3], EXAMPLE_TEXT), SNMP_V2TRAP, [if long then 49 else 48],
         ExamplePdu(long, request), ExampleVars(long))
  }

  lemma ExampleLengths(long: bool, request: byte)
    ensures TrueLengths(ExampleWire(long, request))
    ensures var w := ExampleWire(long, request); IsLength(w.len, |InnerBytes(w)|) && |InnerBytes(w)| < 0x80
  {
    var vars, pdu := ExampleVars(long), ExamplePdu(long, request);
    TwoVars(vars[0], vars[1]);
    LongForm(if long then 37 else 36);
    assert |VarsBytes(vars)| == if long then 18 else 17;
    hide Number;
    assert PduLengths(pdu, |VarsBytes(vars)|);
    assert |PduBytes(pdu, VarsBytes(vars))| == if long then 49 else 48;
  }

  /** A v2 trap with two bindings, a null and a number, written with a long form where the short one would
      do, with a short or a long length for the null, and with any octet for the number of its request.  All
      lengths are true. */
  lemma Example(long: bool, request: byte) returns (w: Wire, m: Message)
    ensures Carries(w, m, true) && TrueLengths(w) && m.pdu.V2? && |m.bindings| == 2 && PlainPdu(w.pdu)
    ensures m.pdu.requestId == (if request < 0x80 then request else request - 256) && (NotNegative(m) <==> request < 0x80)
    ensures w.pdu.WireV2? && w.pdu.requestId.content == [request]
    ensures FirstLongNull(w.vars) == if long then 0 else 2
  {
    var name, n := [1, 3, 6], if request < 0x80 then request else request - 256;
    w := ExampleWire(long, request);
    m := Message(1, EXAMPLE_TEXT, V2(false, n, 1, 1, name, 9, name, name), [Binding(name, NullVal), Binding(name, IntVal(1))]);
    ExampleLengths(long, request);
    ExamplePduCarries(long, request, m.pdu);
    ExampleVarsCarry(long, m.bindings);
    ExampleNumber(SNMP_TYPE_INT, 1);
    hide EncodeOid, Number, InnerBytes, TwosComplement, TrueLengths, CarriesPdu, CarriesVars, FirstLongNull, ExampleVars;
  }

  lemma ExamplePduCarries(long: bool, request: byte, m: Pdu)
    requires m == V2(false, if request < 0x80 then request else request - 256, 1, 1, [1, 3, 6], 9, [1, 3, 6], [1, 3, 6])
    ensures CarriesPdu(ExamplePdu(long, request), m, true)
  {
    TwosOne(request);
    LongForm(if long then 37 else 36);
    ExampleOid();
    ExampleNumber(SNMP_TYPE_INT, 1);
    ExampleNumber(SNMP_TYPE_TIME, 9);
    hide EncodeOid, Number, TwosComplement;
  }

  lemma ExampleVarsCarry(long: bool, bs: seq<Binding>)
    requires bs == [Binding([1, 3, 6], NullVal), Binding([1, 3, 6], IntVal(1))]
    ensures CarriesVars(ExampleVars(long), bs, true) && FirstLongNull(ExampleVars(long)) == if long then 0 else 2
  {
    var ws := ExampleVars(long);
    NullForms();
    ExampleOid();
    ExampleNumber(SNMP_TYPE_INT, 1);
    hide EncodeOid, Number, TwosComplement;
    assert CarriesVar(ws[0], bs[0], true) && CarriesVar(ws[1], bs[1], true);
    assert ws[1..] == [ws[1]] && ws[1..][1..] == [];
  }

  lemma LongForm(n: byte)
    ensures IsLength([0x81, n], n)
  {
    OneOctet(n);
    assert [0x81, n][1..] == [n];
  }

  /** With its null written 05 81 00 the example is accepted short of its end, and its second binding is
      lost. */
  lemma LongNullDropsBindings() returns (w: Wire, m: Message)
    ensures Carries(w, m, true) && TrueLengths(w) && |m.bindings| == 2
    ensures var d := WireBytes(w); Decode(d, |d|).Got? && Decode(d, |d|).at < |d| && |Decode(d, |d|).value.vars| == 1
  {
    w, m := Example(true, 1);
    hide *;
    DecodeInverts(w, m);
    var d, u := WireBytes(w), Unsigned(w, m);
    SameCount(Decode(d, |d|).value, u.(bindings := u.bindings[..1]));
  }

  lemma SameCount(t: Trap, m: Message)
    requires Shows(t, m)
    ensures |t.vars| == |m.bindings|
  {
  }

  lemma NullForms()
    ensures IsLength([0], 0) && IsLength([0x81, 0], 0) && IsLength([0x81, 4], 4)
  {
    LongForm(0);
    LongForm(4);
  }

  /** A v1 trap with true lengths, and with its address and its generic code written as given. */
  lemma ExampleV1(ip: Tlv, generic: Tlv, g: int) returns (w: Wire, m: Message)
    requires CarriesNumber(ip, SNMP_TYPE_IPADDR, 1, 4, false) && |ip.content| == 4 && |ip.len| <= 2
    requires CarriesNumber(generic, SNMP_TYPE_INT, g, 4, true) && |generic.len| <= 2
    ensures Carries(w, m, true) && TrueLengths(w) && m.pdu.V1? && m.pdu.generic == g
    ensures w.pdu.WireV1? && w.pdu.ip == ip && w.pdu.generic == generic && w.vars == []
  {
    var oid, name := Tlv(SNMP_TYPE_OID, [2], [43, 6]), [1, 3, 6];
    var one := Tlv(SNMP_TYPE_INT, [1], [1]);
    var pdu := WireV1(oid, ip, generic, one, Tlv(SNMP_TYPE_TIME, [1], [9]), [0]);
    w := Wire([], one, Tlv(SNMP_TYPE_STR, [0], []), SNMP_V1TRAP, [12 + |Bytes(ip)| + |Bytes(generic)|], pdu, []);
    w := w.(len := EncodeLength(|InnerBytes(w)|));
    m := Message(1, [], V1(name, 1, g, 1, 9), []);
    ExampleOid();
    ExampleNumber(SNMP_TYPE_INT, 1);
    ExampleNumber(SNMP_TYPE_TIME, 9);
    assert TrueLengths(w);
    LengthEncoded(|InnerBytes(w)|);
    hide EncodeOid, Number, EncodeLength, InnerBytes, TwosComplement, TrueLengths;
    assert CarriesOid(oid, name);
    assert CarriesPdu(pdu, m.pdu, true);
  }

  /** Rejected are: a v1 trap with its address written 40 81 04, and one with its generic code written
      02 02 00 06. */
  lemma LongAddressIsRejected() returns (w: Wire, m: Message, w': Wire, m': Message)
    ensures Carries(w, m, true) && TrueLengths(w) && m.pdu.V1? && Decode(WireBytes(w), |WireBytes(w)|).Rejected?
    ensures w.pdu.WireV1? && w.pdu.ip.len == [0x81, 4]
    ensures Carries(w', m', true) && TrueLengths(w') && m'.pdu.V1? && Decode(WireBytes(w'), |WireBytes(w')|).Rejected?
    ensures w'.pdu.WireV1? && w'.pdu.generic == Tlv(SNMP_TYPE_INT, [2], [0, 6]) && m'.pdu.generic == 6
  {
    NullForms();
    IpEncoded(1);
    ExampleNumber(SNMP_TYPE_INT, 1);
    TwosOne(0);
    TwosSnoc([0], 6);
    assert [0] + [6] == [0, 6];
    hide Number, EncodeIp, TwosComplement, Decode, Carries, TrueLengths, NotNegative, FirstLongNull, Inverted;
    w, m := ExampleV1(Tlv(SNMP_TYPE_IPADDR, [0x81, 4], EncodeIp(1)), Tlv(SNMP_TYPE_INT, [1], [1]), 1);
    DecodeInverts(w, m);
    w', m' := ExampleV1(Tlv(SNMP_TYPE_IPADDR, [4], EncodeIp(1)), Tlv(SNMP_TYPE_INT, [2], [0, 6]), 6);
    DecodeInverts(w', m');
  }

  /** A v2 trap whose request has the number -1, written FF, is decoded with the number 255. */
  lemma NegativeLosesSign() returns (w: Wire, m: Message)
    ensures Carries(w, m, true) && TrueLengths(w) && m.pdu.V2? && m.pdu.requestId == -1
    ensures var d := WireBytes(w); Decode(d, |d|).Got? && Decode(d, |d|).at == |d| && Decode(d, |d|).value.body.requestId == 255
  {
    w, m := Example(false, 0xFF);
    OneOctet(0xFF);
    var d, u := WireBytes(w), Unsigned(w, m);
    assert u.pdu.V2? && u.pdu.requestId == 255;
    hide Number, TwosComplement, Decode, TrueLengths, Inverted, Shows, Unsigned, WireBytes, NotNegative, PlainPdu, Carries, LongNull;
    DecodeInverts(w, m);
    ShowsRequest(Decode(d, |d|).value, u);
  }

  lemma ShowsRequest(t: Trap, m: Message)
    requires Shows(t, m) && m.pdu.V2?
    ensures t.body.requestId == m.pdu.requestId
  {
  }

  lemma TwoVars(a: WireVar, b: WireVar)
    ensures |VarsBytes([a, b])| == |VarBytes(a)| + |VarBytes(b)|
  {
    hide VarBytes;
    assert [a, b][1..] == [b] && [b][1..] == [];
    assert VarsBytes([b]) == VarBytes(b) + VarsBytes([]);
    assert VarsBytes([a, b]) == VarBytes(a) + VarsBytes([b]);
  }
}
