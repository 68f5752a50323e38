/** What `CSnmpTrap::Decode` makes of the octets of a packet (CSnmpTrap.h). */
module TrapDecoding {
  import opened Wrappers
  import opened Words
  import opened Ber
  import opened Asn1Parsers

  const SNMP_V1TRAP: byte := 0xA4
  const SNMP_V2INFORM: byte := 0xA6
  const SNMP_V2TRAP: byte := 0xA7
  const SNMP_TYPE_BOOL: byte := 0x01
  const SNMP_TYPE_INT: byte := 0x02
  const SNMP_TYPE_STR: byte := 0x04
  const SNMP_TYPE_NULL: byte := 0x05
  const SNMP_TYPE_OID: byte := 0x06
  const SNMP_TYPE_SEQ: byte := 0x30
  const SNMP_TYPE_IPADDR: byte := 0x40
  const SNMP_TYPE_TIME: byte := 0x43

  /** `CSnmpTrapVar`. */
  datatype TrapVar = TrapVar(oid: seq<nat>, iValueType: byte, iVal: nat, ullVal: nat, bVal: bool,
                             wcsVal: Option<seq<nat>>, oidVal: Option<seq<nat>>)

  /** What the two branches find between the header and the list of variables.  `sourceIp` is assigned
      by the first branch only. */
  datatype Body = Body(requestId: nat, error: nat, errorIndex: nat, trapOid: seq<nat>, time: nat, sourceIp: Option<nat>)

  datatype Trap = Trap(version: nat, community: seq<nat>, trapType: byte, reqType: nat, body: Body, vars: seq<TrapVar>)

  function NewVar(oid: seq<nat>, iValueType: byte): TrapVar {
    TrapVar(oid, iValueType, 0, 0, false, None, None)
  }

  /** A tag and a length. */
  function Header(d: seq<byte>, p: nat, t: byte): (r: Parsed<nat>)
    ensures r.Got? ==> p < r.at
  {
    var (_, p) :- Tag(d, p, t);
    FieldLength(d, p)
  }

  /** A tag and the one length that is accepted, written in one octet. */
  function FixedHeader(d: seq<byte>, p: nat, t: byte, n: byte): Parsed<byte> {
    var (_, p) :- Tag(d, p, t);
    Tag(d, p, n)
  }

  function IntField(d: seq<byte>, p: nat): (r: Parsed<nat>)
    ensures r.Got? ==> r.value < WORD32
  {
    var (n, p) :- Header(d, p, SNMP_TYPE_INT);
    Int(d, p, n)
  }

  function OidField(d: seq<byte>, p: nat): (r: Parsed<seq<nat>>)
    ensures r.Got? ==> p < r.at
  {
    var (n, p) :- Header(d, p, SNMP_TYPE_OID);
    OidArcs(d, p, n)
  }

  /** A number of up to four octets, or up to eight. */
  function Wide(d: seq<byte>, p: nat, n: nat): Parsed<nat> {
    if n <= 4 then Int(d, p, n) else BigInt(d, p, n)
  }

  function TimeField(d: seq<byte>, p: nat): Parsed<nat> {
    var (n, p) :- Header(d, p, SNMP_TYPE_TIME);
    Wide(d, p, n)
  }

  /** Who trapped and why (lines 268-331): the trap's identity and the source address. */
  function V1Identity(d: seq<byte>, p: nat): Parsed<(seq<nat>, nat)> {
    var (enterprise, p) :- OidField(d, p);
    var (_, p) :- FixedHeader(d, p, SNMP_TYPE_IPADDR, 4);
    var (ip, p) :- Ip(d, p, 4);
    var (_, p) :- FixedHeader(d, p, SNMP_TYPE_INT, 1);
    var (generic, p) :- Int(d, p, 1);
    var (specific, p) :- IntField(d, p);
    Got((enterprise + GenericArcs(generic, specific), ip), p)
  }

  /** The arcs that take the place of the generic and specific codes. */
  function GenericArcs(generic: nat, specific: nat): seq<nat> {
    if generic == 6 then [0, specific] else [generic + 1]
  }

  /** Lines 261-356. */
  function V1Body(d: seq<byte>, p: nat): Parsed<Body> {
    var (id, p) :- V1Identity(d, p);
    var (time, p) :- TimeField(d, p);
    var (_, p) :- Header(d, p, SNMP_TYPE_SEQ);
    Got(Body(0, 0, 0, id.0, time, Some(id.1)), p)
  }

  /** The request's number, error and error index (lines 364-389). */
  function V2Numbers(d: seq<byte>, p: nat): Parsed<(nat, nat, nat)> {
    var (requestId, p) :- IntField(d, p);
    var (error, p) :- IntField(d, p);
    var (errorIndex, p) :- IntField(d, p);
    Got((requestId, error, errorIndex), p)
  }

  /** The first two bindings (lines 391-456): the time stamp and the trap's identity. */
  function V2Identity(d: seq<byte>, p: nat): Parsed<(nat, seq<nat>)> {
    var (_, p) :- Header(d, p, SNMP_TYPE_SEQ);
    var (_, p) :- Header(d, p, SNMP_TYPE_SEQ);
    var (_, p) :- OidField(d, p);
    var (time, p) :- TimeField(d, p);
    var (_, p) :- Header(d, p, SNMP_TYPE_SEQ);
    var (_, p) :- OidField(d, p);
    var (trapOid, p) :- OidField(d, p);
    Got((time, trapOid), p)
  }

  /** Lines 362-457. */
  function V2Body(d: seq<byte>, p: nat): Parsed<Body> {
    var (n, p) :- V2Numbers(d, p);
    var (id, p) :- V2Identity(d, p);
    Got(Body(n.0, n.1, n.2, id.1, id.0, None), p)
  }

  /** The value of a variable, from its length octets on (lines 482-525).  A null value is skipped with
      its length unread; a boolean is read one octet late. */
  function Value(d: seq<byte>, p: nat, v: TrapVar): (r: Parsed<TrapVar>)
    ensures r.Got? ==> p < r.at
  {
    if v.iValueType == SNMP_TYPE_BOOL then
      var (_, p) :- FieldLength(d, p);
      if p + 1 >= |d| then Undefined else Got(v.(bVal := d[p + 1] != 0), p + 2)
    else if v.iValueType == SNMP_TYPE_INT || v.iValueType == SNMP_TYPE_TIME then
      var (n, p) :- FieldLength(d, p);
      var (x, p) :- Wide(d, p, n);
      Got(if n <= 4 then v.(iVal := x) else v.(ullVal := x), p)
    else if v.iValueType == SNMP_TYPE_STR then
      var (n, p) :- FieldLength(d, p);
      var (s, p) :- Str(d, p, n);
      Got(v.(wcsVal := Some(s)), p)
    else if v.iValueType == SNMP_TYPE_NULL then
      Got(v, p + 1)
    else if v.iValueType == SNMP_TYPE_OID then
      var (n, p) :- FieldLength(d, p);
      var (arcs, p) :- OidArcs(d, p, n);
      Got(v.(oidVal := Some(arcs)), p)
    else if v.iValueType == SNMP_TYPE_IPADDR then
      var (n, p) :- FieldLength(d, p);
      var (x, p) :- Ip(d, p, n);
      Got(v.(iVal := x), p)
    else Rejected
  }

  /** One variable (lines 466-525). */
  function Var(d: seq<byte>, p: nat): (r: Parsed<TrapVar>)
    ensures r.Got? ==> p < r.at
  {
    var (_, p) :- Header(d, p, SNMP_TYPE_SEQ);
    var (oid, p) :- OidField(d, p);
    if p >= |d| then Undefined else Value(d, p + 1, NewVar(oid, d[p]))
  }

  /** The loop over the variables (lines 464-529). */
  function Vars(d: seq<byte>, p: nat, packetLen: nat, vars: seq<TrapVar>): Parsed<seq<TrapVar>>
    decreases packetLen - p
  {
    if p >= packetLen then Got(vars, p)
    else if p >= |d| then Undefined
    else if d[p] != SNMP_TYPE_SEQ then Got(vars, p)
    else
      var (v, p') :- Var(d, p);
      Vars(d, p', packetLen, vars + [v])
  }

  /** The envelope, the version and the community (lines 197-236). */
  function Envelope(d: seq<byte>, packetLen: nat): Parsed<(nat, seq<nat>)> {
    var (n, p) :- Header(d, 0, SNMP_TYPE_SEQ);
    if n != packetLen - p then Rejected
    else
      var (n, p) :- Header(d, p, SNMP_TYPE_INT);
      if n > 4 then Rejected
      else
        var (version, p) :- Int(d, p, n);
        var (n, p) :- Header(d, p, SNMP_TYPE_STR);
        var (community, p) :- Str(d, p, n);
        Got((version, community), p)
  }

  /** The type of the request and the length of its data (lines 241-254). */
  function Request(d: seq<byte>, p: nat): Parsed<byte> {
    if p >= |d| then Undefined
    else if d[p] != SNMP_V1TRAP && d[p] != SNMP_V2INFORM && d[p] != SNMP_V2TRAP then Rejected
    else
      var (_, p') :- FieldLength(d, p + 1);
      Got(d[p], p')
  }

  function Decode(d: seq<byte>, packetLen: nat): Parsed<Trap> {
    var (e, reqType) :- Envelope(d, packetLen);
    var (trapType, p) :- Request(d, reqType);
    var (body, p) :- if trapType == SNMP_V1TRAP then V1Body(d, p) else V2Body(d, p);
    var (vars, p) :- Vars(d, p, packetLen, []);
    Got(Trap(e.0, e.1, trapType, reqType, body, vars), p)
  }
}
