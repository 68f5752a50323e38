/** `CSnmpTrap`: the object that `Decode` fills in step by step, and the loop over the variables. */
module SnmpTrap {
  import opened Wrappers
  import opened Words
  import opened Ber
  import opened Asn1Parsers
  import opened TrapDecoding
  import SnmpOid

  class Trap {
    const PacketLen: nat
    var Version: nat
    var community: Option<seq<nat>>
    var TrapType: nat
    var RequestID: nat
    var Error: nat
    var ErrorIndex: nat
    var TrapOid: SnmpOid.Oid?
    var ullSourceTime: nat
    var SnmpSourceIP: nat
    var pReqType: Option<nat>
    var varArgs: seq<TrapVar>

    constructor (packetSize: nat)
      ensures PacketLen == packetSize && Version == 65535 && community.None? && TrapOid == null
      ensures pReqType.None? && varArgs == []
    {
      PacketLen, Version, community, TrapOid, pReqType, varArgs := packetSize, 65535, None, null, None, [];
      TrapType, RequestID, Error, ErrorIndex, ullSourceTime, SnmpSourceIP := 0, 0, 0, 0, 0, 0;
    }

    /** The fields hold what the body of the message says. */
    ghost predicate HoldsBody(b: Body)
      reads this, TrapOid, if TrapOid == null then {} else {TrapOid.Oids, TrapOid.wcsOid}
    {
      && RequestID == b.requestId && Error == b.error && ErrorIndex == b.errorIndex && ullSourceTime == b.time
      && TrapOid != null && TrapOid.Valid() && TrapOid.Arcs() == b.trapOid
      && (b.sourceIp.Some? ==> SnmpSourceIP == b.sourceIp.value)
    }

    /** A tag and a length. */
    method Field(buf: array<byte>, p: nat, t: byte) returns (r: Parsed<nat>)
      ensures r == Header(buf[..], p, t)
    {
      if p >= buf.Length {
        return Undefined;
      }
      if buf[p] != t {
        return Rejected;
      }
      r := GetFieldLength(buf, p + 1);
    }

    method ReadInt(buf: array<byte>, p: nat) returns (r: Parsed<nat>)
      ensures r == IntField(buf[..], p)
    {
      var n :- Field(buf, p, SNMP_TYPE_INT);
      r := ParseInt(buf, n.1, n.0);
    }

    /** A new object and the identifier read into it. */
    method ReadOid(buf: array<byte>, p: nat) returns (r: Parsed<seq<nat>>, oid: SnmpOid.Oid)
      ensures r == OidField(buf[..], p)
      ensures fresh(oid) && oid.Valid() && oid.wcsOid == null && (oid.Oids != null ==> fresh(oid.Oids))
      ensures r.Got? ==> oid.Arcs() == r.value
    {
      oid := new SnmpOid.Oid();
      var n := Field(buf, p, SNMP_TYPE_OID);
      if !n.Got? {
        return n.PropagateFailure(), oid;
      }
      r := ParseOid(buf, n.at, oid, n.value);
      if !r.Got? {
        oid := new SnmpOid.Oid();
      }
    }

    method ReadWide(buf: array<byte>, p: nat, fieldLen: nat) returns (r: Parsed<nat>)
      ensures r == Wide(buf[..], p, fieldLen)
    {
      if fieldLen <= 4 {
        r := ParseInt(buf, p, fieldLen);
      } else {
        r := ParseBigInt(buf, p, fieldLen);
      }
    }

    method ReadTime(buf: array<byte>, p: nat) returns (r: Parsed<nat>)
      ensures r == TimeField(buf[..], p)
    {
      var n :- Field(buf, p, SNMP_TYPE_TIME);
      r := ReadWide(buf, n.1, n.0);
    }

    /** Lines 482-525. */
    method ReadValue(buf: array<byte>, p: nat, oid: seq<nat>) returns (r: Parsed<TrapVar>)
      ensures r == if p >= buf.Length then Undefined else Value(buf[..], p + 1, NewVar(oid, buf[p]))
    {
      if p >= buf.Length {
        return Undefined;
      }
      var newVar, t := NewVar(oid, buf[p]), buf[p];
      if t == SNMP_TYPE_NULL {
        return Got(newVar, p + 2);
      }
      if t != SNMP_TYPE_BOOL && t != SNMP_TYPE_INT && t != SNMP_TYPE_TIME && t != SNMP_TYPE_STR && t != SNMP_TYPE_OID && t != SNMP_TYPE_IPADDR {
        return Rejected;
      }
      var n :- GetFieldLength(buf, p + 1);
      if t == SNMP_TYPE_BOOL {
        r := if n.1 + 1 >= buf.Length then Undefined else Got(newVar.(bVal := buf[n.1 + 1] != 0), n.1 + 2);
      } else if t == SNMP_TYPE_INT || t == SNMP_TYPE_TIME {
        var x :- ReadWide(buf, n.1, n.0);
        r := Got(if n.0 <= 4 then newVar.(iVal := x.0) else newVar.(ullVal := x.0), x.1);
      } else if t == SNMP_TYPE_STR {
        var s :- ParseStr(buf, n.1, n.0);
        r := Got(newVar.(wcsVal := Some(s.0)), s.1);
      } else if t == SNMP_TYPE_OID {
        var val := new SnmpOid.Oid();
        var arcs :- ParseOid(buf, n.1, val, n.0);
        r := Got(newVar.(oidVal := Some(arcs.0)), arcs.1);
      } else {
        var x :- ParseIP(buf, n.1, n.0);
        r := Got(newVar.(iVal := x.0), x.1);
      }
    }

    /** Lines 464-529: the variables are appended in the order of the packet. */
    method DecodeVars(buf: array<byte>, p: nat) returns (r: Parsed<seq<TrapVar>>)
      modifies this`varArgs
      ensures r == Vars(buf[..], p, PacketLen, [])
      ensures r.Got? ==> varArgs == old(varArgs) + r.value
    {
      hide Var;
      var pTmp, first := p, |varArgs|;
      ghost var vars := [];
      while pTmp < PacketLen
        invariant varArgs == old(varArgs) + vars
        invariant Vars(buf[..], p, PacketLen, []) == Vars(buf[..], pTmp, PacketLen, vars)
        decreases PacketLen - pTmp
      {
        if pTmp >= buf.Length {
          return Undefined;
        }
        if buf[pTmp] != SNMP_TYPE_SEQ {
          break;
        }
        var newVar :- ReadVar(buf, pTmp);
        varArgs, pTmp := varArgs + [newVar.0], newVar.1;
        vars := vars + [newVar.0];
      }
      r := Got(varArgs[first..], pTmp);
    }

    method ReadVar(buf: array<byte>, p: nat) returns (r: Parsed<TrapVar>)
      ensures r == Var(buf[..], p)
    {
      hide Value, OidField, Header;
      var n :- Field(buf, p, SNMP_TYPE_SEQ);
      var name, oid := ReadOid(buf, n.1);
      if !name.Got? {
        return name.PropagateFailure();
      }
      r := ReadValue(buf, name.at, name.value);
    }

    /** Lines 268-331: the fields `TrapOid` and `SnmpSourceIP`. */
    method ReadV1Identity(buf: array<byte>, p: nat) returns (r: Parsed<(seq<nat>, nat)>)
      modifies this`TrapOid, this`SnmpSourceIP
      ensures r == V1Identity(buf[..], p)
      ensures r.Got? ==> TrapOid != null && fresh(TrapOid) && TrapOid.Valid() && TrapOid.Arcs() == r.value.0 && SnmpSourceIP == r.value.1
    {
      hide OidField, Ip, Int, IntField, FixedHeader;
      var enterprise, oid := ReadOid(buf, p);
      TrapOid := oid;
      if !enterprise.Got? {
        return enterprise.PropagateFailure();
      }
      var a :- ReadFixed(buf, enterprise.at, SNMP_TYPE_IPADDR, 4);
      var ip :- ParseIP(buf, a.1, 4);
      SnmpSourceIP := ip.0;
      var b :- ReadFixed(buf, ip.1, SNMP_TYPE_INT, 1);
      var generic :- ParseInt(buf, b.1, 1);
      GenericFits(buf[..], b.1);
      var specific :- ReadInt(buf, generic.1);
      AddGeneric(generic.0, specific.0);
      r := Got((enterprise.value + GenericArcs(generic.0, specific.0), ip.0), specific.1);
    }

    /** Lines 261-356. */
    method DecodeV1(buf: array<byte>, p: nat) returns (r: Parsed<Body>)
      modifies this
      ensures r == V1Body(buf[..], p) && (r.Got? ==> HoldsBody(r.value) && fresh(TrapOid))
      ensures (Version, TrapType, community, pReqType, varArgs) == old((Version, TrapType, community, pReqType, varArgs))
    {
      hide V1Identity, TimeField, Header;
      RequestID, Error, ErrorIndex := 0, 0, 0;
      var id :- ReadV1Identity(buf, p);
      var time :- ReadTime(buf, id.1);
      ullSourceTime := time.0;
      var list :- Field(buf, time.1, SNMP_TYPE_SEQ);
      r := Got(Body(0, 0, 0, id.0.0, time.0, Some(id.0.1)), list.1);
    }

    /** Lines 282-285 and 291-298: a tag and a length that must be this one. */
    method ReadFixed(buf: array<byte>, p: nat, t: byte, n: byte) returns (r: Parsed<byte>)
      ensures r == FixedHeader(buf[..], p, t, n)
    {
      if p >= buf.Length {
        return Undefined;
      }
      if buf[p] != t {
        return Rejected;
      }
      if p + 1 >= buf.Length {
        return Undefined;
      }
      if buf[p + 1] != n {
        return Rejected;
      }
      r := Got(n, p + 2);
    }

    /** Lines 301-331. */
    method AddGeneric(generic: nat, specific: nat)
      requires TrapOid != null && TrapOid.Valid() && generic + 1 < WORD32 && specific < WORD32
      modifies TrapOid
      ensures TrapOid.Valid() && TrapOid.Arcs() == old(TrapOid.Arcs()) + GenericArcs(generic, specific)
    {
      var genericID := new SnmpOid.Oid();
      var oids;
      if generic == 6 {
        oids := new nat[2] [0, specific];
      } else {
        oids := new nat[1] [generic + 1];
      }
      genericID.Oids, genericID.nOids := oids, oids.Length;
      assert genericID.Arcs() == GenericArcs(generic, specific);
      TrapOid.Add(genericID);
    }

    /** Lines 364-389: the fields `RequestID`, `Error` and `ErrorIndex`. */
    method ReadV2Numbers(buf: array<byte>, p: nat) returns (r: Parsed<(nat, nat, nat)>)
      modifies this`RequestID, this`Error, this`ErrorIndex
      ensures r == V2Numbers(buf[..], p) && (r.Got? ==> (RequestID, Error, ErrorIndex) == r.value)
    {
      hide IntField;
      var requestId :- ReadInt(buf, p);
      RequestID := requestId.0;
      var error :- ReadInt(buf, requestId.1);
      Error := error.0;
      var errorIndex :- ReadInt(buf, error.1);
      ErrorIndex := errorIndex.0;
      r := Got((RequestID, Error, ErrorIndex), errorIndex.1);
    }

    /** Lines 391-456: the fields `ullSourceTime` and `TrapOid`, which is replaced twice. */
    method ReadV2Identity(buf: array<byte>, p: nat) returns (r: Parsed<(nat, seq<nat>)>)
      modifies this`ullSourceTime, this`TrapOid
      ensures r == V2Identity(buf[..], p)
      ensures r.Got? ==> ullSourceTime == r.value.0 && TrapOid != null && fresh(TrapOid) && TrapOid.Valid() && TrapOid.Arcs() == r.value.1
    {
      hide OidField, TimeField, Header;
      var list :- Field(buf, p, SNMP_TYPE_SEQ);
      var timeVar :- Field(buf, list.1, SNMP_TYPE_SEQ);
      var timeName, timeOid := ReadOid(buf, timeVar.1);
      TrapOid := timeOid;
      if !timeName.Got? {
        return timeName.PropagateFailure();
      }
      var time :- ReadTime(buf, timeName.at);
      ullSourceTime := time.0;
      var oidVar :- Field(buf, time.1, SNMP_TYPE_SEQ);
      var oidName, nameOid := ReadOid(buf, oidVar.1);
      TrapOid := nameOid;
      if !oidName.Got? {
        return oidName.PropagateFailure();
      }
      var trapOid, oid := ReadOid(buf, oidName.at);
      TrapOid := oid;
      if !trapOid.Got? {
        return trapOid.PropagateFailure();
      }
      r := Got((time.0, trapOid.value), trapOid.at);
    }

    /** Lines 362-457. */
    method DecodeV2(buf: array<byte>, p: nat) returns (r: Parsed<Body>)
      modifies this
      ensures r == V2Body(buf[..], p) && (r.Got? ==> HoldsBody(r.value) && fresh(TrapOid)) && SnmpSourceIP == old(SnmpSourceIP)
      ensures (Version, TrapType, community, pReqType, varArgs) == old((Version, TrapType, community, pReqType, varArgs))
    {
      hide V2Numbers, V2Identity;
      var n :- ReadV2Numbers(buf, p);
      var id :- ReadV2Identity(buf, n.1);
      r := Got(Body(RequestID, Error, ErrorIndex, id.0.1, id.0.0, None), id.1);
    }

    /** Lines 197-241. */
    method ReadEnvelope(buf: array<byte>) returns (r: Parsed<(nat, seq<nat>)>)
      modifies this`Version, this`community
      ensures r == Envelope(buf[..], PacketLen)
      ensures r.Got? ==> Version == r.value.0 && community == Some(r.value.1)
    {
      hide Header, Int, Str;
      var n :- Field(buf, 0, SNMP_TYPE_SEQ);
      if n.0 != PacketLen - n.1 {
        return Rejected;
      }
      var v :- Field(buf, n.1, SNMP_TYPE_INT);
      if v.0 > 4 {
        return Rejected;
      }
      var version :- ParseInt(buf, v.1, v.0);
      Version := version.0;
      var c :- Field(buf, version.1, SNMP_TYPE_STR);
      var text :- ParseStr(buf, c.1, c.0);
      community := Some(text.0);
      r := Got((version.0, text.0), text.1);
    }

    /** Lines 241-254. */
    method ReadRequest(buf: array<byte>, p: nat) returns (r: Parsed<byte>)
      modifies this`TrapType, this`pReqType
      ensures r == Request(buf[..], p)
      ensures r.Got? ==> TrapType == r.value && pReqType == Some(p)
    {
      pReqType := Some(p);
      if p >= buf.Length {
        return Undefined;
      }
      if buf[p] != SNMP_V1TRAP && buf[p] != SNMP_V2INFORM && buf[p] != SNMP_V2TRAP {
        return Rejected;
      }
      TrapType := buf[p];
      var n :- GetFieldLength(buf, p + 1);
      r := Got(buf[p], n.1);
    }

    /** `Decode`: the result is true, false or undefined as the octets say, and a result of true leaves
        their meaning in the fields. */
    method Decode(buf: array<byte>) returns (r: Parsed<bool>)
      modifies this
      ensures var m := TrapDecoding.Decode(buf[..], PacketLen);
              && r == (match m case Got(_, at) => Got(true, at) case Rejected => Rejected case Undefined => Undefined)
              && (m.Got? ==>
                    && Version == m.value.version && community == Some(m.value.community) && TrapType == m.value.trapType
                    && pReqType == Some(m.value.reqType) && HoldsBody(m.value.body) && varArgs == old(varArgs) + m.value.vars
                    && (m.value.trapType != 0xA4 ==> SnmpSourceIP == old(SnmpSourceIP)))
    {
      hide Envelope, Request, V1Body, V2Body, Vars;
      var e :- ReadEnvelope(buf);
      var t :- ReadRequest(buf, e.1);
      var body: (Body, nat);
      if TrapType == SNMP_V1TRAP {
        body :- DecodeV1(buf, t.1);
      } else {
        body :- DecodeV2(buf, t.1);
      }
      var vars :- DecodeVars(buf, body.1);
      r := Got(true, vars.1);
    }
  }

  lemma GenericFits(d: seq<byte>, p: nat)
    ensures Int(d, p, 1).Got? ==> Int(d, p, 1).value < 256
  {
    if p < |d| {
      WrapSmall(d[p], WORD32);
      assert Accumulate(d, p + 1, 0, Wrap(d[p], WORD32), WORD32) == Got(d[p], p + 1);
    }
  }
}
