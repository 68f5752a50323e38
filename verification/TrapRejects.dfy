/** Which encodings `Decode` rejects: those that are right in everything but the outer length, the tag of the request
    and the types of the values are rejected exactly if one of these is wrong, or for a length that the code compares
    with one octet. */
module TrapRejects {
  import opened Wrappers
  import opened Words
  import opened Ber
  import opened Asn1Parsers
  import opened TrapDecoding
  import opened TrapWire

  predicate Unknown(w: WireVar) { w.value.tag !in {0x01, 0x02, 0x04, 0x05, 0x06, 0x40, 0x43} }

  predicate NearlyVar(w: WireVar, b: Binding) {
    IsLengthForm(w.len) && CarriesOid(w.name, b.name) && (Unknown(w) || CarriesVal(w.value, b.val, false))
  }

  predicate NearlyVars(ws: seq<WireVar>, bs: seq<Binding>) {
    |ws| == |bs| && forall i :: 0 <= i < |ws| ==> NearlyVar(ws[i], bs[i])
  }

  /** Any outer length, any tag for the request, any values of unknown type. */
  predicate Nearly(w: Wire, m: Message) {
    && IsLengthForm(w.len) && LengthOf(w.len) < WORD32
    && CarriesNumber(w.version, SNMP_TYPE_INT, m.version, 4, false) && CarriesText(w.community, m.community)
    && IsLengthForm(w.pduLen) && CarriesPdu(w.pdu, m.pdu, false) && NearlyVars(w.vars, m.bindings)
  }

  predicate RightTag(w: Wire) { if w.pdu.WireV1? then w.tag == 0xA4 else w.tag == 0xA6 || w.tag == 0xA7 }

  // ---- The envelope ----

  lemma WholeIs(d: seq<byte>, w: Wire)
    requires d == WireBytes(w) && IsLengthForm(w.len) && LengthOf(w.len) < WORD32
    ensures Header(d, 0, SNMP_TYPE_SEQ) == Got(LengthOf(w.len), |SeqHead(w.len)|) && Here(d, |SeqHead(w.len)|, InnerBytes(w))
    ensures |d| == |SeqHead(w.len)| + |InnerBytes(w)|
  {
    assert d[0..|d|] == d;
    hide InnerBytes;
    FormReads(d, 0, SNMP_TYPE_SEQ, w.len, InnerBytes(w));
  }

  /** The envelope is rejected exactly if its length is not that of the rest. */
  lemma EnvelopeOutcome(d: seq<byte>, w: Wire, m: Message)
    requires Nearly(w, m) && d == WireBytes(w)
    ensures LengthOf(w.len) != |InnerBytes(w)| ==> Envelope(d, |d|) == Rejected
    ensures LengthOf(w.len) == |InnerBytes(w)| ==>
              var e := Envelope(d, |d|); e.Got? && Here(d, e.at, RequestBytes(w)) && e.at + |RequestBytes(w)| == |d|
  {
    hide Bytes, SeqHead, RequestBytes, Int, Str, Ascii, IsLength, Header, Here, Number, CarriesPdu, NearlyVars, IsLengthForm,
         LengthOf, Envelope;
    WholeIs(d, w);
    var p1, b1 := |SeqHead(w.len)|, Bytes(w.community) + RequestBytes(w);
    if LengthOf(w.len) == |InnerBytes(w)| {
      TlvReads(d, p1, w.version, SNMP_TYPE_INT, b1);
      IntInverts(d, p1 + 1 + |w.version.len|, w.version.content);
      var p2 := p1 + |Bytes(w.version)|;
      TlvReads(d, p2, w.community, SNMP_TYPE_STR, RequestBytes(w));
      TextInverts(d, p2 + 1 + |w.community.len|, w.community.content);
      EnvelopeOf(d, |InnerBytes(w)|, p1, |w.version.content|, p1 + 1 + |w.version.len|, m.version, p2, |m.community|,
                 p2 + 1 + |w.community.len|, m.community);
    } else {
      WrongLength(d, LengthOf(w.len), p1);
    }
  }

  lemma WrongLength(d: seq<byte>, n: nat, p: nat)
    requires Header(d, 0, SNMP_TYPE_SEQ) == Got(n, p) && n != |d| - p
    ensures Envelope(d, |d|) == Rejected
  {
    hide Header;
  }

  // ---- The request ----

  lemma RequestOutcome(d: seq<byte>, p: nat, w: Wire)
    requires IsLengthForm(w.pduLen) && Here(d, p, RequestBytes(w))
    ensures w.tag !in {0xA4, 0xA6, 0xA7} ==> Request(d, p) == Rejected
    ensures w.tag in {0xA4, 0xA6, 0xA7} ==>
              var r := Request(d, p);
              && r.Got? && r.value == w.tag && Here(d, r.at, PduBytes(w.pdu, VarsBytes(w.vars)))
              && r.at + |PduBytes(w.pdu, VarsBytes(w.vars))| == p + |RequestBytes(w)|
  {
    hide PduBytes, VarsBytes;
    var b := PduBytes(w.pdu, VarsBytes(w.vars));
    assert RequestBytes(w) == ([w.tag] + w.pduLen) + b;
    HereFirst(d, p, RequestBytes(w));
    FormReads(d, p, w.tag, w.pduLen, b);
  }

  /** The first field of a v1 body is an identifier, that of a v2 body a number. */
  lemma WrongBranch(d: seq<byte>, p: nat, w: WirePdu, m: Pdu, rest: seq<byte>)
    requires CarriesPdu(w, m, false) && Here(d, p, PduBytes(w, rest))
    ensures w.WireV1? ==> V2Body(d, p) == Rejected
    ensures w.WireV2? ==> V1Body(d, p) == Rejected
  {
    FirstTag(w, m, rest);
    HereFirst(d, p, PduBytes(w, rest));
    WrongTag(d, p);
    hide IntField, OidField, PduBytes, CarriesPdu;
  }

  lemma FirstTag(w: WirePdu, m: Pdu, rest: seq<byte>)
    requires CarriesPdu(w, m, false)
    ensures PduBytes(w, rest) != [] && PduBytes(w, rest)[0] == if w.WireV1? then SNMP_TYPE_OID else SNMP_TYPE_INT
  {
    hide SeqHead, IsLengthForm, IsLength, Number;
  }

  lemma WrongTag(d: seq<byte>, p: nat)
    requires p < |d|
    ensures d[p] == SNMP_TYPE_OID ==> IntField(d, p) == Rejected
    ensures d[p] == SNMP_TYPE_INT ==> OidField(d, p) == Rejected
  {
  }

  // ---- The variables ----

  lemma UnknownIsRejected(d: seq<byte>, p: nat, w: WireVar, b: Binding, rest: seq<byte>)
    requires NearlyVar(w, b) && Unknown(w) && Here(d, p, VarBytes(w) + rest)
    ensures Var(d, p) == Rejected && p < |d| && d[p] == SNMP_TYPE_SEQ
  {
    hide OidField, CarriesVal, Header, SeqHead, Here, IsLengthForm, CarriesOid, FieldLength;
    HereConcat(d, p, VarBytes(w), rest);
    SeqReads(d, p, w.len, Bytes(w.name) + Bytes(w.value));
    var q := p + |SeqHead(w.len)|;
    OidReads(d, q, w.name, b.name, Bytes(w.value));
    HereFirst(d, q + |Bytes(w.name)|, Bytes(w.value));
  }

  /** There is a value of unknown type among those that are read. */
  predicate HasUnknown(ws: seq<WireVar>) { exists i :: 0 <= i < FirstLongNull(ws) && Unknown(ws[i]) }

  lemma HasUnknownIs(ws: seq<WireVar>)
    requires ws != []
    ensures HasUnknown(ws) <==> !LongNull(ws[0]) && (Unknown(ws[0]) || HasUnknown(ws[1..]))
  {
    if !LongNull(ws[0]) {
      assert forall i :: 1 <= i < |ws| ==> ws[i] == ws[1..][i - 1];
      if i :| 0 <= i < FirstLongNull(ws[1..]) && Unknown(ws[1..][i]) {
        assert Unknown(ws[i + 1]);
      }
      if i :| 0 <= i < FirstLongNull(ws) && Unknown(ws[i]) && i > 0 {
        assert Unknown(ws[1..][i - 1]);
      }
    }
  }

  lemma {:induction false} VarsOutcome(d: seq<byte>, p: nat, ws: seq<WireVar>, bs: seq<Binding>, before: seq<TrapVar>)
    requires NearlyVars(ws, bs) && Here(d, p, VarsBytes(ws)) && p + |VarsBytes(ws)| == |d|
    ensures var r := Vars(d, p, |d|, before);
            if HasUnknown(ws) then r == Rejected else r.Got?
    decreases |ws|
  {
    hide Var, CarriesVal, ShowsVar, LongNull, VarBytes, Here, Unknown, CarriesOid, IsLengthForm, HasUnknown;
    if ws == [] {
      NoUnknown();
    } else {
      HasUnknownIs(ws);
      assert NearlyVar(ws[0], bs[0]);
      if Unknown(ws[0]) {
        UnknownIsRejected(d, p, ws[0], bs[0], VarsBytes(ws[1..]));
        UnknownNotNull(ws[0]);
      } else {
        VarReads(d, p, ws[0], bs[0], VarsBytes(ws[1..]));
        var r := Var(d, p);
        if LongNull(ws[0]) {
          assert Vars(d, r.at, |d|, before + [r.value]) == Got(before + [r.value], r.at);
        } else {
          VarsOutcome(d, r.at, ws[1..], bs[1..], before + [r.value]);
        }
      }
    }
  }

  lemma NoUnknown()
    ensures !HasUnknown([])
  {
  }

  lemma UnknownNotNull(w: WireVar)
    requires Unknown(w)
    ensures !LongNull(w)
  {
  }

  /** An encoding that is right in everything else is rejected if and only if its outer length is not that of the rest of
      the packet, its tag is not one of a trap of its kind, a length that the code compares with one octet is
      written otherwise, or a value that is read is of none of the seven types.  Nothing undefined happens. */
  lemma RejectedIff(w: Wire, m: Message)
    requires Nearly(w, m)
    ensures var r := Decode(WireBytes(w), |WireBytes(w)|);
            && !r.Undefined?
            && (r.Rejected? <==>
                  LengthOf(w.len) != |InnerBytes(w)| || !RightTag(w) || !PlainPdu(w.pdu)
                  || exists i :: 0 <= i < FirstLongNull(w.vars) && Unknown(w.vars[i]))
  {
    var d := WireBytes(w);
    EnvelopeOutcome(d, w, m);
    hide WireBytes, InnerBytes, RequestBytes, PduBytes, VarsBytes, Envelope, Request, V1Body, V2Body, Vars, ShowsBody, PlainPdu, LongNull,
         CarriesPdu, NearlyVars, CarriesNumber, CarriesText, Here, LengthOf, IsLengthForm, FirstLongNull, Unknown;
    if LengthOf(w.len) == |InnerBytes(w)| {
      var p := Envelope(d, |d|).at;
      RequestOutcome(d, p, w);
      if w.tag in {0xA4, 0xA6, 0xA7} {
        AfterRequest(d, Request(d, p).at, w, m);
      }
    }
  }

  lemma AfterRequest(d: seq<byte>, q: nat, w: Wire, m: Message)
    requires Nearly(w, m) && w.tag in {0xA4, 0xA6, 0xA7}
    requires Here(d, q, PduBytes(w.pdu, VarsBytes(w.vars))) && q + |PduBytes(w.pdu, VarsBytes(w.vars))| == |d|
    ensures var body := if w.tag == SNMP_V1TRAP then V1Body(d, q) else V2Body(d, q);
            if !RightTag(w) || !PlainPdu(w.pdu) then body == Rejected
            else body.Got? && (if HasUnknown(w.vars) then Vars(d, body.at, |d|, []) == Rejected else Vars(d, body.at, |d|, []).Got?)
  {
    hide PduBytes, VarsBytes, V1Body, V2Body, Vars, ShowsBody, LongNull, CarriesPdu, NearlyVars, CarriesNumber, CarriesText,
         Here, LengthOf, IsLengthForm, HasUnknown;
    PduKind(w.pdu, m.pdu);
    PduReads(d, q, w.pdu, m.pdu, VarsBytes(w.vars));
    WrongBranch(d, q, w.pdu, m.pdu, VarsBytes(w.vars));
    if RightTag(w) && PlainPdu(w.pdu) {
      var body := if w.tag == SNMP_V1TRAP then V1Body(d, q) else V2Body(d, q);
      VarsOutcome(d, body.at, w.vars, m.bindings, []);
    }
  }

  lemma PduKind(w: WirePdu, m: Pdu)
    requires CarriesPdu(w, m, false)
    ensures w.WireV1? <==> m.V1?
    ensures RequestTag(m) == SNMP_V1TRAP <==> w.WireV1?
  {
  }

  // ---- Another tag, another length ----

  lemma NearlyFrom(w: Wire, m: Message, len: seq<byte>, t: byte)
    requires Carries(w, m, true) && IsLengthForm(len) && LengthOf(len) < WORD32
    ensures |w.vars| == |m.bindings| && (w.pdu.WireV1? <==> m.pdu.V1?) && Nearly(w.(tag := t, len := len), Unsigned(w, m))
  {
    hide InnerBytes, RequestTag, CarriesNumber, CarriesPdu, CarriesText, CarriesVal, CarriesOid, IsLengthForm, LengthOf, Unsigned;
    SignDropped(w, m);
    var u := Unsigned(w, m);
    forall i | 0 <= i < |w.vars| ensures NearlyVar(w.vars[i], u.bindings[i]) {
      assert CarriesVar(w.vars[i], u.bindings[i], false);
    }
  }

  lemma NoneUnknown(ws: seq<WireVar>, bs: seq<Binding>)
    requires CarriesVars(ws, bs, true)
    ensures forall i :: 0 <= i < |ws| ==> !Unknown(ws[i])
  {
    hide IsLength, TwosComplement, Number, IsLengthForm, EncodeOid, Under13;
    forall i | 0 <= i < |ws| ensures !Unknown(ws[i]) {
      assert CarriesVar(ws[i], bs[i], true);
    }
  }

  /** A message's encoding with another tag for its request, or another outer length, is rejected exactly if the tag is not
      that of a trap of its kind or the length is not that of the rest of the packet: a GetRequest (A0), say,
      is. */
  lemma OtherTagOrLength(w: Wire, m: Message, len: seq<byte>, t: byte)
    requires Carries(w, m, true) && PlainPdu(w.pdu) && IsLengthForm(len) && LengthOf(len) < WORD32
    ensures var d := WireBytes(w.(tag := t, len := len));
            Decode(d, |d|).Rejected? <==>
              || LengthOf(len) != |InnerBytes(w)|
              || (if m.pdu.V1? then t != 0xA4 else t != 0xA6 && t != 0xA7)
  {
    NearlyFrom(w, m, len, t);
    NoneUnknown(w.vars, m.bindings);
    var w' := w.(tag := t, len := len);
    SameLength(w, w');
    hide WireBytes, InnerBytes, Decode, Nearly, Carries, PlainPdu, LengthOf, IsLengthForm, FirstLongNull, Unknown;
    RejectedIff(w', Unsigned(w, m));
  }

  lemma SameLength(w: Wire, w': Wire)
    requires w' == w.(tag := w'.tag, len := w'.len)
    ensures |InnerBytes(w')| == |InnerBytes(w)|
  {
  }
}
