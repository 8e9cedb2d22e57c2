/** Whole BGP messages: the header, OPEN with its capabilities, and the other types (tpt-bgp/src/wire.rs). */
module BgpMessages {
  import opened BigEndian
  import opened Wire
  import opened BgpTypes
  import opened BgpCodec
  import opened Sequences
  import opened Wrappers

  const AS_TRANS := 23456

  datatype Capability =
    | MultiProtocol(afi: u16, safi: byte)
    | As4(asn: u32)
    | UnknownCapability(code: byte, value: seq<byte>)

  datatype Open = Open(version: byte, asn: u32, holdTime: u16, id: Quad, capabilities: seq<Capability>)

  datatype Message =
    | OpenMessage(open: Open)
    | UpdateMessage(update: Update)
    | NotificationMessage(code: byte, subcode: byte, data: seq<byte>)
    | Keepalive

  // ----- Capabilities -----

  function EncodeCapability(c: Capability): (b: seq<byte>)
  {
    match c
    case MultiProtocol(afi, safi) => [1] + PutVector(BeBytes(afi, 2) + [0, safi], 1)
    case As4(asn) => [65] + PutVector(BeBytes(asn, 4), 1)
    case UnknownCapability(code, value) => [code] + PutVector(value, 1)
  }

  function InterpretCapability(code: byte, v: seq<byte>): (r: Result<Capability, Error>)
  {
    if code == 1 then
      if |v| < 4 then Failure(MalformedCapability(code)) else Success(MultiProtocol(TakeU16(v).value, v[3]))
    else if code == 65 then
      if |v| < 4 then Failure(MalformedCapability(code)) else Success(As4(TakeU32(v).value))
    else Success(UnknownCapability(code, v))
  }

  function ParseCapability(s: seq<byte>): (r: Parsed<Capability>)
    ensures r.Ok? ==> |r.rest| < |s|
  {
    var code := TakeByte(s);
    if code.Err? then Err(code.error) else
    var v := TakeVector(code.rest, 1);
    if v.Err? then Err(v.error) else
    var c := InterpretCapability(code.value, v.value);
    if c.Failure? then Err(c.error) else Ok(c.value, v.rest)
  }

  predicate CapabilityOk(c: Capability)
  {
    c.UnknownCapability? ==> c.code != 1 && c.code != 65 && |c.value| <= 255
  }

  lemma CapabilityFields(code: byte, v: seq<byte>, rest: seq<byte>, c: Capability)
    requires |v| <= 255 && InterpretCapability(code, v) == Success(c)
    ensures ParseCapability([code] + PutVector(v, 1) + rest) == Ok(c, rest)
  {
    Joined([code], PutVector(v, 1), rest);
    ByteParses(code, PutVector(v, 1) + rest);
    Pow256Values();
    VectorParses(v, 1, rest);
  }

  lemma CapabilityParses(c: Capability, rest: seq<byte>)
    requires CapabilityOk(c)
    ensures ParseCapability(EncodeCapability(c) + rest) == Ok(c, rest)
  {
    match c
    case MultiProtocol(afi, safi) =>
      U16Parses(afi, [0, safi]);
      CapabilityFields(1, BeBytes(afi, 2) + [0, safi], rest, c);
    case As4(asn) =>
      U32Parses(asn, []);
      assert BeBytes(asn, 4) + [] == BeBytes(asn, 4);
      CapabilityFields(65, BeBytes(asn, 4), rest, c);
    case UnknownCapability(code, value) => CapabilityFields(code, value, rest, c);
  }

  predicate CapabilitiesOk(cs: seq<Capability>)
  {
    forall i :: 0 <= i < |cs| ==> CapabilityOk(cs[i])
  }

  lemma CapabilitiesParse(cs: seq<Capability>)
    requires CapabilitiesOk(cs)
    ensures Many(ParseCapability, Concat(EncodeCapability, cs), []) == Ok(cs, [])
  {
    forall i | 0 <= i < |cs| ensures Reads(ParseCapability, EncodeCapability, cs[i]) {
      forall rest ensures ParseCapability(EncodeCapability(cs[i]) + rest) == Ok(cs[i], rest) {
        CapabilityParses(cs[i], rest);
      }
    }
    ManyReadsAll(ParseCapability, EncodeCapability, cs);
  }

  // ----- OPEN -----

  function FirstAs4(cs: seq<Capability>): (r: Option<u32>)
  {
    if cs == [] then None else if cs[0].As4? then Some(cs[0].asn) else FirstAs4(cs[1..])
  }

  /** The ASN the receiver believes: the first As4 capability, or else the two-octet field. */
  function EffectiveAsn(cs: seq<Capability>, short: u16): (asn: u32)
  {
    var listed := FirstAs4(cs);
    if listed.Some? then listed.value else short
  }

  predicate WantsAs4(o: Open, as4: bool)
  {
    as4 || FirstAs4(o.capabilities).Some?
  }

  function TwoByteAs(o: Open, as4: bool): (n: u16)
  {
    if o.asn <= 0xffff && !WantsAs4(o, as4) then o.asn else AS_TRANS
  }

  /** The sender adds its real ASN as a capability when four-octet ASNs are in use and none is listed. */
  function SentCapabilities(o: Open, as4: bool): (cs: seq<Capability>)
  {
    if as4 && FirstAs4(o.capabilities).None? then o.capabilities + [As4(o.asn)] else o.capabilities
  }

  function EncodeOpen(o: Open, as4: bool): (b: seq<byte>)
  {
    [o.version] + (BeBytes(TwoByteAs(o, as4), 2) + (BeBytes(o.holdTime, 2)
    + (o.id + PutVector(Concat(EncodeCapability, SentCapabilities(o, as4)), 1))))
  }

  function ParseOpen(s: seq<byte>): (r: Result<Open, Error>)
  {
    var version := TakeByte(s);
    if version.Err? then Failure(version.error) else
    if version.value != 4 then Failure(UnsupportedVersion(version.value)) else
    var short := TakeU16(version.rest);
    if short.Err? then Failure(short.error) else
    var hold := TakeU16(short.rest);
    if hold.Err? then Failure(hold.error) else
    var id := TakeBytes(hold.rest, 4);
    if id.Err? then Failure(id.error) else
    ParseParameters(short.value, hold.value, id.value, id.rest)
  }

  function ParseParameters(short: u16, hold: u16, id: Quad, s: seq<byte>): (r: Result<Open, Error>)
  {
    var params := TakeVector(s, 1);
    if params.Err? then Failure(params.error) else
    var cs := Many(ParseCapability, params.value, []);
    if cs.Err? then Failure(cs.error) else
    Success(Open(4, EffectiveAsn(cs.value, short), hold, id, cs.value))
  }

  /** What the peer understands of an OPEN. */
  function Received(o: Open, as4: bool): (r: Open)
  {
    var cs := SentCapabilities(o, as4);
    Open(4, EffectiveAsn(cs, TwoByteAs(o, as4)), o.holdTime, o.id, cs)
  }

  predicate OpenOk(o: Open, as4: bool)
  {
    o.version == 4 && CapabilitiesOk(o.capabilities) && |Concat(EncodeCapability, SentCapabilities(o, as4))| <= 255
  }

  lemma OpenParses(o: Open, as4: bool)
    requires OpenOk(o, as4)
    ensures ParseOpen(EncodeOpen(o, as4)) == Success(Received(o, as4))
  {
    var cs := SentCapabilities(o, as4);
    var tail := PutVector(Concat(EncodeCapability, cs), 1);
    ByteParses(o.version, BeBytes(TwoByteAs(o, as4), 2) + (BeBytes(o.holdTime, 2) + (o.id + tail)));
    U16Parses(TwoByteAs(o, as4), BeBytes(o.holdTime, 2) + (o.id + tail));
    U16Parses(o.holdTime, o.id + tail);
    BytesParse(o.id, tail);
    ParametersParse(TwoByteAs(o, as4), o.holdTime, o.id, cs);
  }

  lemma ParametersParse(short: u16, hold: u16, id: Quad, cs: seq<Capability>)
    requires CapabilitiesOk(cs) && |Concat(EncodeCapability, cs)| <= 255
    ensures ParseParameters(short, hold, id, PutVector(Concat(EncodeCapability, cs), 1))
         == Success(Open(4, EffectiveAsn(cs, short), hold, id, cs))
  {
    var list := Concat(EncodeCapability, cs);
    Pow256Values();
    VectorParses(list, 1, []);
    assert PutVector(list, 1) + [] == PutVector(list, 1);
    CapabilitiesParse(cs);
  }

  lemma {:induction false} FirstAs4Appended(cs: seq<Capability>, asn: u32)
    requires FirstAs4(cs).None?
    ensures FirstAs4(cs + [As4(asn)]) == Some(asn)
  {
    if cs != [] {
      assert (cs + [As4(asn)])[1..] == cs[1..] + [As4(asn)];
      FirstAs4Appended(cs[1..], asn);
    }
  }

  /** In a four-octet session that lists no As4 capability of its own, the real ASN always arrives. */
  lemma RealAsnArrives(o: Open)
    requires FirstAs4(o.capabilities).None?
    ensures Received(o, true).asn == o.asn
  {
    FirstAs4Appended(o.capabilities, o.asn);
  }

  /** An OPEN survives the trip exactly when its As4 capability, or its two-octet form, tells its ASN. */
  lemma OpenRoundTripIff(o: Open, as4: bool)
    requires OpenOk(o, as4)
    ensures ParseOpen(EncodeOpen(o, as4)) == Success(o)
            <==> match FirstAs4(o.capabilities)
                 case Some(a) => a == o.asn
                 case None => !as4 && (o.asn <= 0xffff)
  {
    OpenParses(o, as4);
    if as4 && FirstAs4(o.capabilities).None? {
      assert |SentCapabilities(o, as4)| == |o.capabilities| + 1;
    }
  }

  // ----- Messages -----

  const MARKER: Hexadecet :=
    [0xff, 0xff, 0xff, 0xff, 0xff, 0xff, 0xff, 0xff, 0xff, 0xff, 0xff, 0xff, 0xff, 0xff, 0xff, 0xff]

  function Body(m: Message, as4: bool): (b: seq<byte>)
  {
    match m
    case OpenMessage(o) => EncodeOpen(o, as4)
    case UpdateMessage(u) => EncodeUpdate(u, as4)
    case NotificationMessage(code, subcode, data) => [code] + ([subcode] + data)
    case Keepalive => []
  }

  function MessageType(m: Message): (t: byte)
  {
    match m
    case OpenMessage(_) => 1
    case UpdateMessage(_) => 2
    case NotificationMessage(_, _, _) => 3
    case Keepalive => 4
  }

  function Frame(t: byte, body: seq<byte>): (b: seq<byte>)
  {
    MARKER + (BeBytes(19 + |body|, 2) + ([t] + body))
  }

  function EncodeMessage(m: Message, as4: bool): (b: seq<byte>)
  {
    Frame(MessageType(m), Body(m, as4))
  }

  function ParseNotification(s: seq<byte>): (r: Result<Message, Error>)
  {
    var code := TakeByte(s);
    if code.Err? then Failure(code.error) else
    var subcode := TakeByte(code.rest);
    if subcode.Err? then Failure(subcode.error)
    else Success(NotificationMessage(code.value, subcode.value, subcode.rest))
  }

  function ParseBody(t: byte, body: seq<byte>, as4: bool): (r: Result<Message, Error>)
  {
    if t == 1 then
      var o := ParseOpen(body);
      if o.Failure? then Failure(o.error) else Success(OpenMessage(o.value))
    else if t == 2 then
      var u := ParseUpdate(body, as4);
      if u.Failure? then Failure(u.error) else Success(UpdateMessage(u.value))
    else if t == 3 then ParseNotification(body)
    else if t == 4 then Success(Keepalive)
    else Failure(UnknownType(t))
  }

  /** The marker is not looked at. */
  function DecodeMessage(s: seq<byte>, as4: bool): (r: Result<Message, Error>)
  {
    if |s| < 19 then Failure(Truncated)
    else
      var declared := BeVal(s[16..18]);
      if declared < 19 || declared != |s| then Failure(LengthMismatch)
      else ParseBody(s[18], s[19..], as4)
  }

  /** Messages that differ in their first sixteen bytes only are decoded alike. */
  lemma MarkerIgnored(s: seq<byte>, t: seq<byte>, as4: bool)
    requires |s| >= 16 && |t| >= 16 && s[16..] == t[16..]
    ensures DecodeMessage(s, as4) == DecodeMessage(t, as4)
  {
    if |s| >= 19 {
      var u := s[16..];
      assert s[16..18] == u[..2] == t[16..18] && s[18] == u[2] == t[18] && s[19..] == u[3..] == t[19..];
    }
  }

  lemma FrameParses(t: byte, body: seq<byte>, as4: bool)
    requires 19 + |body| < 0x1_0000
    ensures DecodeMessage(Frame(t, body), as4) == ParseBody(t, body, as4)
  {
    var s, len := Frame(t, body), BeBytes(19 + |body|, 2);
    Pow256Values();
    BeValBytes(19 + |body|, 2);
    assert s[16..18] == len;
    assert s[19..] == body;
  }

  predicate MessageOk(m: Message, as4: bool)
  {
    && 19 + |Body(m, as4)| < 0x1_0000
    && (m.OpenMessage? ==> OpenOk(m.open, as4))
    && (m.UpdateMessage? ==> UpdateOk(m.update, as4))
  }

  /** Decoding an encoded message returns it; for an OPEN, what the peer understands of it. */
  lemma MessageRoundTrip(m: Message, as4: bool)
    requires MessageOk(m, as4)
    ensures DecodeMessage(EncodeMessage(m, as4), as4)
         == Success(if m.OpenMessage? then OpenMessage(Received(m.open, as4)) else m)
  {
    FrameParses(MessageType(m), Body(m, as4), as4);
    BodyParses(m, as4);
  }

  lemma BodyParses(m: Message, as4: bool)
    requires MessageOk(m, as4)
    ensures ParseBody(MessageType(m), Body(m, as4), as4)
         == Success(if m.OpenMessage? then OpenMessage(Received(m.open, as4)) else m)
  {
    match m
    case OpenMessage(o) => OpenParses(o, as4);
    case UpdateMessage(u) => UpdateRoundTrip(u, as4);
    case NotificationMessage(code, subcode, data) =>
      ByteParses(code, [subcode] + data);
      ByteParses(subcode, data);
    case Keepalive =>
  }
}
