/**
 The encodings of the handshake messages of tpt-dtls/src/handshake.rs, what the parsers make of bytes,
 and that parsing undoes encoding: this is what lets a receiver re-encode what it parsed.
 */
module DtlsCodec {
  import opened BigEndian
  import opened Wire
  import opened DtlsTypes
  import opened Sequences
  import opened Wrappers

  // ----- Lists -----

  function PutU16(x: u16): (b: seq<byte>)
    ensures |b| == 2
  {
    BeBytes(x, 2)
  }

  lemma U16sParse(xs: seq<u16>)
    ensures Many(TakeU16, Concat(PutU16, xs), []) == Ok(xs, [])
  {
    forall i | 0 <= i < |xs| ensures Reads(TakeU16, PutU16, xs[i]) {
      forall rest ensures TakeU16(PutU16(xs[i]) + rest) == Ok(xs[i], rest) { U16Parses(xs[i], rest); }
    }
    ManyReadsAll(TakeU16, PutU16, xs);
  }

  /** A list of numbers after its length in bytes. */
  function PutU16s(xs: seq<u16>): (b: seq<byte>)
  {
    PutVector(Concat(PutU16, xs), 2)
  }

  function ParseU16s(s: seq<byte>): (r: Parsed<seq<u16>>)
  {
    var list := TakeVector(s, 2);
    if list.Err? then Err(list.error) else
    var xs := Many(TakeU16, list.value, []);
    if xs.Err? then Err(xs.error) else Ok(xs.value, list.rest)
  }

  lemma U16sRoundTrip(xs: seq<u16>, rest: seq<byte>)
    requires |Concat(PutU16, xs)| < 0x1_0000
    ensures ParseU16s(PutU16s(xs) + rest) == Ok(xs, rest)
  {
    Pow256Values();
    VectorParses(Concat(PutU16, xs), 2, rest);
    U16sParse(xs);
  }

  function PutShare(e: Share): (b: seq<byte>)
  {
    BeBytes(e.group, 2) + PutVector(e.key, 2)
  }

  function ParseShare(s: seq<byte>): (r: Parsed<Share>)
    ensures r.Ok? ==> |r.rest| < |s|
  {
    var group := TakeU16(s);
    if group.Err? then Err(group.error) else
    var key := TakeVector(group.rest, 2);
    if key.Err? then Err(key.error) else Ok(Share(group.value, key.value), key.rest)
  }

  lemma TaggedVectorParses(x: u16, v: seq<byte>, rest: seq<byte>)
    requires |v| < 0x1_0000
    ensures TakeU16(BeBytes(x, 2) + PutVector(v, 2) + rest) == Ok(x, PutVector(v, 2) + rest)
    ensures TakeVector(PutVector(v, 2) + rest, 2) == Ok(v, rest)
  {
    Joined(BeBytes(x, 2), PutVector(v, 2), rest);
    U16Parses(x, PutVector(v, 2) + rest);
    Pow256Values();
    VectorParses(v, 2, rest);
  }

  lemma SharesParse(es: seq<Share>)
    requires forall i :: 0 <= i < |es| ==> |es[i].key| < 0x1_0000
    ensures Many(ParseShare, Concat(PutShare, es), []) == Ok(es, [])
  {
    forall i | 0 <= i < |es| ensures Reads(ParseShare, PutShare, es[i]) {
      forall rest ensures ParseShare(PutShare(es[i]) + rest) == Ok(es[i], rest) {
        TaggedVectorParses(es[i].group, es[i].key, rest);
      }
    }
    ManyReadsAll(ParseShare, PutShare, es);
  }

  // ----- Extensions -----

  function PutExtension(x: Extension): (b: seq<byte>)
  {
    BeBytes(x.kind, 2) + PutVector(x.data, 2)
  }

  function ParseExtension(s: seq<byte>): (r: Parsed<Extension>)
    ensures r.Ok? ==> |r.rest| < |s|
  {
    var kind := TakeU16(s);
    if kind.Err? then Err(kind.error) else
    var data := TakeVector(kind.rest, 2);
    if data.Err? then Err(data.error) else Ok(Extension(kind.value, data.value), data.rest)
  }

  function PutExtensions(xs: seq<Extension>): (b: seq<byte>)
  {
    PutVector(Concat(PutExtension, xs), 2)
  }

  function ParseExtensions(s: seq<byte>): (r: Parsed<seq<Extension>>)
  {
    var list := TakeVector(s, 2);
    if list.Err? then Err(list.error) else
    var xs := Many(ParseExtension, list.value, []);
    if xs.Err? then Err(xs.error) else Ok(xs.value, list.rest)
  }

  predicate ExtensionsOk(xs: seq<Extension>)
  {
    |Concat(PutExtension, xs)| < 0x1_0000 && forall i :: 0 <= i < |xs| ==> |xs[i].data| < 0x1_0000
  }

  lemma ExtensionReads(x: Extension)
    requires |x.data| < 0x1_0000
    ensures Reads(ParseExtension, PutExtension, x)
  {
    forall rest ensures ParseExtension(PutExtension(x) + rest) == Ok(x, rest) {
      TaggedVectorParses(x.kind, x.data, rest);
    }
  }

  lemma ExtensionsParse(xs: seq<Extension>, rest: seq<byte>)
    requires ExtensionsOk(xs)
    ensures ParseExtensions(PutExtensions(xs) + rest) == Ok(xs, rest)
  {
    Pow256Values();
    VectorParses(Concat(PutExtension, xs), 2, rest);
    forall i | 0 <= i < |xs| ensures Reads(ParseExtension, PutExtension, xs[i]) { ExtensionReads(xs[i]); }
    ManyReadsAll(ParseExtension, PutExtension, xs);
  }

  /** The first extension of a kind. */
  function Find(xs: seq<Extension>, kind: u16): (r: Option<seq<byte>>)
  {
    if xs == [] then None else if xs[0].kind == kind then Some(xs[0].data) else Find(xs[1..], kind)
  }

  function Optional(kind: u16, data: Option<seq<byte>>): (xs: seq<Extension>)
  {
    if data.None? then [] else [Extension(kind, data.value)]
  }

  lemma {:induction false} FindJoined(a: seq<Extension>, b: seq<Extension>, kind: u16)
    ensures Find(a + b, kind) == if Find(a, kind).Some? then Find(a, kind) else Find(b, kind)
  {
    if a == [] {
      assert a + b == b;
    } else {
      assert (a + b)[1..] == a[1..] + b;
      FindJoined(a[1..], b, kind);
    }
  }

  lemma FindOptional(kind: u16, data: Option<seq<byte>>, wanted: u16)
    ensures Find(Optional(kind, data), wanted) == if kind == wanted then data else None
  {}

  /** A list ending in two optional extensions of different kinds. */
  lemma FindTail(head: seq<Extension>, kind: u16, data: Option<seq<byte>>, other: u16, more: Option<seq<byte>>)
    requires kind != other && Find(head, kind).None? && Find(head, other).None?
    ensures var xs := head + (Optional(kind, data) + Optional(other, more));
            Find(xs, kind) == data && Find(xs, other) == more
  {
    var tail := Optional(kind, data) + Optional(other, more);
    FindJoined(head, tail, kind);
    FindJoined(head, tail, other);
    FindJoined(Optional(kind, data), Optional(other, more), kind);
    FindJoined(Optional(kind, data), Optional(other, more), other);
    FindOptional(kind, data, kind);
    FindOptional(kind, data, other);
    FindOptional(other, more, kind);
    FindOptional(other, more, other);
  }

  // ----- ClientHello -----

  function ClientExtensions(c: ClientHello): (xs: seq<Extension>)
  {
    [Extension(SUPPORTED_VERSIONS, PutVector(BeBytes(DTLS_1_3, 2), 2)),
     Extension(SUPPORTED_GROUPS, PutU16s(c.groups)),
     Extension(SIGNATURE_ALGORITHMS, PutU16s(c.sigAlgs)),
     Extension(KEY_SHARE, PutVector(Concat(PutShare, c.shares), 2))]
    + (Optional(COOKIE, c.cookie) + Optional(CONNECTION_ID, c.cid))
  }

  function EncodeClientHello(c: ClientHello): (b: seq<byte>)
  {
    BeBytes(LEGACY_VERSION, 2) + (c.random + (PutVector(c.sessionId, 1)
    + (PutU16s(c.suites) + (PutVector([0], 1) + PutExtensions(ClientExtensions(c))))))
  }

  /** An absent list is empty; a present one must parse. */
  function U16sOf(data: Option<seq<byte>>): (r: Result<seq<u16>, Error>)
  {
    if data.None? then Success([]) else
    var xs := ParseU16s(data.value);
    if xs.Err? then Failure(xs.error) else Success(xs.value)
  }

  function SharesOf(data: Option<seq<byte>>): (r: Result<seq<Share>, Error>)
  {
    if data.None? then Success([]) else
    var list := TakeVector(data.value, 2);
    if list.Err? then Failure(list.error) else
    var es := Many(ParseShare, list.value, []);
    if es.Err? then Failure(es.error) else Success(es.value)
  }

  function CidOf(data: Option<seq<byte>>): (r: Result<Option<seq<byte>>, Error>)
  {
    if data.Some? && |data.value| > 255 then Failure(ConnectionIdTooLong) else Success(data)
  }

  function InterpretClient(random: Random, sid: seq<byte>, suites: seq<u16>, xs: seq<Extension>): (r: Result<Body, Error>)
  {
    var groups := U16sOf(Find(xs, SUPPORTED_GROUPS));
    if groups.Failure? then Failure(groups.error) else
    var sigAlgs := U16sOf(Find(xs, SIGNATURE_ALGORITHMS));
    if sigAlgs.Failure? then Failure(sigAlgs.error) else
    var shares := SharesOf(Find(xs, KEY_SHARE));
    if shares.Failure? then Failure(shares.error) else
    var cid := CidOf(Find(xs, CONNECTION_ID));
    if cid.Failure? then Failure(cid.error) else
    Success(ClientHelloBody(ClientHello(random, sid, suites, groups.value, sigAlgs.value, shares.value,
                                        Find(xs, COOKIE), cid.value)))
  }

  function ParseClientTail(random: Random, sid: seq<byte>, s: seq<byte>): (r: Result<Body, Error>)
  {
    var suites := ParseU16s(s);
    if suites.Err? then Failure(suites.error) else
    var compression := TakeVector(suites.rest, 1);
    if compression.Err? then Failure(compression.error) else
    var xs := ParseExtensions(compression.rest);
    if xs.Err? then Failure(xs.error) else InterpretClient(random, sid, suites.value, xs.value)
  }

  function ParseClientHello(s: seq<byte>): (r: Result<Body, Error>)
  {
    var version := TakeU16(s);
    if version.Err? then Failure(version.error) else
    var random := TakeBytes(version.rest, 32);
    if random.Err? then Failure(random.error) else
    var sid := TakeVector(random.rest, 1);
    if sid.Err? then Failure(sid.error) else ParseClientTail(random.value, sid.value, sid.rest)
  }

  predicate ClientHelloOk(c: ClientHello)
  {
    && |c.sessionId| <= 255 && |Concat(PutU16, c.suites)| < 0x1_0000
    && |Concat(PutU16, c.groups)| < 0x1_0000 && |Concat(PutU16, c.sigAlgs)| < 0x1_0000
    && |Concat(PutShare, c.shares)| < 0x1_0000 && (forall i :: 0 <= i < |c.shares| ==> |c.shares[i].key| < 0x1_0000)
    && ExtensionsOk(ClientExtensions(c)) && (c.cid.Some? ==> |c.cid.value| <= 255)
  }

  lemma FindFixed(a: Extension, b: Extension, c: Extension, d: Extension, kind: u16)
    ensures Find([a, b, c, d], kind)
         == if a.kind == kind then Some(a.data) else if b.kind == kind then Some(b.data)
            else if c.kind == kind then Some(c.data) else if d.kind == kind then Some(d.data) else None
  {
    assert [a, b, c, d][1..] == [b, c, d] && [b, c, d][1..] == [c, d] && [c, d][1..] == [d] && [d][1..] == [];
    assert Find([d], kind) == if d.kind == kind then Some(d.data) else None;
    assert Find([c, d], kind) == if c.kind == kind then Some(c.data) else Find([d], kind);
  }

  lemma ClientExtensionsFound(c: ClientHello)
    ensures Find(ClientExtensions(c), SUPPORTED_GROUPS) == Some(PutU16s(c.groups))
    ensures Find(ClientExtensions(c), SIGNATURE_ALGORITHMS) == Some(PutU16s(c.sigAlgs))
    ensures Find(ClientExtensions(c), KEY_SHARE) == Some(PutVector(Concat(PutShare, c.shares), 2))
    ensures Find(ClientExtensions(c), COOKIE) == c.cookie
    ensures Find(ClientExtensions(c), CONNECTION_ID) == c.cid
  {
    var versions := Extension(SUPPORTED_VERSIONS, PutVector(BeBytes(DTLS_1_3, 2), 2));
    var groups, algs := Extension(SUPPORTED_GROUPS, PutU16s(c.groups)), Extension(SIGNATURE_ALGORITHMS, PutU16s(c.sigAlgs));
    var shares := Extension(KEY_SHARE, PutVector(Concat(PutShare, c.shares), 2));
    var head, tail := [versions, groups, algs, shares], Optional(COOKIE, c.cookie) + Optional(CONNECTION_ID, c.cid);
    forall kind ensures Find(head, kind) == if kind == SUPPORTED_VERSIONS then Some(versions.data)
                                            else if kind == SUPPORTED_GROUPS then Some(groups.data)
                                            else if kind == SIGNATURE_ALGORITHMS then Some(algs.data)
                                            else if kind == KEY_SHARE then Some(shares.data) else None {
      FindFixed(versions, groups, algs, shares, kind);
    }
    FindJoined(head, tail, SUPPORTED_GROUPS);
    FindJoined(head, tail, SIGNATURE_ALGORITHMS);
    FindJoined(head, tail, KEY_SHARE);
    FindTail(head, COOKIE, c.cookie, CONNECTION_ID, c.cid);
  }

  lemma U16sFound(xs: seq<u16>)
    requires |Concat(PutU16, xs)| < 0x1_0000
    ensures U16sOf(Some(PutU16s(xs))) == Success(xs)
  {
    U16sRoundTrip(xs, []);
    assert PutU16s(xs) + [] == PutU16s(xs);
  }

  lemma SharesFound(es: seq<Share>)
    requires |Concat(PutShare, es)| < 0x1_0000 && forall i :: 0 <= i < |es| ==> |es[i].key| < 0x1_0000
    ensures SharesOf(Some(PutVector(Concat(PutShare, es), 2))) == Success(es)
  {
    var v := Concat(PutShare, es);
    Pow256Values();
    VectorParses(v, 2, []);
    assert PutVector(v, 2) + [] == PutVector(v, 2);
    SharesParse(es);
  }

  lemma ClientInterpreted(c: ClientHello)
    requires ClientHelloOk(c)
    ensures InterpretClient(c.random, c.sessionId, c.suites, ClientExtensions(c)) == Success(ClientHelloBody(c))
  {
    ClientExtensionsFound(c);
    U16sFound(c.groups);
    U16sFound(c.sigAlgs);
    SharesFound(c.shares);
  }

  lemma ClientTailParses(c: ClientHello)
    requires ClientHelloOk(c)
    ensures ParseClientTail(c.random, c.sessionId, PutU16s(c.suites) + (PutVector([0], 1) + PutExtensions(ClientExtensions(c))))
         == Success(ClientHelloBody(c))
  {
    var xs := ClientExtensions(c);
    U16sRoundTrip(c.suites, PutVector([0], 1) + PutExtensions(xs));
    Pow256Values();
    VectorParses([0], 1, PutExtensions(xs));
    ExtensionsParse(xs, []);
    assert PutExtensions(xs) + [] == PutExtensions(xs);
    ClientInterpreted(c);
  }

  lemma ClientHelloParses(c: ClientHello)
    requires ClientHelloOk(c)
    ensures ParseClientHello(EncodeClientHello(c)) == Success(ClientHelloBody(c))
  {
    var tail := PutU16s(c.suites) + (PutVector([0], 1) + PutExtensions(ClientExtensions(c)));
    U16Parses(LEGACY_VERSION, c.random + (PutVector(c.sessionId, 1) + tail));
    BytesParse(c.random, PutVector(c.sessionId, 1) + tail);
    Pow256Values();
    VectorParses(c.sessionId, 1, tail);
    ClientTailParses(c);
  }

  // ----- ServerHello -----

  function ShareData(share: Option<Share>): (r: Option<seq<byte>>)
  {
    if share.None? then None else Some(PutShare(share.value))
  }

  function ServerExtensions(h: ServerHello): (xs: seq<Extension>)
  {
    ([Extension(SUPPORTED_VERSIONS, BeBytes(DTLS_1_3, 2))] + Optional(KEY_SHARE, ShareData(h.share)))
    + (Optional(CONNECTION_ID, h.cid) + Optional(COOKIE, h.cookie))
  }

  function EncodeServerHello(h: ServerHello): (b: seq<byte>)
  {
    BeBytes(LEGACY_VERSION, 2) + (h.random + (PutVector(h.sessionId, 1)
    + (BeBytes(h.suite, 2) + ([0] + PutExtensions(ServerExtensions(h))))))
  }

  function ShareOf(data: Option<seq<byte>>): (r: Result<Option<Share>, Error>)
  {
    if data.None? then Success(None) else
    var e := ParseShare(data.value);
    if e.Err? then Failure(e.error) else Success(Some(e.value))
  }

  function InterpretServer(random: Random, sid: seq<byte>, suite: u16, xs: seq<Extension>): (r: Result<Body, Error>)
  {
    var share := ShareOf(Find(xs, KEY_SHARE));
    if share.Failure? then Failure(share.error) else
    var cid := CidOf(Find(xs, CONNECTION_ID));
    if cid.Failure? then Failure(cid.error) else
    Success(ServerHelloBody(ServerHello(random, sid, suite, share.value, cid.value, Find(xs, COOKIE))))
  }

  function ParseServerTail(random: Random, sid: seq<byte>, s: seq<byte>): (r: Result<Body, Error>)
  {
    var suite := TakeU16(s);
    if suite.Err? then Failure(suite.error) else
    var compression := TakeByte(suite.rest);
    if compression.Err? then Failure(compression.error) else
    var xs := ParseExtensions(compression.rest);
    if xs.Err? then Failure(xs.error) else InterpretServer(random, sid, suite.value, xs.value)
  }

  function ParseServerHello(s: seq<byte>): (r: Result<Body, Error>)
  {
    var version := TakeU16(s);
    if version.Err? then Failure(version.error) else
    var random := TakeBytes(version.rest, 32);
    if random.Err? then Failure(random.error) else
    var sid := TakeVector(random.rest, 1);
    if sid.Err? then Failure(sid.error) else ParseServerTail(random.value, sid.value, sid.rest)
  }

  predicate ServerHelloOk(h: ServerHello)
  {
    && |h.sessionId| <= 255 && ExtensionsOk(ServerExtensions(h))
    && (h.share.Some? ==> |h.share.value.key| < 0x1_0000) && (h.cid.Some? ==> |h.cid.value| <= 255)
  }

  lemma ServerExtensionsFound(h: ServerHello)
    ensures Find(ServerExtensions(h), KEY_SHARE) == ShareData(h.share)
    ensures Find(ServerExtensions(h), CONNECTION_ID) == h.cid
    ensures Find(ServerExtensions(h), COOKIE) == h.cookie
  {
    var versions, share := [Extension(SUPPORTED_VERSIONS, BeBytes(DTLS_1_3, 2))], Optional(KEY_SHARE, ShareData(h.share));
    var tail := Optional(CONNECTION_ID, h.cid) + Optional(COOKIE, h.cookie);
    forall kind ensures Find(versions + share, kind)
                     == if kind == SUPPORTED_VERSIONS then Some(BeBytes(DTLS_1_3, 2))
                        else if kind == KEY_SHARE then ShareData(h.share) else None {
      FindJoined(versions, share, kind);
      FindOptional(KEY_SHARE, ShareData(h.share), kind);
    }
    FindJoined(versions + share, tail, KEY_SHARE);
    FindJoined(Optional(CONNECTION_ID, h.cid), Optional(COOKIE, h.cookie), KEY_SHARE);
    FindTail(versions + share, CONNECTION_ID, h.cid, COOKIE, h.cookie);
  }

  lemma ServerInterpreted(h: ServerHello)
    requires ServerHelloOk(h)
    ensures InterpretServer(h.random, h.sessionId, h.suite, ServerExtensions(h)) == Success(ServerHelloBody(h))
  {
    ServerExtensionsFound(h);
    if h.share.Some? {
      var e := h.share.value;
      TaggedVectorParses(e.group, e.key, []);
      assert PutShare(e) + [] == PutShare(e);
      assert ParseShare(PutShare(e)) == Ok(e, []);
    }
  }

  lemma ServerTailParses(h: ServerHello)
    requires ServerHelloOk(h)
    ensures ParseServerTail(h.random, h.sessionId, BeBytes(h.suite, 2) + ([0] + PutExtensions(ServerExtensions(h))))
         == Success(ServerHelloBody(h))
  {
    var xs := ServerExtensions(h);
    U16Parses(h.suite, [0] + PutExtensions(xs));
    ByteParses(0, PutExtensions(xs));
    ExtensionsParse(xs, []);
    assert PutExtensions(xs) + [] == PutExtensions(xs);
    ServerInterpreted(h);
  }

  lemma ServerHelloParses(h: ServerHello)
    requires ServerHelloOk(h)
    ensures ParseServerHello(EncodeServerHello(h)) == Success(ServerHelloBody(h))
  {
    var tail := BeBytes(h.suite, 2) + ([0] + PutExtensions(ServerExtensions(h)));
    U16Parses(LEGACY_VERSION, h.random + (PutVector(h.sessionId, 1) + tail));
    BytesParse(h.random, PutVector(h.sessionId, 1) + tail);
    Pow256Values();
    VectorParses(h.sessionId, 1, tail);
    ServerTailParses(h);
  }

  // ----- The other bodies -----

  function EncodeCertificate(context: seq<byte>, certificate: seq<byte>): (b: seq<byte>)
  {
    PutVector(context, 1) + PutVector(PutVector(certificate, 3) + PutVector([], 2), 3)
  }

  function ParseCertificate(s: seq<byte>): (r: Result<Body, Error>)
  {
    var context := TakeVector(s, 1);
    if context.Err? then Failure(context.error) else
    var list := TakeVector(context.rest, 3);
    if list.Err? then Failure(list.error) else
    var certificate := TakeVector(list.value, 3);
    if certificate.Err? then Failure(certificate.error) else Success(CertificateBody(context.value, certificate.value))
  }

  lemma CertificateParses(context: seq<byte>, certificate: seq<byte>)
    requires |context| <= 255 && |certificate| + 5 < 0x100_0000
    ensures ParseCertificate(EncodeCertificate(context, certificate)) == Success(CertificateBody(context, certificate))
  {
    var entry := PutVector(certificate, 3) + PutVector([], 2);
    Pow256Values();
    VectorParses(context, 1, PutVector(entry, 3));
    VectorParses(entry, 3, []);
    assert PutVector(entry, 3) + [] == PutVector(entry, 3);
    VectorParses(certificate, 3, PutVector([], 2));
  }

  function ParseVerify(s: seq<byte>): (r: Result<Body, Error>)
  {
    var algorithm := TakeU16(s);
    if algorithm.Err? then Failure(algorithm.error) else
    var signature := TakeVector(algorithm.rest, 2);
    if signature.Err? then Failure(signature.error) else Success(VerifyBody(algorithm.value, signature.value))
  }

  lemma VerifyParses(algorithm: u16, signature: seq<byte>)
    requires |signature| < 0x1_0000
    ensures ParseVerify(BeBytes(algorithm, 2) + PutVector(signature, 2)) == Success(VerifyBody(algorithm, signature))
  {
    TaggedVectorParses(algorithm, signature, []);
    assert BeBytes(algorithm, 2) + PutVector(signature, 2) + [] == BeBytes(algorithm, 2) + PutVector(signature, 2);
  }

  // ----- Messages -----

  function TypeCode(b: Body): (c: byte)
  {
    match b
    case ClientHelloBody(_) => 1
    case ServerHelloBody(_) => 2
    case ExtensionsBody(_) => 8
    case CertificateBody(_, _) => 11
    case VerifyBody(_, _) => 15
    case FinishedBody(_) => 20
  }

  function EncodeBody(b: Body): (r: seq<byte>)
  {
    match b
    case ClientHelloBody(c) => EncodeClientHello(c)
    case ServerHelloBody(h) => EncodeServerHello(h)
    case ExtensionsBody(xs) => PutExtensions(xs)
    case CertificateBody(context, certificate) => EncodeCertificate(context, certificate)
    case VerifyBody(algorithm, signature) => BeBytes(algorithm, 2) + PutVector(signature, 2)
    case FinishedBody(v) => v
  }

  function ParseBody(code: byte, s: seq<byte>): (r: Result<Body, Error>)
  {
    if code == 1 then ParseClientHello(s)
    else if code == 2 then ParseServerHello(s)
    else if code == 8 then
      var xs := ParseExtensions(s);
      if xs.Err? then Failure(xs.error) else Success(ExtensionsBody(xs.value))
    else if code == 11 then ParseCertificate(s)
    else if code == 15 then ParseVerify(s)
    else if code == 20 then Success(FinishedBody(s))
    else Failure(UnknownType(code))
  }

  predicate BodyOk(b: Body)
  {
    match b
    case ClientHelloBody(c) => ClientHelloOk(c)
    case ServerHelloBody(h) => ServerHelloOk(h)
    case ExtensionsBody(xs) => ExtensionsOk(xs)
    case CertificateBody(context, certificate) => |context| <= 255 && |certificate| + 5 < 0x100_0000
    case VerifyBody(_, signature) => |signature| < 0x1_0000
    case FinishedBody(_) => true
  }

  lemma BodyParses(b: Body)
    requires BodyOk(b)
    ensures ParseBody(TypeCode(b), EncodeBody(b)) == Success(b)
  {
    var s := EncodeBody(b);
    match b
    case ClientHelloBody(c) => assert ParseClientHello(s) == Success(b) by { ClientHelloParses(c); }
    case ServerHelloBody(h) => assert ParseServerHello(s) == Success(b) by { ServerHelloParses(h); }
    case ExtensionsBody(xs) =>
      assert ParseExtensions(s) == Ok(xs, []) by {
        ExtensionsParse(xs, []);
        assert s + [] == s;
      }
    case CertificateBody(context, certificate) =>
      assert ParseCertificate(s) == Success(b) by { CertificateParses(context, certificate); }
    case VerifyBody(algorithm, signature) =>
      assert ParseVerify(s) == Success(b) by { VerifyParses(algorithm, signature); }
    case FinishedBody(_) =>
  }

  // ----- Framing -----

  /** The twelve header bytes: type, length, message_seq, fragment offset and length. Lengths keep their low 24 bits. */
  datatype Header = Header(code: byte, total: nat, seqNo: u16, offset: nat, length: nat)

  function PutHeader(h: Header): (b: seq<byte>)
    ensures |b| == 12
  {
    [h.code] + (BeBytes(h.total, 3) + (BeBytes(h.seqNo, 2) + (BeBytes(h.offset, 3) + BeBytes(h.length, 3))))
  }

  function ParseHeader(s: seq<byte>): (r: Parsed<Header>)
    ensures r.Ok? ==> |r.rest| + 12 == |s|
  {
    var code := TakeByte(s);
    if code.Err? then Err(code.error) else
    var total := TakeNumber(code.rest, 3);
    if total.Err? then Err(total.error) else
    var seqNo := TakeU16(total.rest);
    if seqNo.Err? then Err(seqNo.error) else
    var offset := TakeNumber(seqNo.rest, 3);
    if offset.Err? then Err(offset.error) else
    var length := TakeNumber(offset.rest, 3);
    if length.Err? then Err(length.error)
    else Ok(Header(code.value, total.value, seqNo.value, offset.value, length.value), length.rest)
  }

  lemma HeaderParses(h: Header, rest: seq<byte>)
    requires h.total < 0x100_0000 && h.offset < 0x100_0000 && h.length < 0x100_0000
    ensures ParseHeader(PutHeader(h) + rest) == Ok(h, rest)
  {
    var last := BeBytes(h.length, 3);
    var tail := BeBytes(h.offset, 3) + last;
    var seqNo := BeBytes(h.seqNo, 2);
    Pow256Values();
    assert PutHeader(h) + rest == [h.code] + (BeBytes(h.total, 3) + (seqNo + (BeBytes(h.offset, 3) + (last + rest))));
    ByteParses(h.code, BeBytes(h.total, 3) + (seqNo + (BeBytes(h.offset, 3) + (last + rest))));
    NumberParses(h.total, 3, seqNo + (BeBytes(h.offset, 3) + (last + rest)));
    U16Parses(h.seqNo, BeBytes(h.offset, 3) + (last + rest));
    NumberParses(h.offset, 3, last + rest);
    NumberParses(h.length, 3, rest);
  }

  predicate KnownCode(code: byte)
  {
    code == 1 || code == 2 || code == 8 || code == 11 || code == 15 || code == 20
  }

  /** A whole message, unfragmented. */
  function Encode(m: Message): (b: seq<byte>)
  {
    var body := EncodeBody(m.body);
    PutHeader(Header(TypeCode(m.body), |body|, m.seqNo, 0, |body|)) + body
  }

  /** The header and the bytes of its fragment. */
  datatype Frame = Frame(header: Header, bytes: seq<byte>)

  function Unframe(s: seq<byte>): (r: Result<Frame, Error>)
  {
    if s != [] && !KnownCode(s[0]) then Failure(UnknownType(s[0])) else
    var h := ParseHeader(s);
    if h.Err? then Failure(h.error) else
    var bytes := TakeBytes(h.rest, h.value.length);
    if bytes.Err? then Failure(bytes.error) else Success(Frame(h.value, bytes.value))
  }

  function Decode(s: seq<byte>): (r: Result<Message, Error>)
  {
    var f := Unframe(s);
    if f.Failure? then Failure(f.error) else
    if f.value.header.offset != 0 then Failure(FragmentOutOfRange) else
    var body := ParseBody(f.value.header.code, f.value.bytes);
    if body.Failure? then Failure(body.error) else Success(Message(f.value.header.seqNo, body.value))
  }

  lemma FrameParses(h: Header, bytes: seq<byte>)
    requires KnownCode(h.code) && h.length == |bytes| < 0x100_0000 && h.total < 0x100_0000 && h.offset < 0x100_0000
    ensures Unframe(PutHeader(h) + bytes) == Success(Frame(h, bytes))
  {
    HeaderParses(h, bytes);
    assert bytes + [] == bytes;
    BytesParse(bytes, []);
  }

  predicate MessageOk(m: Message)
  {
    BodyOk(m.body) && |EncodeBody(m.body)| < 0x100_0000
  }

  /** Parsing what was sent returns it, so re-encoding what was received gives the bytes that were sent. */
  lemma MessageRoundTrip(m: Message)
    requires MessageOk(m)
    ensures Decode(Encode(m)) == Success(m)
  {
    var body := EncodeBody(m.body);
    var h := Header(TypeCode(m.body), |body|, m.seqNo, 0, |body|);
    assert Unframe(Encode(m)) == Success(Frame(h, body)) by { FrameParses(h, body); }
    assert ParseBody(h.code, body) == Success(m.body) by { BodyParses(m.body); }
  }

  /** Different messages never have the same bytes. */
  lemma EncodeInjective(m: Message, n: Message)
    requires MessageOk(m) && MessageOk(n) && Encode(m) == Encode(n)
    ensures m == n
  {
    MessageRoundTrip(m);
    MessageRoundTrip(n);
  }
}
