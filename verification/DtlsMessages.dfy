/** The messages honest endpoints send are well formed, and a transcript's bytes determine its messages. */
module DtlsMessages {
  import opened BigEndian
  import opened Wire
  import opened DtlsTypes
  import opened DtlsCodec
  import opened DtlsHandshake
  import opened Sequences
  import opened Wrappers

  // ----- Sizes -----

  lemma {:induction false} ConcatLength<T>(e: T -> seq<byte>, xs: seq<T>, bound: nat)
    requires forall i :: 0 <= i < |xs| ==> |e(xs[i])| <= bound
    ensures |Concat(e, xs)| <= bound * |xs|
  {
    if xs != [] {
      ConcatLength(e, xs[1..], bound);
      assert bound * |xs| == bound + bound * |xs[1..]|;
    }
  }

  lemma OneItem<T>(e: T -> seq<byte>, x: T)
    ensures Concat(e, [x]) == e(x)
  {
    assert [x][1..] == [] && Concat(e, [x][1..]) == [];
    assert e(x) + [] == e(x);
  }

  predicate ShortOption(o: Option<seq<byte>>)
  {
    o.Some? ==> |o.value| <= 255
  }

  lemma SmallExtensions(xs: seq<Extension>)
    requires |xs| <= 6 && forall i :: 0 <= i < |xs| ==> |xs[i].data| <= 300
    ensures ExtensionsOk(xs) && |PutExtensions(xs)| <= 2000
  {
    ConcatLength(PutExtension, xs, 304);
  }

  lemma HelloOk(cfg: Config, cookie: Option<seq<byte>>, n: u16)
    requires ShortOption(cookie)
    ensures MessageOk(Message(n, HelloBody(cfg, cookie)))
  {
    var c := HelloBody(cfg, cookie).client;
    OneItem(PutU16, cfg.suite);
    OneItem(PutU16, X25519);
    OneItem(PutU16, ED25519);
    OneItem(PutShare, Share(X25519, cfg.dhPublic));
    var xs := ClientExtensions(c);
    forall i | 0 <= i < |xs| ensures |xs[i].data| <= 300 {}
    SmallExtensions(xs);
    assert |EncodeClientHello(c)| <= 3000;
  }

  lemma ServerHelloIsOk(h: ServerHello, n: u16)
    requires h.sessionId == [] && ShortOption(h.cid) && ShortOption(h.cookie)
    requires h.share.Some? ==> |h.share.value.key| <= 255
    ensures MessageOk(Message(n, ServerHelloBody(h)))
  {
    var xs := ServerExtensions(h);
    forall i | 0 <= i < |xs| ensures |xs[i].data| <= 300 {}
    SmallExtensions(xs);
    assert |EncodeServerHello(h)| <= 3000;
  }

  lemma FlightOk(n: u16, b: Body)
    requires (b.ExtensionsBody? && b.extensions == []) || (b.CertificateBody? && b.context == [] && |b.certificate| <= 255)
             || (b.VerifyBody? && |b.signature| <= 255) || (b.FinishedBody? && |b.verifyData| <= 255)
    ensures MessageOk(Message(n, b))
  {
    if b.ExtensionsBody? { SmallExtensions([]); }
  }

  // ----- Transcripts -----

  ghost predicate ListOk(t: seq<Message>)
  {
    forall i :: 0 <= i < |t| ==> MessageOk(t[i])
  }

  /** A message at the front of some bytes. */
  function ParseMessage(s: seq<byte>): (r: Parsed<Message>)
  {
    var h := ParseHeader(s);
    if h.Err? then Err(h.error) else
    var body := TakeBytes(h.rest, h.value.length);
    if body.Err? then Err(body.error) else
    var b := ParseBody(h.value.code, body.value);
    if b.Failure? then Err(b.error) else Ok(Message(h.value.seqNo, b.value), body.rest)
  }

  lemma MessageReads(m: Message)
    requires MessageOk(m)
    ensures Reads(ParseMessage, Encode, m)
  {
    var body := EncodeBody(m.body);
    var h := Header(TypeCode(m.body), |body|, m.seqNo, 0, |body|);
    forall rest ensures ParseMessage(Encode(m) + rest) == Ok(m, rest) {
      Joined(PutHeader(h), body, rest);
      assert ParseHeader(Encode(m) + rest) == Ok(h, body + rest) by { HeaderParses(h, body + rest); }
      BytesParse(body, rest);
      assert ParseBody(h.code, body) == Success(m.body) by { BodyParses(m.body); }
    }
  }

  /** Two lists of well-formed messages with the same bytes are the same list. */
  lemma TranscriptInjective(a: seq<Message>, b: seq<Message>)
    requires ListOk(a) && ListOk(b) && Bytes(a) == Bytes(b)
    ensures a == b
  {
    forall i | 0 <= i < |a| ensures Reads(ParseMessage, Encode, a[i]) { MessageReads(a[i]); }
    forall i | 0 <= i < |b| ensures Reads(ParseMessage, Encode, b[i]) { MessageReads(b[i]); }
    ManyReadsAll(ParseMessage, Encode, a);
    ManyReadsAll(ParseMessage, Encode, b);
  }
}
