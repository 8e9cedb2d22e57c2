/**
 One honest client and one honest server of tpt-dtls/src/connection.rs, over every schedule: any record
 ever sent may be delivered at any time, any number of times, or never.
 */
module DtlsAgreement {
  import opened BigEndian
  import opened DtlsTypes
  import opened DtlsCodec
  import opened DtlsHandshake
  import opened DtlsMessages
  import opened Wrappers

  /** The primitives, the two configurations, and which messages are well formed. */
  datatype World = World(cr: Crypto, cc: Config, sc: Config, ok: Message -> bool)
  {
    ghost predicate Sane()
    {
      cr.Composed() && cr.Injective() && forall m {:trigger MessageOk(m)} :: ok(m) == MessageOk(m)
    }

    ghost predicate AllOk(t: seq<Message>)
    {
      forall i :: 0 <= i < |t| ==> ok(t[i])
    }
  }

  datatype System = System(client: Endpoint, server: Endpoint)

  /** The record with number `i` among all that the other side has sent arrives. */
  datatype Delivery = ToClient(i: nat) | ToServer(i: nat)

  // ----- What injective primitives give -----

  /** Both directions come from one base secret and one transcript hash. */
  ghost predicate Derived(cr: Crypto, suite: u16, s: Secrets)
  {
    exists d :: s.client == Keys(suite, cr.derive(suite, s.base, ClientHandshake, d))
             && s.server == Keys(suite, cr.derive(suite, s.base, ServerHandshake, d))
  }

  lemma SameSecrets(cr: Crypto, suiteA: u16, a: Secrets, suiteB: u16, b: Secrets)
    requires cr.Injective() && Derived(cr, suiteA, a) && Derived(cr, suiteB, b)
    requires a.client == b.client || a.server == b.server
    ensures a == b && suiteA == suiteB
  {
    var d :| a.client == Keys(suiteA, cr.derive(suiteA, a.base, ClientHandshake, d))
          && a.server == Keys(suiteA, cr.derive(suiteA, a.base, ServerHandshake, d));
    var e :| b.client == Keys(suiteB, cr.derive(suiteB, b.base, ClientHandshake, e))
          && b.server == Keys(suiteB, cr.derive(suiteB, b.base, ServerHandshake, e));
  }

  /** The HMAC does not collide on the hashes of these two transcripts. */
  predicate Distinguishes(cr: Crypto, suite: u16, k: Keys, a: seq<Message>, b: seq<Message>)
  {
    Tag(cr, suite, k, a) == Tag(cr, suite, k, b) ==> cr.transcriptHash(suite, a) == cr.transcriptHash(suite, b)
  }

  /** No collision between what one side compares now and what the other side built its Finished over. */
  predicate NoClash(w: World, c: Endpoint, s: Endpoint)
  {
    && (c.hs.Some? && s.built.Some? ==> Distinguishes(w.cr, w.cc.suite, c.hs.value.server, c.transcript, s.built.value))
    && (s.hs.Some? && c.built.Some? ==> Distinguishes(w.cr, w.sc.suite, s.hs.value.client, s.transcript, c.built.value))
  }

  /** Equal verify_data means equal transcripts. */
  lemma SameTag(w: World, suite: u16, k: Keys, a: seq<Message>, b: seq<Message>)
    requires w.Sane() && w.AllOk(a) && w.AllOk(b) && Distinguishes(w.cr, suite, k, a, b)
    requires Tag(w.cr, suite, k, a) == Tag(w.cr, suite, k, b)
    ensures a == b
  {
    assert w.cr.hash(suite, Bytes(a)) == w.cr.hash(suite, Bytes(b));
    forall i | 0 <= i < |a| ensures MessageOk(a[i]) {}
    forall i | 0 <= i < |b| ensures MessageOk(b[i]) {}
    TranscriptInjective(a, b);
  }

  /** An honest record opens to the message that was sent, or not at all. */
  lemma OpenGives(w: World, r: Record, incoming: Option<Keys>)
    requires w.Sane() && w.ok(r.message)
    ensures Open(w.cr, r, incoming) == if r.keys.Some? && r.keys != incoming then None else Some(r.message)
  {
    assert MessageOk(r.message);
    MessageRoundTrip(r.message);
  }

  // ----- What each endpoint keeps -----

  /** The certificate heard last. */
  function LastCertificate(t: seq<Message>): (r: Option<seq<byte>>)
  {
    if t == [] then None
    else if t[|t| - 1].body.CertificateBody? then Some(t[|t| - 1].body.certificate)
    else LastCertificate(t[..|t| - 1])
  }

  lemma LastCertificateNext(t: seq<Message>, m: Message)
    ensures LastCertificate(t + [m])
         == if m.body.CertificateBody? then Some(m.body.certificate) else LastCertificate(t)
  {
    assert (t + [m])[..|t|] == t;
  }

  /** `e` built the Finished `m` over `e.built` and appended it. */
  predicate BuiltFinished(cr: Crypto, suite: u16, e: Endpoint, keys: Keys, m: Message)
  {
    && e.built.Some? && m.body.FinishedBody?
    && m.body.verifyData == Tag(cr, suite, keys, e.built.value)
    && e.built.value + [m] <= e.transcript
  }

  predicate ClientSent(w: World, e: Endpoint, r: Record)
  {
    && w.ok(r.message)
    && (r.message.body.ClientHelloBody? ==> r.message.body.client.sessionId == [])
    && (r.message.body.FinishedBody? ==>
          e.connected && e.hs.Some? && r.keys == Some(e.hs.value.client)
          && BuiltFinished(w.cr, w.cc.suite, e, e.hs.value.client, r.message))
  }

  predicate ServerSent(w: World, e: Endpoint, r: Record)
  {
    && w.ok(r.message)
    && (r.message.body.ServerHelloBody? ==> ShortOption(r.message.body.server.cookie))
    && (r.message.body.FinishedBody? ==>
          e.hs.Some? && r.keys == Some(e.hs.value.server)
          && BuiltFinished(w.cr, w.sc.suite, e, e.hs.value.server, r.message))
  }

  ghost predicate AllClientSent(w: World, e: Endpoint)
  {
    forall i :: 0 <= i < |e.sent| ==> ClientSent(w, e, e.sent[i])
  }

  ghost predicate AllServerSent(w: World, e: Endpoint)
  {
    forall i :: 0 <= i < |e.sent| ==> ServerSent(w, e, e.sent[i])
  }

  /** A finished client: its flight follows the Finished it accepted, and its keys cover it. */
  ghost predicate ClientDone(w: World, e: Endpoint)
    requires e.hs.Some?
  {
    && e.built.Some? && e.accepted.Some? && w.AllOk(e.built.value) && w.AllOk(e.accepted.value)
    && e.app == Some(AppKeys(w.cr, w.cc.suite, e.hs.value.base, e.transcript))
    && |e.transcript| == |e.built.value| + 1 == |e.accepted.value| + 4
    && e.accepted.value <= e.built.value <= e.transcript
    && e.built.value[|e.accepted.value| + 1].body == CertificateBody([], w.cc.verifyKey)
    && e.built.value[|e.accepted.value| + 2].body.VerifyBody?
  }

  ghost predicate ClientInv(w: World, e: Endpoint)
  {
    && (e.phase.WaitServerHello? || e.phase.WaitServerFlight? || e.phase.ClientConnected?)
    && (e.connected <==> e.phase.ClientConnected?)
    && (e.hs.Some? <==> !e.phase.WaitServerHello?)
    && (e.hs.Some? ==> Derived(w.cr, w.cc.suite, e.hs.value))
    && w.AllOk(e.transcript)
    && (!e.connected ==> e.built.None? && e.peerKey == LastCertificate(e.transcript))
    && (e.connected ==> ClientDone(w, e))
    && (e.peerKey.Some? ==> w.cc.trusts(e.peerKey.value))
    && AllClientSent(w, e)
  }

  /** A server that has sent its flight. */
  ghost predicate ServerOpened(w: World, e: Endpoint)
  {
    && e.hs.Some? && Derived(w.cr, w.sc.suite, e.hs.value)
    && e.built.Some? && w.AllOk(e.built.value) && LastCertificate(e.built.value) == Some(w.sc.verifyKey)
    && e.built.value <= e.transcript && |e.transcript| > |e.built.value|
    && (!e.connected ==> e.peerKey == LastCertificate(e.transcript[|e.built.value| + 1..]))
  }

  predicate AwaitsHello(e: Endpoint)
  {
    e.phase.WaitClientHello? || e.phase.WaitClientHelloCookie?
  }

  ghost predicate ServerInv(w: World, e: Endpoint)
  {
    && (AwaitsHello(e) || e.phase.WaitClientFlight? || e.phase.ServerConnected?)
    && (e.connected <==> e.phase.ServerConnected?)
    && w.AllOk(e.transcript)
    && (if AwaitsHello(e) then e.hs.None? && e.built.None? && e.peerKey.None? else ServerOpened(w, e))
    && (e.peerKey.Some? ==> w.sc.trusts(e.peerKey.value))
    && AllServerSent(w, e)
  }

  /** The two sides agree as far as they are connected. */
  ghost predicate Agreed(w: World, c: Endpoint, s: Endpoint)
  {
    && (c.connected ==>
          && c.accepted.Some? && c.accepted == s.built && c.hs == s.hs && w.cc.suite == w.sc.suite
          && c.accepted.value < c.transcript && s.built.value < s.transcript
          && c.transcript[|c.accepted.value|] == s.transcript[|s.built.value|]
          && c.peerKey == Some(w.sc.verifyKey))
    && (s.connected ==>
          && c.connected && s.accepted.Some? && s.accepted == c.built
          && s.transcript == c.transcript && s.app == c.app && s.peerKey == Some(w.cc.verifyKey))
  }

  ghost predicate Inv(w: World, c: Endpoint, s: Endpoint)
  {
    ClientInv(w, c) && ServerInv(w, s) && Agreed(w, c, s)
  }

  // ----- Honest messages -----

  lemma SaysHello(w: World, cfg: Config, cookie: Option<seq<byte>>, n: u16)
    requires w.Sane() && ShortOption(cookie)
    ensures w.ok(Message(n, HelloBody(cfg, cookie)))
  {
    HelloOk(cfg, cookie, n);
  }

  lemma SaysServerHello(w: World, cfg: Config, c: ClientHello, n: u16)
    requires w.Sane() && c.sessionId == []
    ensures w.ok(Message(n, RetryBody(w.cr, cfg, c))) && w.ok(Message(n, ServerHelloFor(cfg, c)))
  {
    ServerHelloIsOk(RetryBody(w.cr, cfg, c).server, n);
    ServerHelloIsOk(ServerHelloFor(cfg, c).server, n);
  }

  lemma SaysFlight(w: World, n: u16, b: Body)
    requires w.Sane()
    requires (b.ExtensionsBody? && b.extensions == []) || (b.CertificateBody? && b.context == [] && |b.certificate| <= 255)
             || (b.VerifyBody? && |b.signature| <= 255) || (b.FinishedBody? && |b.verifyData| <= 255)
    ensures w.ok(Message(n, b))
  {
    FlightOk(n, b);
  }

  // ----- Client steps -----

  lemma ClientStarts(w: World)
    requires w.Sane()
    ensures ClientInv(w, StartClient(w.cc))
  {
    SaysHello(w, w.cc, None, 0);
    LastCertificateNext([], Message(0, HelloBody(w.cc, None)));
  }

  /** A message that is only recorded. */
  lemma ClientHears(w: World, e: Endpoint, m: Message, key: Option<seq<byte>>)
    requires ClientInv(w, e) && !e.connected && w.ok(m)
    requires key == (if m.body.CertificateBody? then Some(m.body.certificate) else e.peerKey)
    requires key.Some? ==> w.cc.trusts(key.value)
    ensures ClientInv(w, Hear(e, m).(peerKey := key))
  {
    LastCertificateNext(e.transcript, m);
    var h := Hear(e, m).(peerKey := key);
    forall i | 0 <= i < |h.sent| ensures ClientSent(w, h, h.sent[i]) {
      assert ClientSent(w, e, e.sent[i]);
    }
  }

  lemma ClientRetries(w: World, e: Endpoint, m: Message)
    requires w.Sane() && ClientInv(w, e) && e.phase.WaitServerHello? && w.ok(m)
    requires m.body.ServerHelloBody? && ShortOption(m.body.server.cookie)
    ensures ClientInv(w, OnRetry(w.cc, e, m))
  {
    var h, r := Hear(e, m), OnRetry(w.cc, e, m);
    ClientHears(w, e, m, e.peerKey);
    var hello := Message(h.counter, HelloBody(w.cc, m.body.server.cookie));
    SaysHello(w, w.cc, m.body.server.cookie, h.counter);
    LastCertificateNext(h.transcript, hello);
    forall i | 0 <= i < |r.sent| ensures ClientSent(w, r, r.sent[i]) {
      if i < |e.sent| { assert ClientSent(w, e, e.sent[i]); }
    }
  }

  lemma ClientMeetsServer(w: World, e: Endpoint, m: Message)
    requires ClientInv(w, e) && e.phase.WaitServerHello? && w.ok(m) && m.body.ServerHelloBody?
    ensures ClientInv(w, OnServerHello(w.cr, w.cc, e, m))
  {
    var r := OnServerHello(w.cr, w.cc, e, m);
    if r != e {
      ClientHears(w, e, m, e.peerKey);
      var h := Hear(e, m);
      forall i | 0 <= i < |r.sent| ensures ClientSent(w, r, r.sent[i]) {
        assert ClientSent(w, h, h.sent[i]);
      }
    }
  }

  /** The transcript after Certificate, CertificateVerify and Finished have been sent. */
  lemma FlightShape(w: World, cfg: Config, e: Endpoint, server: bool, keys: Keys) returns (cert: Message, cv: Message, fin: Message)
    requires w.Sane()
    ensures w.ok(cert) && w.ok(cv) && w.ok(fin)
    ensures cert.body == CertificateBody([], cfg.verifyKey)
    ensures cv.body == VerifyBody(ED25519, w.cr.sign(cfg.signKey, Signed(w.cr, cfg.suite, server, e.transcript + [cert])))
    ensures fin.body == FinishedBody(Tag(w.cr, cfg.suite, keys, e.transcript + [cert, cv]))
    ensures var r := SendFlight(w.cr, cfg, e, server, keys);
            r == e.(counter := r.counter, transcript := e.transcript + [cert, cv, fin], built := Some(e.transcript + [cert, cv]),
                    sent := e.sent + [Record(Some(keys), cert), Record(Some(keys), cv), Record(Some(keys), fin)])
  {
    var e1 := Send(e, Some(keys), CertificateBody([], cfg.verifyKey));
    cert := Message(e.counter, CertificateBody([], cfg.verifyKey));
    cv := Message(e1.counter, VerifyBody(ED25519, w.cr.sign(cfg.signKey, Signed(w.cr, cfg.suite, server, e1.transcript))));
    var e2 := Send(e1, Some(keys), cv.body);
    fin := Message(e2.counter, FinishedBody(Tag(w.cr, cfg.suite, keys, e2.transcript)));
    SaysFlight(w, cert.seqNo, cert.body);
    SaysFlight(w, cv.seqNo, cv.body);
    SaysFlight(w, fin.seqNo, fin.body);
    assert e2.transcript == e.transcript + [cert, cv];
    assert e2.transcript + [fin] == e.transcript + [cert, cv, fin];
    assert e2.sent + [Record(Some(keys), fin)] == e.sent + [Record(Some(keys), cert), Record(Some(keys), cv), Record(Some(keys), fin)];
  }

  /** The Finished record that reached the client was built over the client's own transcript. */
  lemma ServerFinishedAgrees(w: World, c: Endpoint, s: Endpoint, r: Record)
    requires w.Sane() && ClientInv(w, c) && ServerInv(w, s) && NoClash(w, c, s) && c.phase.WaitServerFlight?
    requires ServerSent(w, s, r) && r.message.body.FinishedBody? && r.keys == Some(c.hs.value.server)
    requires r.message.body.verifyData == Tag(w.cr, w.cc.suite, c.hs.value.server, c.transcript)
    ensures s.built == Some(c.transcript) && c.hs == s.hs && w.cc.suite == w.sc.suite
    ensures s.built.value < s.transcript && s.transcript[|s.built.value|] == r.message
    ensures c.peerKey == Some(w.sc.verifyKey)
  {
    SameSecrets(w.cr, w.cc.suite, c.hs.value, w.sc.suite, s.hs.value);
    SameTag(w, w.cc.suite, c.hs.value.server, c.transcript, s.built.value);
  }

  lemma ClientFlightSent(w: World, c: Endpoint, before: seq<Message>, cert: Message, cv: Message, fin: Message, next: Endpoint)
    requires AllClientSent(w, c) && !c.connected && c.hs.Some?
    requires next.connected && next.hs == c.hs && next.built == Some(before + [cert, cv])
    requires next.transcript == before + [cert, cv, fin]
    requires w.ok(cert) && w.ok(cv) && w.ok(fin) && fin.body.FinishedBody?
    requires cert.body.CertificateBody? && cv.body.VerifyBody?
    requires fin.body.verifyData == Tag(w.cr, w.cc.suite, c.hs.value.client, next.built.value)
    requires var k := Some(c.hs.value.client); next.sent == c.sent + [Record(k, cert), Record(k, cv), Record(k, fin)]
    ensures AllClientSent(w, next)
  {
    assert next.built.value + [fin] == next.transcript;
    forall i | 0 <= i < |next.sent| ensures ClientSent(w, next, next.sent[i]) {
      if i < |c.sent| { assert ClientSent(w, c, c.sent[i]); }
    }
  }

  /** What the client looks like after accepting the Finished `m`. */
  lemma ClientFinished(w: World, c: Endpoint, m: Message) returns (cert: Message, cv: Message, fin: Message)
    requires w.Sane() && ClientInv(w, c) && c.phase.WaitServerFlight? && w.ok(m) && m.body.FinishedBody?
    requires m.body.verifyData == Tag(w.cr, w.cc.suite, c.hs.value.server, c.transcript)
    ensures ClientInv(w, OnServerFinished(w.cr, w.cc, c, m))
    ensures var next := OnServerFinished(w.cr, w.cc, c, m);
            next.connected && next.accepted == Some(c.transcript) && next.hs == c.hs && next.peerKey == c.peerKey
            && next.transcript == c.transcript + [m, cert, cv, fin]
  {
    var h := Hear(c, m).(accepted := Some(c.transcript));
    cert, cv, fin := FlightShape(w, w.cc, h, false, c.hs.value.client);
    var next := OnServerFinished(w.cr, w.cc, c, m);
    ClientFlightSent(w, c, h.transcript, cert, cv, fin, next);
    assert next.built.value == c.transcript + [m, cert, cv];
    assert next.transcript == c.transcript + [m, cert, cv, fin];
  }

  lemma ClientFinishes(w: World, c: Endpoint, s: Endpoint, r: Record)
    requires w.Sane() && Inv(w, c, s) && NoClash(w, c, s) && c.phase.WaitServerFlight?
    requires ServerSent(w, s, r) && r.message.body.FinishedBody? && r.keys == Some(c.hs.value.server)
    ensures Inv(w, OnServerFinished(w.cr, w.cc, c, r.message), s)
  {
    if r.message.body.verifyData == Tag(w.cr, w.cc.suite, c.hs.value.server, c.transcript) {
      ServerFinishedAgrees(w, c, s, r);
      var cert, cv, fin := ClientFinished(w, c, r.message);
    }
  }

  /** Any message of the server's flight but the Finished. */
  lemma ClientFlightKeeps(w: World, c: Endpoint, m: Message)
    requires ClientInv(w, c) && c.phase.WaitServerFlight? && w.ok(m)
    requires m.body.ExtensionsBody? || m.body.CertificateBody? || m.body.VerifyBody?
    ensures ClientInv(w, ClientOn(w.cr, w.cc, c, m)) && !ClientOn(w.cr, w.cc, c, m).connected
  {
    if m.body.CertificateBody? {
      if w.cc.trusts(m.body.certificate) { ClientHears(w, c, m, Some(m.body.certificate)); }
    } else {
      ClientHears(w, c, m, c.peerKey);
    }
  }

  lemma ClientHelloKeeps(w: World, c: Endpoint, m: Message)
    requires w.Sane() && ClientInv(w, c) && c.phase.WaitServerHello? && w.ok(m)
    requires m.body.ServerHelloBody? && ShortOption(m.body.server.cookie)
    ensures ClientInv(w, ClientOn(w.cr, w.cc, c, m)) && !ClientOn(w.cr, w.cc, c, m).connected
  {
    if m.body.server.random == HRR_RANDOM { ClientRetries(w, c, m); } else { ClientMeetsServer(w, c, m); }
  }

  lemma ClientOnKeeps(w: World, c: Endpoint, s: Endpoint, r: Record)
    requires w.Sane() && Inv(w, c, s) && NoClash(w, c, s) && ServerSent(w, s, r)
    requires r.keys.None? || r.keys == ServerDirection(c.hs)
    ensures Inv(w, ClientOn(w.cr, w.cc, c, r.message), s)
  {
    var m := r.message;
    match m.body
    case ServerHelloBody(_) => if c.phase.WaitServerHello? { ClientHelloKeeps(w, c, m); }
    case FinishedBody(_) => if c.phase.WaitServerFlight? { ClientFinishes(w, c, s, r); }
    case ClientHelloBody(_) =>
    case _ => if c.phase.WaitServerFlight? { ClientFlightKeeps(w, c, m); }
  }

  lemma ClientStep(w: World, c: Endpoint, s: Endpoint, r: Record)
    requires w.Sane() && Inv(w, c, s) && NoClash(w, c, s) && ServerSent(w, s, r)
    ensures Inv(w, ClientReceive(w.cr, w.cc, c, r), s)
  {
    OpenGives(w, r, ServerDirection(c.hs));
    if r.keys.None? || r.keys == ServerDirection(c.hs) { ClientOnKeeps(w, c, s, r); }
  }

  // ----- Server steps -----

  /** A message of the client's flight that is only recorded. */
  lemma ServerHears(w: World, e: Endpoint, m: Message, key: Option<seq<byte>>)
    requires ServerInv(w, e) && e.phase.WaitClientFlight? && w.ok(m)
    requires key == (if m.body.CertificateBody? then Some(m.body.certificate) else e.peerKey)
    requires key.Some? ==> w.sc.trusts(key.value)
    ensures ServerInv(w, Hear(e, m).(peerKey := key))
  {
    var h, n := Hear(e, m).(peerKey := key), |e.built.value| + 1;
    LastCertificateNext(e.transcript[n..], m);
    assert h.transcript[n..] == e.transcript[n..] + [m];
    forall i | 0 <= i < |h.sent| ensures ServerSent(w, h, h.sent[i]) {
      assert ServerSent(w, e, e.sent[i]);
    }
  }

  lemma ServerHearsHello(w: World, e: Endpoint, m: Message)
    requires ServerInv(w, e) && AwaitsHello(e) && w.ok(m)
    ensures ServerInv(w, Hear(e, m))
  {
    var h := Hear(e, m);
    forall i | 0 <= i < |h.sent| ensures ServerSent(w, h, h.sent[i]) {
      assert ServerSent(w, e, e.sent[i]);
    }
  }

  lemma ServerRetries(w: World, h: Endpoint, c: ClientHello)
    requires w.Sane() && ServerInv(w, h) && AwaitsHello(h) && c.sessionId == []
    ensures ServerInv(w, Send(h, None, RetryBody(w.cr, w.sc, c)).(phase := WaitClientHelloCookie))
  {
    var r := Send(h, None, RetryBody(w.cr, w.sc, c)).(phase := WaitClientHelloCookie);
    SaysServerHello(w, w.sc, c, h.counter);
    forall i | 0 <= i < |r.sent| ensures ServerSent(w, r, r.sent[i]) {
      if i < |h.sent| { assert ServerSent(w, h, h.sent[i]); }
    }
  }

  lemma ServerFlightSent(w: World, h: Endpoint, hello: Message, ee: Message, cert: Message, cv: Message, fin: Message, r: Endpoint)
    requires AllServerSent(w, h) && h.built.None? && r.hs.Some?
    requires w.ok(hello) && w.ok(ee) && w.ok(cert) && w.ok(cv) && w.ok(fin)
    requires hello.body.ServerHelloBody? && ShortOption(hello.body.server.cookie)
    requires ee.body.ExtensionsBody? && cert.body.CertificateBody? && cv.body.VerifyBody? && fin.body.FinishedBody?
    requires r.built.Some? && r.transcript == r.built.value + [fin]
    requires fin.body.verifyData == Tag(w.cr, w.sc.suite, r.hs.value.server, r.built.value)
    requires var k := Some(r.hs.value.server);
             r.sent == h.sent + [Record(None, hello), Record(k, ee), Record(k, cert), Record(k, cv), Record(k, fin)]
    ensures AllServerSent(w, r)
  {
    forall i | 0 <= i < |r.sent| ensures ServerSent(w, r, r.sent[i]) {
      if i < |h.sent| { assert ServerSent(w, h, h.sent[i]); }
    }
  }

  /** The state a response leads to. */
  lemma ResponseShape(w: World, h: Endpoint, c: ClientHello, dhe: seq<byte>)
    returns (hello: Message, ee: Message, cert: Message, cv: Message, fin: Message)
    requires w.Sane() && c.sessionId == []
    ensures w.ok(hello) && w.ok(ee) && w.ok(cert) && w.ok(cv) && w.ok(fin)
    ensures hello.body == ServerHelloFor(w.sc, c) && ee.body == ExtensionsBody([])
    ensures cert.body == CertificateBody([], w.sc.verifyKey)
    ensures cv.body == VerifyBody(ED25519, w.cr.sign(w.sc.signKey,
                                                     Signed(w.cr, w.sc.suite, true, h.transcript + [hello, ee, cert])))
    ensures var r := Respond(w.cr, w.sc, h, c, dhe);
            var hs := HandshakeKeys(w.cr, w.sc.suite, dhe, h.transcript + [hello]);
            var k := Some(hs.server);
            && fin.body == FinishedBody(Tag(w.cr, w.sc.suite, hs.server, h.transcript + [hello, ee, cert, cv]))
            && r == h.(counter := r.counter, phase := WaitClientFlight, hs := Some(hs),
                       transcript := h.transcript + [hello, ee, cert, cv, fin],
                       built := Some(h.transcript + [hello, ee, cert, cv]),
                       sent := h.sent + [Record(None, hello), Record(k, ee), Record(k, cert), Record(k, cv), Record(k, fin)])
  {
    hello := Message(h.counter, ServerHelloFor(w.sc, c));
    SaysServerHello(w, w.sc, c, h.counter);
    var e1 := Send(h, None, hello.body);
    var hs := HandshakeKeys(w.cr, w.sc.suite, dhe, e1.transcript);
    ee := Message(e1.counter, ExtensionsBody([]));
    SaysFlight(w, e1.counter, ee.body);
    var e2 := Send(e1.(hs := Some(hs)), Some(hs.server), ee.body);
    cert, cv, fin := FlightShape(w, w.sc, e2, true, hs.server);
    assert e2.transcript + [cert] == h.transcript + [hello, ee, cert];
    assert e2.transcript + [cert, cv] == h.transcript + [hello, ee, cert, cv];
    assert e2.transcript + [cert, cv, fin] == h.transcript + [hello, ee, cert, cv, fin];
    var k := Some(hs.server);
    assert e2.sent + [Record(k, cert), Record(k, cv), Record(k, fin)]
        == h.sent + [Record(None, hello), Record(k, ee), Record(k, cert), Record(k, cv), Record(k, fin)];
  }

  lemma ServerResponds(w: World, h: Endpoint, c: ClientHello, dhe: seq<byte>)
    requires w.Sane() && ServerInv(w, h) && AwaitsHello(h) && c.sessionId == []
    ensures ServerInv(w, Respond(w.cr, w.sc, h, c, dhe))
  {
    var hello, ee, cert, cv, fin := ResponseShape(w, h, c, dhe);
    var r := Respond(w.cr, w.sc, h, c, dhe);
    var t := h.transcript + [hello, ee];
    LastCertificateNext(t, cert);
    LastCertificateNext(t + [cert], cv);
    assert t + [cert] + [cv] == r.built.value;
    assert r.transcript == r.built.value + [fin];
    assert r.transcript[|r.built.value| + 1..] == [];
    ServerFlightSent(w, h, hello, ee, cert, cv, fin, r);
  }

  lemma ServerMeetsClient(w: World, e: Endpoint, m: Message)
    requires w.Sane() && ServerInv(w, e) && AwaitsHello(e) && w.ok(m)
    requires m.body.ClientHelloBody? && m.body.client.sessionId == []
    ensures ServerInv(w, OnClientHello(w.cr, w.sc, e, m)) && !OnClientHello(w.cr, w.sc, e, m).connected
  {
    var c, h := m.body.client, Hear(e, m);
    ServerHearsHello(w, e, m);
    if c.cookie.None? {
      ServerRetries(w, h, c);
    } else if c.cookie.value == w.cr.cookie(c.random) && c.shares != [] {
      var dhe := w.cr.agree(w.sc.dhPrivate, c.shares[0].key);
      if dhe.Some? { ServerResponds(w, h, c, dhe.value); }
    }
  }

  /** The Finished record that reached the server was built over the server's own transcript. */
  lemma ClientFinishedAgrees(w: World, c: Endpoint, s: Endpoint, r: Record)
    requires w.Sane() && Inv(w, c, s) && NoClash(w, c, s) && s.phase.WaitClientFlight?
    requires ClientSent(w, c, r) && r.message.body.FinishedBody? && r.keys == Some(s.hs.value.client)
    requires r.message.body.verifyData == Tag(w.cr, w.sc.suite, s.hs.value.client, s.transcript)
    ensures c.connected && c.built == Some(s.transcript) && c.transcript == s.transcript + [r.message]
    ensures s.peerKey == Some(w.cc.verifyKey)
  {
    SameTag(w, w.cc.suite, c.hs.value.client, s.transcript, c.built.value);
    assert c.transcript == c.built.value + [r.message];
    var n := |s.built.value| + 1;
    LastOfTwo(s.transcript[n..], c.built.value[n], c.built.value[n + 1]);
  }

  lemma LastOfTwo(t: seq<Message>, a: Message, b: Message)
    requires t == [a, b] && a.body.CertificateBody? && !b.body.CertificateBody?
    ensures LastCertificate(t) == Some(a.body.certificate)
  {
    LastCertificateNext([], a);
    LastCertificateNext([a], b);
    assert [] + [a] == [a] && [a] + [b] == t;
  }

  lemma ServerFinishes(w: World, c: Endpoint, s: Endpoint, r: Record)
    requires w.Sane() && Inv(w, c, s) && NoClash(w, c, s) && s.phase.WaitClientFlight?
    requires ClientSent(w, c, r) && r.message.body.FinishedBody? && r.keys == Some(s.hs.value.client)
    ensures Inv(w, c, OnClientFinished(w.cr, w.sc, s, r.message))
  {
    var next := OnClientFinished(w.cr, w.sc, s, r.message);
    if r.message.body.verifyData == Tag(w.cr, w.sc.suite, s.hs.value.client, s.transcript) {
      ClientFinishedAgrees(w, c, s, r);
      forall i | 0 <= i < |next.sent| ensures ServerSent(w, next, next.sent[i]) {
        assert ServerSent(w, s, s.sent[i]);
      }
    }
  }

  /** Any message of the client's flight but the Finished. */
  lemma ServerFlightKeeps(w: World, s: Endpoint, m: Message)
    requires ServerInv(w, s) && s.phase.WaitClientFlight? && w.ok(m) && (m.body.CertificateBody? || m.body.VerifyBody?)
    ensures ServerInv(w, ServerOn(w.cr, w.sc, s, m))
    ensures var r := ServerOn(w.cr, w.sc, s, m);
            !r.connected && r.hs == s.hs && r.built == s.built && s.transcript <= r.transcript
  {
    if m.body.CertificateBody? {
      if w.sc.trusts(m.body.certificate) { ServerHears(w, s, m, Some(m.body.certificate)); }
    } else {
      ServerHears(w, s, m, s.peerKey);
    }
  }

  lemma ServerOnKeeps(w: World, c: Endpoint, s: Endpoint, r: Record)
    requires w.Sane() && Inv(w, c, s) && NoClash(w, c, s) && ClientSent(w, c, r)
    requires r.keys.None? || r.keys == ClientDirection(s.hs)
    ensures Inv(w, c, ServerOn(w.cr, w.sc, s, r.message))
  {
    var m := r.message;
    match m.body
    case ClientHelloBody(_) => if AwaitsHello(s) { ServerMeetsClient(w, s, m); }
    case FinishedBody(_) => if s.phase.WaitClientFlight? { ServerFinishes(w, c, s, r); }
    case CertificateBody(_, _) => if s.phase.WaitClientFlight? { ServerFlightKeeps(w, s, m); }
    case VerifyBody(_, _) => if s.phase.WaitClientFlight? { ServerFlightKeeps(w, s, m); }
    case _ =>
  }

  lemma ServerStep(w: World, c: Endpoint, s: Endpoint, r: Record)
    requires w.Sane() && Inv(w, c, s) && NoClash(w, c, s) && ClientSent(w, c, r)
    ensures Inv(w, c, ServerReceive(w.cr, w.sc, s, r))
  {
    OpenGives(w, r, ClientDirection(s.hs));
    if r.keys.None? || r.keys == ClientDirection(s.hs) { ServerOnKeeps(w, c, s, r); }
  }

  // ----- Every run -----

  function Deliver(w: World, sys: System, d: Delivery): (next: System)
  {
    match d
    case ToClient(i) =>
      if i < |sys.server.sent| then sys.(client := ClientReceive(w.cr, w.cc, sys.client, sys.server.sent[i])) else sys
    case ToServer(i) =>
      if i < |sys.client.sent| then sys.(server := ServerReceive(w.cr, w.sc, sys.server, sys.client.sent[i])) else sys
  }

  /** The client has started, and the records of `schedule` have arrived in that order. */
  function Run(w: World, schedule: seq<Delivery>): (sys: System)
  {
    if schedule == [] then System(StartClient(w.cc), StartServer())
    else Deliver(w, Run(w, schedule[..|schedule| - 1]), schedule[|schedule| - 1])
  }

  /** The HMAC does not collide on the transcripts that occur in this run. */
  ghost predicate CollisionFree(w: World, schedule: seq<Delivery>)
  {
    if schedule == [] then true
    else
      var init := schedule[..|schedule| - 1];
      CollisionFree(w, init) && NoClash(w, Run(w, init).client, Run(w, init).server)
  }

  lemma {:induction false} RunKeeps(w: World, schedule: seq<Delivery>)
    requires w.Sane() && CollisionFree(w, schedule)
    ensures Inv(w, Run(w, schedule).client, Run(w, schedule).server)
  {
    if schedule == [] {
      ClientStarts(w);
    } else {
      var before, d := Run(w, schedule[..|schedule| - 1]), schedule[|schedule| - 1];
      RunKeeps(w, schedule[..|schedule| - 1]);
      match d
      case ToClient(i) =>
        if i < |before.server.sent| { ClientStep(w, before.client, before.server, before.server.sent[i]); }
      case ToServer(i) =>
        if i < |before.client.sent| { ServerStep(w, before.client, before.server, before.client.sent[i]); }
    }
  }

  /**
   Over every schedule: a connected client accepted a Finished over exactly the transcript the server had
   when it built it, with the same handshake keys and cipher suite, and holds the server's key.
   */
  lemma ClientAgreement(cr: Crypto, cc: Config, sc: Config, schedule: seq<Delivery>)
    requires cr.Composed() && cr.Injective() && CollisionFree(World(cr, cc, sc, MessageOk), schedule)
    requires Run(World(cr, cc, sc, MessageOk), schedule).client.connected
    ensures var sys := Run(World(cr, cc, sc, MessageOk), schedule);
            && sys.client.accepted.Some? && sys.client.accepted == sys.server.built
            && sys.client.hs == sys.server.hs && cc.suite == sc.suite
            && sys.client.peerKey == Some(sc.verifyKey) && cc.trusts(sc.verifyKey)
  {
    RunKeeps(World(cr, cc, sc, MessageOk), schedule);
  }

  /**
   Over every schedule: once the server is connected so is the client, the server accepted a Finished over
   exactly the transcript the client had when it built it, and both hold the same transcript, the same
   application keys and each other's key.
   */
  lemma ServerAgreement(cr: Crypto, cc: Config, sc: Config, schedule: seq<Delivery>)
    requires cr.Composed() && cr.Injective() && CollisionFree(World(cr, cc, sc, MessageOk), schedule)
    requires Run(World(cr, cc, sc, MessageOk), schedule).server.connected
    ensures var sys := Run(World(cr, cc, sc, MessageOk), schedule);
            && sys.client.connected && sys.server.accepted.Some? && sys.server.accepted == sys.client.built
            && sys.server.transcript == sys.client.transcript
            && sys.server.app.Some? && sys.server.app == sys.client.app
            && sys.server.peerKey == Some(cc.verifyKey) && sc.trusts(cc.verifyKey)
  {
    RunKeeps(World(cr, cc, sc, MessageOk), schedule);
  }
}
