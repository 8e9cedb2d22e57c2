/**
 The connection object of tpt-dtls/src/connection.rs: its handlers update the transcript bytes, the counters,
 the keys and the outgoing records in place, and are proved to act as the functions of DtlsHandshake.
 */
module DtlsConnection {
  import opened BigEndian
  import opened Wire
  import opened DtlsTypes
  import opened DtlsCodec
  import opened DtlsHandshake
  import opened Wrappers

  lemma {:induction false} BytesNext(t: seq<Message>, m: Message)
    ensures Bytes(t + [m]) == Bytes(t) + Encode(m)
  {
    var all := t + [m];
    ConcatSnoc(Encode, all, |t|);
    assert all[..|t|] == t && all[..|t| + 1] == all;
  }

  class Connection {
    const cr: Crypto
    const cfg: Config
    const isServer: bool
    var phase: Phase
    var transcript: seq<byte>
    var counter: u16
    var hs: Option<Secrets>
    var app: Option<Secrets>
    var peerKey: Option<seq<byte>>
    var pendingCookie: Option<seq<byte>>
    var connected: bool
    var out: seq<Record>
    ghost var messages: seq<Message>
    ghost var built: Option<seq<Message>>
    ghost var accepted: Option<seq<Message>>

    ghost predicate Valid()
      reads this
    {
      cr.Composed() && transcript == Bytes(messages)
    }

    ghost function Abstract(): (e: Endpoint)
      reads this
    {
      Endpoint(phase, messages, counter, hs, app, peerKey, connected, out, built, accepted)
    }

    constructor (cr: Crypto, cfg: Config, isServer: bool)
      requires cr.Composed()
      ensures Valid() && this.cr == cr && this.cfg == cfg && this.isServer == isServer
      ensures Abstract() == Blank(if isServer then WaitClientHello else WaitServerHello)
    {
      this.cr, this.cfg, this.isServer := cr, cfg, isServer;
      phase := if isServer then WaitClientHello else WaitServerHello;
      transcript, counter, hs, app, peerKey, pendingCookie, connected, out := [], 0, None, None, None, None, false, [];
      messages, built, accepted := [], None, None;
    }

    method TxHash() returns (d: seq<byte>)
      requires Valid()
      ensures d == cr.transcriptHash(cfg.suite, messages)
    {
      assert cr.transcriptHash(cfg.suite, messages) == cr.hash(cfg.suite, Bytes(messages));
      d := cr.hash(cfg.suite, transcript);
    }

    /** Appends the bytes of a message that was received. */
    method Record(m: Message)
      requires Valid()
      modifies this`transcript, this`messages
      ensures Valid() && Abstract() == Hear(old(Abstract()), m)
    {
      BytesNext(messages, m);
      transcript := transcript + Encode(m);
      messages := messages + [m];
    }

    function OutgoingKeys(): (k: Option<Keys>)
      reads this
    {
      if hs.None? then None else Some(if isServer then hs.value.server else hs.value.client)
    }

    method SendHandshake(body: Body)
      requires Valid()
      modifies this`transcript, this`messages, this`counter, this`out
      ensures Valid() && Abstract() == Send(old(Abstract()), old(OutgoingKeys()), body)
    {
      var m := Message(counter, body);
      counter := (counter + 1) % 0x1_0000;
      out := out + [DtlsHandshake.Record(OutgoingKeys(), m)];
      Record(m);
    }

    method DeriveHandshakeSecrets(dhe: seq<byte>)
      requires Valid()
      modifies this`hs
      ensures Valid() && hs == Some(HandshakeKeys(cr, cfg.suite, dhe, messages))
    {
      var base := cr.handshakeSecret(cfg.suite, dhe);
      var d := TxHash();
      var c := cr.derive(cfg.suite, base, ClientHandshake, d);
      var s := cr.derive(cfg.suite, base, ServerHandshake, d);
      hs := Some(Secrets(base, Keys(cfg.suite, c), Keys(cfg.suite, s)));
    }

    method DeriveAppSecrets()
      requires Valid() && hs.Some?
      modifies this`app
      ensures Valid() && app == Some(AppKeys(cr, cfg.suite, hs.value.base, messages))
    {
      var top := cr.master(cfg.suite, hs.value.base);
      var d := TxHash();
      var c := cr.derive(cfg.suite, top, ClientTraffic, d);
      var s := cr.derive(cfg.suite, top, ServerTraffic, d);
      app := Some(Secrets(top, Keys(cfg.suite, c), Keys(cfg.suite, s)));
    }

    /** The bytes a CertificateVerify covers. */
    method Covered(server: bool) returns (b: seq<byte>)
      requires Valid()
      ensures b == Signed(cr, cfg.suite, server, messages)
    {
      var d := TxHash();
      b := Ascii(if server then "TLS 1.3, server CertificateVerify" else "TLS 1.3, client CertificateVerify") + ([0x20] + d);
    }

    method SendOwnFlight()
      requires Valid() && hs.Some?
      modifies this`transcript, this`messages, this`counter, this`out, this`built
      ensures Valid() && Abstract() == SendFlight(cr, cfg, old(Abstract()), isServer, old(OutgoingKeys()).value)
    {
      SendHandshake(CertificateBody([], cfg.verifyKey));
      var signed := Covered(isServer);
      SendHandshake(VerifyBody(ED25519, cr.sign(cfg.signKey, signed)));
      var d := TxHash();
      built := Some(messages);
      SendHandshake(FinishedBody(cr.finished(cfg.suite, OutgoingKeys().value.secret, d)));
    }

    method HandleCertificate(m: Message)
      requires Valid() && m.body.CertificateBody?
      modifies this
      ensures Valid() && Abstract() == OnCertificate(cfg, old(Abstract()), m)
    {
      if !cfg.trusts(m.body.certificate) { return; }
      peerKey := Some(m.body.certificate);
      Record(m);
    }

    method HandleVerify(m: Message, fromServer: bool)
      requires Valid() && m.body.VerifyBody?
      modifies this
      ensures Valid() && Abstract() == OnVerify(cr, cfg, old(Abstract()), m, fromServer)
    {
      var signed := Covered(fromServer);
      if peerKey.None? || !cr.verify(peerKey.value, signed, m.body.signature) { return; }
      Record(m);
    }

    // ----- Client -----

    /** `start` on a new client */
    method Start()
      requires Valid() && Abstract() == Blank(WaitServerHello)
      modifies this
      ensures Valid() && Abstract() == StartClient(cfg)
    {
      phase := WaitServerHello;
      SendHandshake(HelloBody(cfg, None));
    }

    method HandleRetry(m: Message)
      requires Valid() && m.body.ServerHelloBody? && hs.None?
      modifies this
      ensures Valid() && Abstract() == OnRetry(cfg, old(Abstract()), m)
    {
      Record(m);
      pendingCookie := m.body.server.cookie;
      SendHandshake(HelloBody(cfg, pendingCookie));
    }

    method HandleServerHello(m: Message)
      requires Valid() && m.body.ServerHelloBody?
      modifies this
      ensures Valid() && Abstract() == OnServerHello(cr, cfg, old(Abstract()), m)
    {
      var share := m.body.server.share;
      if share.None? { return; }
      var dhe := cr.agree(cfg.dhPrivate, share.value.key);
      if dhe.None? { return; }
      Record(m);
      DeriveHandshakeSecrets(dhe.value);
      phase := WaitServerFlight;
    }

    method HandleServerFinished(m: Message)
      requires Valid() && m.body.FinishedBody? && !isServer
      modifies this
      ensures Valid() && Abstract() == OnServerFinished(cr, cfg, old(Abstract()), m)
    {
      if hs.None? { return; }
      var d := TxHash();
      if m.body.verifyData != cr.finished(cfg.suite, hs.value.server.secret, d) { return; }
      AnswerServer(m);
    }

    method AnswerServer(m: Message)
      requires Valid() && hs.Some? && !isServer
      modifies this
      ensures Valid() && Abstract() == FinishClient(cr, cfg, old(Abstract()), m)
    {
      accepted := Some(messages);
      Record(m);
      SendOwnFlight();
      Complete(ClientConnected);
    }

    method Complete(last: Phase)
      requires Valid() && hs.Some?
      modifies this`app, this`connected, this`phase
      ensures Valid()
      ensures Abstract() == old(Abstract()).(app := Some(AppKeys(cr, cfg.suite, hs.value.base, messages)), connected := true, phase := last)
    {
      DeriveAppSecrets();
      connected := true;
      phase := last;
    }

    method ClientOnMessage(m: Message)
      requires Valid() && !isServer && (phase.WaitServerHello? ==> hs.None?)
      modifies this
      ensures Valid() && Abstract() == ClientOn(cr, cfg, old(Abstract()), m)
    {
      match m.body
      case ServerHelloBody(h) =>
        if !phase.WaitServerHello? { return; }
        if h.random == HRR_RANDOM { HandleRetry(m); } else { HandleServerHello(m); }
      case ClientHelloBody(_) =>
      case CertificateBody(_, _) => if phase.WaitServerFlight? { HandleCertificate(m); }
      case VerifyBody(_, _) => if phase.WaitServerFlight? { HandleVerify(m, true); }
      case FinishedBody(_) => if phase.WaitServerFlight? { HandleServerFinished(m); }
      case ExtensionsBody(_) => if phase.WaitServerFlight? { Record(m); }
    }

    // ----- Server -----

    method HandleClientHello(m: Message)
      requires Valid() && m.body.ClientHelloBody? && isServer && hs.None?
      modifies this
      ensures Valid() && Abstract() == OnClientHello(cr, cfg, old(Abstract()), m)
    {
      var c := m.body.client;
      Record(m);
      if c.cookie.None? {
        SendHandshake(RetryBody(cr, cfg, c));
        phase := WaitClientHelloCookie;
        return;
      }
      if c.cookie.value != cr.cookie(c.random) || c.shares == [] { return; }
      var dhe := cr.agree(cfg.dhPrivate, c.shares[0].key);
      if dhe.None? { return; }
      SendResponse(c, dhe.value);
    }

    method SendResponse(c: ClientHello, dhe: seq<byte>)
      requires Valid() && isServer && hs.None?
      modifies this
      ensures Valid() && Abstract() == Respond(cr, cfg, old(Abstract()), c, dhe)
    {
      SendHandshake(ServerHelloFor(cfg, c));
      DeriveHandshakeSecrets(dhe);
      SendHandshake(ExtensionsBody([]));
      SendOwnFlight();
      phase := WaitClientFlight;
    }

    method HandleClientFinished(m: Message)
      requires Valid() && m.body.FinishedBody?
      modifies this
      ensures Valid() && Abstract() == OnClientFinished(cr, cfg, old(Abstract()), m)
    {
      if hs.None? { return; }
      var d := TxHash();
      if m.body.verifyData != cr.finished(cfg.suite, hs.value.client.secret, d) { return; }
      accepted := Some(messages);
      Record(m);
      Complete(ServerConnected);
    }

    method ServerOnMessage(m: Message)
      requires Valid() && isServer && (phase.WaitClientHello? || phase.WaitClientHelloCookie? ==> hs.None?)
      modifies this
      ensures Valid() && Abstract() == ServerOn(cr, cfg, old(Abstract()), m)
    {
      match m.body
      case ClientHelloBody(_) =>
        if phase.WaitClientHello? || phase.WaitClientHelloCookie? { HandleClientHello(m); }
      case CertificateBody(_, _) => if phase.WaitClientFlight? { HandleCertificate(m); }
      case VerifyBody(_, _) => if phase.WaitClientFlight? { HandleVerify(m, false); }
      case FinishedBody(_) => if phase.WaitClientFlight? { HandleClientFinished(m); }
      case _ =>
    }
  }
}
