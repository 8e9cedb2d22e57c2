/**
 The handshake state machine of tpt-dtls/src/connection.rs: what each endpoint does with each message it
 receives, as functions on its state. Primitives are parameters; sealing a record is modelled by naming the
 traffic keys it was sealed with, and it opens only under those.
 */
module DtlsHandshake {
  import opened BigEndian
  import opened Wire
  import opened DtlsTypes
  import opened DtlsCodec
  import opened Wrappers

  // ----- Primitives -----

  type Short = b: seq<byte> | |b| <= 255

  datatype Label = ClientHandshake | ServerHandshake | ClientTraffic | ServerTraffic

  /**
   The primitives, and two compositions of them with the codec: `transcriptHash` hashes the bytes of a list
   of messages (`tx_hash`), and `receive` is what a receiver parses from the bytes of a message.
   */
  datatype Crypto = Crypto(
    hash: (u16, seq<byte>) -> seq<byte>,
    transcriptHash: (u16, seq<Message>) -> seq<byte>,
    receive: Message -> Option<Message>,
    handshakeSecret: (u16, seq<byte>) -> seq<byte>,
    master: (u16, seq<byte>) -> seq<byte>,
    derive: (u16, seq<byte>, Label, seq<byte>) -> seq<byte>,
    finished: (u16, seq<byte>, seq<byte>) -> Short,
    sign: (seq<byte>, seq<byte>) -> Short,
    verify: (seq<byte>, seq<byte>, seq<byte>) -> bool,
    agree: (seq<byte>, seq<byte>) -> Option<seq<byte>>,
    cookie: Random -> Short)
  {
    ghost predicate Composed()
    {
      && (forall s, t {:trigger Bytes(t), transcriptHash(s, t)} :: transcriptHash(s, t) == hash(s, Bytes(t)))
      && (forall m {:trigger Decode(Encode(m))} :: receive(m) == ToOption(Decode(Encode(m))))
    }

    /** Hashing and key derivation tell their inputs apart. */
    ghost predicate Injective()
    {
      && (forall s, a, b :: hash(s, a) == hash(s, b) ==> a == b)
      && (forall s, x, l, d, y, e :: derive(s, x, l, d) == derive(s, y, l, e) ==> x == y && d == e)
    }
  }

  function ToOption(r: Result<Message, Error>): (m: Option<Message>)
  {
    if r.Success? then Some(r.value) else None
  }

  // ----- Endpoint state -----

  datatype Config = Config(suite: u16, signKey: seq<byte>, verifyKey: Short, dhPrivate: seq<byte>, dhPublic: Short,
                           random: Random, cid: Option<Short>, trusts: seq<byte> -> bool)

  datatype Keys = Keys(suite: u16, secret: seq<byte>)

  /** A base secret and the traffic keys of both directions. */
  datatype Secrets = Secrets(base: seq<byte>, client: Keys, server: Keys)

  datatype Phase =
    | WaitServerHello
    | WaitServerFlight
    | ClientConnected
    | WaitClientHello
    | WaitClientHelloCookie
    | WaitClientFlight
    | ServerConnected

  /** A record carries the encoding of one message, sealed with some keys or in the clear. */
  datatype Record = Record(keys: Option<Keys>, message: Message)

  /**
   `transcript` lists the messages whose encodings make up the transcript bytes. `built` and `accepted`
   record the transcript at the moment the own Finished was built and the peer's was accepted.
   */
  datatype Endpoint = Endpoint(phase: Phase, transcript: seq<Message>, counter: u16, hs: Option<Secrets>,
                               app: Option<Secrets>, peerKey: Option<seq<byte>>, connected: bool, sent: seq<Record>,
                               built: Option<seq<Message>>, accepted: Option<seq<Message>>)

  function Blank(phase: Phase): (e: Endpoint)
  {
    Endpoint(phase, [], 0, None, None, None, false, [], None, None)
  }

  function Bytes(t: seq<Message>): (b: seq<byte>)
  {
    Concat(Encode, t)
  }

  // ----- Shared steps -----

  function Hear(e: Endpoint, m: Message): (r: Endpoint)
  {
    e.(transcript := e.transcript + [m])
  }

  /** `send_handshake`: the next message number, the transcript and the outgoing record. */
  function Send(e: Endpoint, seal: Option<Keys>, body: Body): (r: Endpoint)
  {
    var m := Message(e.counter, body);
    e.(counter := (e.counter + 1) % 0x1_0000, transcript := e.transcript + [m],
       sent := e.sent + [Record(seal, m)])
  }

  /** `derive_handshake_secrets` over the transcript up to the ServerHello. */
  function HandshakeKeys(cr: Crypto, suite: u16, dhe: seq<byte>, t: seq<Message>): (s: Secrets)
  {
    var base, d := cr.handshakeSecret(suite, dhe), cr.transcriptHash(suite, t);
    Secrets(base, Keys(suite, cr.derive(suite, base, ClientHandshake, d)), Keys(suite, cr.derive(suite, base, ServerHandshake, d)))
  }

  /** `derive_app_secrets` over the transcript up to the client's Finished. */
  function AppKeys(cr: Crypto, suite: u16, base: seq<byte>, t: seq<Message>): (s: Secrets)
  {
    var top, d := cr.master(suite, base), cr.transcriptHash(suite, t);
    Secrets(top, Keys(suite, cr.derive(suite, top, ClientTraffic, d)), Keys(suite, cr.derive(suite, top, ServerTraffic, d)))
  }

  /** The verify_data of a Finished under the given direction's keys. */
  function Tag(cr: Crypto, suite: u16, keys: Keys, t: seq<Message>): (v: Short)
  {
    cr.finished(suite, keys.secret, cr.transcriptHash(suite, t))
  }

  function Ascii(s: string): (b: seq<byte>)
  {
    seq(|s|, i requires 0 <= i < |s| => s[i] as int % 256)
  }

  /** What a CertificateVerify signs: a context string, a space and the transcript hash. */
  function Signed(cr: Crypto, suite: u16, server: bool, t: seq<Message>): (b: seq<byte>)
  {
    Ascii(if server then "TLS 1.3, server CertificateVerify" else "TLS 1.3, client CertificateVerify")
    + ([0x20] + cr.transcriptHash(suite, t))
  }

  const ED25519: u16 := 0x0807
  const X25519: u16 := 29

  /** Certificate, CertificateVerify and Finished under this direction's keys. */
  function SendFlight(cr: Crypto, cfg: Config, e: Endpoint, server: bool, keys: Keys): (r: Endpoint)
  {
    var e1 := Send(e, Some(keys), CertificateBody([], cfg.verifyKey));
    var e2 := Send(e1, Some(keys), VerifyBody(ED25519, cr.sign(cfg.signKey, Signed(cr, cfg.suite, server, e1.transcript))));
    Send(e2.(built := Some(e2.transcript)), Some(keys), FinishedBody(Tag(cr, cfg.suite, keys, e2.transcript)))
  }

  function OnCertificate(cfg: Config, e: Endpoint, m: Message): (r: Endpoint)
    requires m.body.CertificateBody?
  {
    if cfg.trusts(m.body.certificate) then Hear(e, m).(peerKey := Some(m.body.certificate)) else e
  }

  function OnVerify(cr: Crypto, cfg: Config, e: Endpoint, m: Message, fromServer: bool): (r: Endpoint)
    requires m.body.VerifyBody?
  {
    if e.peerKey.Some? && cr.verify(e.peerKey.value, Signed(cr, cfg.suite, fromServer, e.transcript), m.body.signature)
    then Hear(e, m) else e
  }

  /** The message of a record, if the endpoint can open it with the keys of the peer's direction. */
  function Open(cr: Crypto, r: Record, incoming: Option<Keys>): (m: Option<Message>)
  {
    if r.keys.Some? && r.keys != incoming then None else cr.receive(r.message)
  }

  // ----- Client -----

  function HelloBody(cfg: Config, cookie: Option<seq<byte>>): (b: Body)
  {
    ClientHelloBody(ClientHello(cfg.random, [], [cfg.suite], [X25519], [ED25519], [Share(X25519, cfg.dhPublic)], cookie, cfg.cid))
  }

  /** `start` */
  function StartClient(cfg: Config): (e: Endpoint)
  {
    Send(Blank(WaitServerHello), None, HelloBody(cfg, None))
  }

  /** `handle_hrr`: resends the hello with the cookie. */
  function OnRetry(cfg: Config, e: Endpoint, m: Message): (r: Endpoint)
    requires m.body.ServerHelloBody?
  {
    Send(Hear(e, m), None, HelloBody(cfg, m.body.server.cookie))
  }

  /** `handle_server_hello` */
  function OnServerHello(cr: Crypto, cfg: Config, e: Endpoint, m: Message): (r: Endpoint)
    requires m.body.ServerHelloBody?
  {
    var share := m.body.server.share;
    if share.None? then e
    else
      var dhe := cr.agree(cfg.dhPrivate, share.value.key);
      if dhe.None? then e
      else
        var h := Hear(e, m);
        h.(hs := Some(HandshakeKeys(cr, cfg.suite, dhe.value, h.transcript)), phase := WaitServerFlight)
  }

  /** The client has accepted the server's Finished: it answers with its own flight and is connected. */
  function FinishClient(cr: Crypto, cfg: Config, e: Endpoint, m: Message): (r: Endpoint)
    requires e.hs.Some?
  {
    var hs := e.hs.value;
    var done := SendFlight(cr, cfg, Hear(e, m).(accepted := Some(e.transcript)), false, hs.client);
    done.(app := Some(AppKeys(cr, cfg.suite, hs.base, done.transcript)), connected := true, phase := ClientConnected)
  }

  /** `handle_server_flight_message`, Finished */
  function OnServerFinished(cr: Crypto, cfg: Config, e: Endpoint, m: Message): (r: Endpoint)
    requires m.body.FinishedBody?
  {
    if e.hs.None? || m.body.verifyData != Tag(cr, cfg.suite, e.hs.value.server, e.transcript) then e
    else FinishClient(cr, cfg, e, m)
  }

  function ClientOn(cr: Crypto, cfg: Config, e: Endpoint, m: Message): (r: Endpoint)
  {
    match m.body
    case ServerHelloBody(h) =>
      if !e.phase.WaitServerHello? then e
      else if h.random == HRR_RANDOM then OnRetry(cfg, e, m)
      else OnServerHello(cr, cfg, e, m)
    case ExtensionsBody(_) => if e.phase.WaitServerFlight? then Hear(e, m) else e
    case CertificateBody(_, _) => if e.phase.WaitServerFlight? then OnCertificate(cfg, e, m) else e
    case VerifyBody(_, _) => if e.phase.WaitServerFlight? then OnVerify(cr, cfg, e, m, true) else e
    case FinishedBody(_) => if e.phase.WaitServerFlight? then OnServerFinished(cr, cfg, e, m) else e
    case ClientHelloBody(_) => e
  }

  function ServerDirection(hs: Option<Secrets>): (k: Option<Keys>)
  {
    if hs.Some? then Some(hs.value.server) else None
  }

  function ClientReceive(cr: Crypto, cfg: Config, e: Endpoint, r: Record): (next: Endpoint)
  {
    var m := Open(cr, r, ServerDirection(e.hs));
    if m.None? then e else ClientOn(cr, cfg, e, m.value)
  }

  // ----- Server -----

  function StartServer(): (e: Endpoint)
  {
    Blank(WaitClientHello)
  }

  function RetryBody(cr: Crypto, cfg: Config, c: ClientHello): (b: Body)
  {
    ServerHelloBody(ServerHello(HRR_RANDOM, c.sessionId, cfg.suite, None, cfg.cid, Some(cr.cookie(c.random))))
  }

  function ServerHelloFor(cfg: Config, c: ClientHello): (b: Body)
  {
    ServerHelloBody(ServerHello(cfg.random, c.sessionId, cfg.suite, Some(Share(X25519, cfg.dhPublic)), cfg.cid, None))
  }

  /** The second half of `handle_client_hello`: the ServerHello, the handshake keys and the whole flight. */
  function Respond(cr: Crypto, cfg: Config, e: Endpoint, c: ClientHello, dhe: seq<byte>): (r: Endpoint)
  {
    var e1 := Send(e, None, ServerHelloFor(cfg, c));
    var hs := HandshakeKeys(cr, cfg.suite, dhe, e1.transcript);
    var e2 := Send(e1.(hs := Some(hs)), Some(hs.server), ExtensionsBody([]));
    SendFlight(cr, cfg, e2, true, hs.server).(phase := WaitClientFlight)
  }

  /** `handle_client_hello`; a hello that is refused stays in the transcript. */
  function OnClientHello(cr: Crypto, cfg: Config, e: Endpoint, m: Message): (r: Endpoint)
    requires m.body.ClientHelloBody?
  {
    var c, h := m.body.client, Hear(e, m);
    if c.cookie.None? then Send(h, None, RetryBody(cr, cfg, c)).(phase := WaitClientHelloCookie)
    else if c.cookie.value != cr.cookie(c.random) || c.shares == [] then h
    else
      var dhe := cr.agree(cfg.dhPrivate, c.shares[0].key);
      if dhe.None? then h else Respond(cr, cfg, h, c, dhe.value)
  }

  /** `handle_client_flight_message`, Finished: the server is connected. */
  function OnClientFinished(cr: Crypto, cfg: Config, e: Endpoint, m: Message): (r: Endpoint)
    requires m.body.FinishedBody?
  {
    if e.hs.None? then e else
    var hs := e.hs.value;
    if m.body.verifyData != Tag(cr, cfg.suite, hs.client, e.transcript) then e
    else
      var h := Hear(e, m).(accepted := Some(e.transcript));
      h.(app := Some(AppKeys(cr, cfg.suite, hs.base, h.transcript)), connected := true, phase := ServerConnected)
  }

  function ServerOn(cr: Crypto, cfg: Config, e: Endpoint, m: Message): (r: Endpoint)
  {
    match m.body
    case ClientHelloBody(_) =>
      if e.phase.WaitClientHello? || e.phase.WaitClientHelloCookie? then OnClientHello(cr, cfg, e, m) else e
    case CertificateBody(_, _) => if e.phase.WaitClientFlight? then OnCertificate(cfg, e, m) else e
    case VerifyBody(_, _) => if e.phase.WaitClientFlight? then OnVerify(cr, cfg, e, m, false) else e
    case FinishedBody(_) => if e.phase.WaitClientFlight? then OnClientFinished(cr, cfg, e, m) else e
    case _ => e
  }

  function ClientDirection(hs: Option<Secrets>): (k: Option<Keys>)
  {
    if hs.Some? then Some(hs.value.client) else None
  }

  function ServerReceive(cr: Crypto, cfg: Config, e: Endpoint, r: Record): (next: Endpoint)
  {
    var m := Open(cr, r, ClientDirection(e.hs));
    if m.None? then e else ServerOn(cr, cfg, e, m.value)
  }
}
