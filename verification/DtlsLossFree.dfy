/** When nothing is lost, both endpoints of tpt-dtls/src/connection.rs connect with equal keys. */
module DtlsLossFree {
  import opened BigEndian
  import opened DtlsTypes
  import opened DtlsHandshake
  import opened DtlsAgreement
  import opened Wrappers

  /** The two sides can talk: one suite, a shared key agreement, signatures that verify, mutual trust. */
  ghost predicate Compatible(w: World, z: seq<byte>)
  {
    && w.cc.suite == w.sc.suite && w.sc.random != HRR_RANDOM
    && w.cr.agree(w.cc.dhPrivate, w.sc.dhPublic) == Some(z) && w.cr.agree(w.sc.dhPrivate, w.cc.dhPublic) == Some(z)
    && w.cc.trusts(w.sc.verifyKey) && w.sc.trusts(w.cc.verifyKey)
    && (forall b :: w.cr.verify(w.cc.verifyKey, b, w.cr.sign(w.cc.signKey, b)))
    && (forall b :: w.cr.verify(w.sc.verifyKey, b, w.cr.sign(w.sc.signKey, b)))
  }

  /** A record that opens is handled as its message. */
  lemma ClientTakes(w: World, sys: System, i: nat)
    requires w.Sane() && i < |sys.server.sent| && w.ok(sys.server.sent[i].message)
    requires sys.server.sent[i].keys.None? || sys.server.sent[i].keys == ServerDirection(sys.client.hs)
    ensures Deliver(w, sys, ToClient(i)) == sys.(client := ClientOn(w.cr, w.cc, sys.client, sys.server.sent[i].message))
  {
    OpenGives(w, sys.server.sent[i], ServerDirection(sys.client.hs));
  }

  lemma ServerTakes(w: World, sys: System, i: nat)
    requires w.Sane() && i < |sys.client.sent| && w.ok(sys.client.sent[i].message)
    requires sys.client.sent[i].keys.None? || sys.client.sent[i].keys == ClientDirection(sys.server.hs)
    ensures Deliver(w, sys, ToServer(i)) == sys.(server := ServerOn(w.cr, w.sc, sys.server, sys.client.sent[i].message))
  {
    OpenGives(w, sys.client.sent[i], ClientDirection(sys.server.hs));
  }

  lemma RunNext(w: World, schedule: seq<Delivery>, d: Delivery)
    ensures Run(w, schedule + [d]) == Deliver(w, Run(w, schedule), d)
  {
    assert (schedule + [d])[..|schedule|] == schedule;
  }

  // ----- The hello exchange -----

  /** The client has answered the retry request; its second hello is its second record. */
  predicate Retried(w: World, sys: System)
  {
    var c, s := sys.client, sys.server;
    && c.phase.WaitServerHello? && s.phase.WaitClientHelloCookie? && c.hs.None? && s.hs.None?
    && c.peerKey.None? && s.peerKey.None?
    && |c.sent| == 2 && |s.sent| == 1 && c.sent[1].keys.None? && w.ok(c.sent[1].message)
    && c.sent[1].message.body == HelloBody(w.cc, Some(w.cr.cookie(w.cc.random)))
    && c.transcript == s.transcript + [c.sent[1].message]
  }

  lemma HelloExchange(w: World)
    requires w.Sane()
    ensures Retried(w, Run(w, [ToServer(0), ToClient(0)]))
  {
    var sys := Run(w, []);
    var hello := Message(0, HelloBody(w.cc, None));
    SaysHello(w, w.cc, None, 0);
    RunNext(w, [], ToServer(0));
    ServerTakes(w, sys, 0);
    var asked := Run(w, [] + [ToServer(0)]);
    assert asked.client == sys.client;
    var retry := Message(0, RetryBody(w.cr, w.sc, hello.body.client));
    assert asked.server.sent == [Record(None, retry)] && asked.server.transcript == [hello, retry];
    SaysServerHello(w, w.sc, hello.body.client, 0);
    RunNext(w, [ToServer(0)], ToClient(0));
    assert [] + [ToServer(0)] == [ToServer(0)];
    assert [ToServer(0)] + [ToClient(0)] == [ToServer(0), ToClient(0)];
    ClientTakes(w, asked, 0);
    SaysHello(w, w.cc, Some(w.cr.cookie(w.cc.random)), 1);
  }

  /** The server has sent its hello and its whole flight. */
  ghost predicate Responded(w: World, z: seq<byte>, sys: System, hello: Message, ee: Message, cert: Message, cv: Message, fin: Message)
  {
    var c, s, t := sys.client, sys.server, sys.client.transcript;
    && c.phase.WaitServerHello? && c.hs.None? && c.peerKey.None? && s.peerKey.None? && |c.sent| == 2
    && s.phase.WaitClientFlight? && s.hs == Some(HandshakeKeys(w.cr, w.cc.suite, z, t + [hello]))
    && |s.sent| == 6 && s.transcript == t + [hello, ee, cert, cv, fin]
    && (var k := Some(s.hs.value.server);
        s.sent[1..] == [Record(None, hello), Record(k, ee), Record(k, cert), Record(k, cv), Record(k, fin)])
    && w.ok(hello) && w.ok(ee) && w.ok(cert) && w.ok(cv) && w.ok(fin)
    && hello.body.ServerHelloBody? && hello.body.server.random == w.sc.random
    && hello.body.server.share == Some(Share(X25519, w.sc.dhPublic))
    && ee.body.ExtensionsBody? && cert.body == CertificateBody([], w.sc.verifyKey)
    && cv.body == VerifyBody(ED25519, w.cr.sign(w.sc.signKey, Signed(w.cr, w.cc.suite, true, t + [hello, ee, cert])))
    && fin.body == FinishedBody(Tag(w.cr, w.cc.suite, s.hs.value.server, t + [hello, ee, cert, cv]))
  }

  lemma Response(w: World, z: seq<byte>, sys: System) returns (hello: Message, ee: Message, cert: Message, cv: Message, fin: Message)
    requires w.Sane() && Compatible(w, z) && Retried(w, sys)
    ensures Responded(w, z, Deliver(w, sys, ToServer(1)), hello, ee, cert, cv, fin)
  {
    var m := sys.client.sent[1].message;
    var h := Hear(sys.server, m);
    var r := Respond(w.cr, w.sc, h, m.body.client, z);
    assert Deliver(w, sys, ToServer(1)) == sys.(server := r) by {
      ServerTakes(w, sys, 1);
      assert OnClientHello(w.cr, w.sc, sys.server, m) == r;
    }
    hello, ee, cert, cv, fin := ResponseShape(w, h, m.body.client, z);
    assert r.sent[1..] == r.sent[|h.sent|..];
  }

  // ----- The flights -----

  /** The client has heard the server's hello and the first `n` messages of its flight. */
  ghost predicate Hearing(s: Endpoint, c: Endpoint, heard: seq<Message>)
  {
    && c.phase.WaitServerFlight? && c.hs == s.hs && s.hs.Some? && |c.sent| == 2
    && c.transcript == heard
  }

  lemma ServerHelloHeard(w: World, z: seq<byte>, sys: System, hello: Message, ee: Message, cert: Message, cv: Message, fin: Message)
    requires w.Sane() && Compatible(w, z) && Responded(w, z, sys, hello, ee, cert, cv, fin)
    ensures var next := Deliver(w, sys, ToClient(1));
            next.server == sys.server && Hearing(sys.server, next.client, sys.client.transcript + [hello])
  {
    assert sys.server.sent[1] == sys.server.sent[1..][0];
    ClientTakes(w, sys, 1);
  }

  lemma ServerFlightHeard(w: World, z: seq<byte>, sys: System, hello: Message, ee: Message, cert: Message, cv: Message, fin: Message)
    returns (last: System)
    requires w.Sane() && Compatible(w, z) && Responded(w, z, sys, hello, ee, cert, cv, fin)
    ensures last == Deliver(w, Deliver(w, Deliver(w, Deliver(w, sys, ToClient(1)), ToClient(2)), ToClient(3)), ToClient(4))
    ensures last.server == sys.server && Hearing(sys.server, last.client, sys.client.transcript + [hello, ee, cert, cv])
  {
    var s, t := sys.server, sys.client.transcript;
    assert forall i :: 1 <= i < 6 ==> s.sent[i] == s.sent[1..][i - 1];
    ServerHelloHeard(w, z, sys, hello, ee, cert, cv, fin);
    var sys1 := Deliver(w, sys, ToClient(1));
    ClientTakes(w, sys1, 2);
    var sys2 := Deliver(w, sys1, ToClient(2));
    assert t + [hello] + [ee] == t + [hello, ee];
    ClientTakes(w, sys2, 3);
    var sys3 := Deliver(w, sys2, ToClient(3));
    assert t + [hello, ee] + [cert] == t + [hello, ee, cert];
    assert sys3.client.peerKey == Some(w.sc.verifyKey);
    ClientTakes(w, sys3, 4);
    last := Deliver(w, sys3, ToClient(4));
    assert t + [hello, ee, cert] + [cv] == t + [hello, ee, cert, cv];
  }

  /** The client is connected; its flight is its last three records. */
  ghost predicate Answered(w: World, sys: System, cert: Message, cv: Message, fin: Message)
  {
    var c, s, t := sys.client, sys.server, sys.server.transcript;
    && c.connected && s.phase.WaitClientFlight? && c.hs == s.hs && s.hs.Some? && s.peerKey.None?
    && (var k := Some(c.hs.value.client);
        |c.sent| == 5 && c.sent[2..] == [Record(k, cert), Record(k, cv), Record(k, fin)])
    && w.ok(cert) && w.ok(cv) && w.ok(fin) && c.transcript == t + [cert, cv, fin]
    && cert.body == CertificateBody([], w.cc.verifyKey)
    && cv.body == VerifyBody(ED25519, w.cr.sign(w.cc.signKey, Signed(w.cr, w.cc.suite, false, t + [cert])))
    && fin.body == FinishedBody(Tag(w.cr, w.cc.suite, c.hs.value.client, t + [cert, cv]))
    && c.app == Some(AppKeys(w.cr, w.cc.suite, c.hs.value.base, c.transcript))
  }

  lemma ClientAnswers(w: World, sys: System, heard: seq<Message>, fin: Message) returns (cert: Message, cv: Message, own: Message)
    requires w.Sane() && w.ok(fin) && Hearing(sys.server, sys.client, heard)
    requires |sys.server.sent| == 6 && sys.server.sent[5] == Record(Some(sys.server.hs.value.server), fin)
    requires fin.body == FinishedBody(Tag(w.cr, w.cc.suite, sys.server.hs.value.server, heard))
    requires sys.server.phase.WaitClientFlight? && sys.server.peerKey.None? && sys.server.transcript == heard + [fin]
    ensures Answered(w, Deliver(w, sys, ToClient(5)), cert, cv, own)
  {
    ClientTakes(w, sys, 5);
    var c := sys.client;
    var h := Hear(c, fin).(accepted := Some(c.transcript));
    cert, cv, own := FlightShape(w, w.cc, h, false, c.hs.value.client);
    var next := OnServerFinished(w.cr, w.cc, c, fin);
    assert next.sent[2..] == next.sent[|c.sent|..];
  }

  lemma ServerFinal(w: World, z: seq<byte>, sys: System, cert: Message, cv: Message, fin: Message) returns (last: System)
    requires w.Sane() && Compatible(w, z) && Answered(w, sys, cert, cv, fin)
    ensures last == Deliver(w, Deliver(w, Deliver(w, sys, ToServer(2)), ToServer(3)), ToServer(4))
    ensures last.client == sys.client && last.server.connected && last.server.hs == sys.client.hs
    ensures last.server.transcript == sys.client.transcript && last.server.app == sys.client.app
  {
    var c, t := sys.client, sys.server.transcript;
    assert forall i :: 2 <= i < 5 ==> c.sent[i] == c.sent[2..][i - 2];
    ServerTakes(w, sys, 2);
    var sys1 := Deliver(w, sys, ToServer(2));
    assert sys1.server.transcript == t + [cert];
    ServerTakes(w, sys1, 3);
    var sys2 := Deliver(w, sys1, ToServer(3));
    assert t + [cert] + [cv] == t + [cert, cv];
    ServerTakes(w, sys2, 4);
    last := Deliver(w, sys2, ToServer(4));
    assert t + [cert, cv] + [fin] == t + [cert, cv, fin];
  }

  /** Every record is delivered once, in the order sent. */
  predicate LossFree(d: seq<Delivery>)
  {
    && |d| == 11 && d[0] == ToServer(0) && d[1] == ToClient(0) && d[2] == ToServer(1)
    && d[3] == ToClient(1) && d[4] == ToClient(2) && d[5] == ToClient(3) && d[6] == ToClient(4) && d[7] == ToClient(5)
    && d[8] == ToServer(2) && d[9] == ToServer(3) && d[10] == ToServer(4)
  }

  lemma {:induction false} RunSplit(w: World, schedule: seq<Delivery>, n: nat)
    requires n < |schedule|
    ensures Run(w, schedule[..n + 1]) == Deliver(w, Run(w, schedule[..n]), schedule[n])
  {
    assert schedule[..n + 1][..n] == schedule[..n];
  }

  lemma RunResponded(w: World, z: seq<byte>, d: seq<Delivery>)
    returns (hello: Message, ee: Message, cert: Message, cv: Message, fin: Message)
    requires w.Sane() && Compatible(w, z) && LossFree(d)
    ensures Responded(w, z, Run(w, d[..3]), hello, ee, cert, cv, fin)
  {
    HelloExchange(w);
    assert d[..2] == [ToServer(0), ToClient(0)];
    RunSplit(w, d, 2);
    hello, ee, cert, cv, fin := Response(w, z, Run(w, d[..2]));
  }

  lemma RunFour(w: World, sys: System, d: seq<Delivery>)
    requires LossFree(d) && sys == Run(w, d[..3])
    ensures Run(w, d[..7])
         == Deliver(w, Deliver(w, Deliver(w, Deliver(w, sys, ToClient(1)), ToClient(2)), ToClient(3)), ToClient(4))
  {
    RunSplit(w, d, 3);
    RunSplit(w, d, 4);
    RunSplit(w, d, 5);
    RunSplit(w, d, 6);
  }

  lemma RunAnswered(w: World, z: seq<byte>, d: seq<Delivery>) returns (cert: Message, cv: Message, fin: Message)
    requires w.Sane() && Compatible(w, z) && LossFree(d)
    ensures Answered(w, Run(w, d[..8]), cert, cv, fin)
  {
    var hello, ee, sCert, sCv, sFin := RunResponded(w, z, d);
    RunFour(w, Run(w, d[..3]), d);
    RunSplit(w, d, 7);
    cert, cv, fin := FlightAnswered(w, z, Run(w, d[..3]), Run(w, d[..7]), hello, ee, sCert, sCv, sFin);
  }

  lemma FlightAnswered(w: World, z: seq<byte>, sys: System, heard: System,
                       hello: Message, ee: Message, cert: Message, cv: Message, fin: Message)
    returns (ownCert: Message, ownCv: Message, own: Message)
    requires w.Sane() && Compatible(w, z) && Responded(w, z, sys, hello, ee, cert, cv, fin)
    requires heard == Deliver(w, Deliver(w, Deliver(w, Deliver(w, sys, ToClient(1)), ToClient(2)), ToClient(3)), ToClient(4))
    ensures Answered(w, Deliver(w, heard, ToClient(5)), ownCert, ownCv, own)
  {
    var same := ServerFlightHeard(w, z, sys, hello, ee, cert, cv, fin);
    assert sys.server.sent[5] == sys.server.sent[1..][4];
    var t := sys.client.transcript + [hello, ee, cert, cv];
    assert sys.server.transcript == t + [fin];
    ownCert, ownCv, own := ClientAnswers(w, heard, t, fin);
  }

  /** With every record delivered once and in order, both sides connect and hold the same keys. */
  lemma LossFreeConnects(w: World, z: seq<byte>, d: seq<Delivery>)
    requires w.Sane() && Compatible(w, z) && LossFree(d)
    ensures var sys := Run(w, d);
            && sys.client.connected && sys.server.connected && sys.client.transcript == sys.server.transcript
            && sys.client.hs == sys.server.hs && sys.client.app.Some? && sys.client.app == sys.server.app
  {
    var cert, cv, fin := RunAnswered(w, z, d);
    RunSplit(w, d, 8);
    RunSplit(w, d, 9);
    RunSplit(w, d, 10);
    var last := ServerFinal(w, z, Run(w, d[..8]), cert, cv, fin);
    assert d[..11] == d;
  }
}
