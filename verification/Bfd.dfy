/**
 The BFD session of tpt-bfd/src/session.rs, and two of them over a network that loses, duplicates and
 reorders packets. Time is a parameter, in microseconds; packets are not authenticated.
 */
module Bfd {
  import opened BigEndian
  import opened Wrappers

  datatype State = AdminDown | Down | Init | Up

  datatype Diagnostic = NoDiagnostic | DetectionTimeExpired | NeighborSignaledDown | AdministrativelyDown

  datatype Config = Config(discr: u32, minTx: u32, minRx: u32, mult: byte, demand: bool, independent: bool, passive: bool)

  datatype Packet = Packet(version: byte, diag: Diagnostic, state: State, poll: bool, final: bool, independent: bool,
                           demand: bool, multipoint: bool, mult: byte, mine: u32, yours: u32, minTx: u32, minRx: u32)

  datatype Session = Session(cfg: Config, state: State, diag: Diagnostic, remoteDiscr: u32, remoteState: State,
                             remoteDemand: bool, remoteMinRx: u32, remoteMinTx: u32, remoteMult: byte,
                             lastRx: Option<int>, polling: bool, pollStart: Option<int>)
  {
    predicate RemoteDemandActive()
    {
      remoteDemand && state == Up && remoteState == Up
    }

    /** While the session is not Up, at least a second apart. */
    function EffectiveMinTx(): (n: u32)
    {
      if state == Up || cfg.minTx >= 1_000_000 then cfg.minTx else 1_000_000
    }

    function DetectionTime(): (t: int)
    {
      if RemoteDemandActive() then Max(EffectiveMinTx(), remoteMinRx) * cfg.mult
      else Max(cfg.minRx, remoteMinTx) * remoteMult
    }

    predicate ShouldSend()
    {
      && !(cfg.passive && remoteDiscr == 0)
      && remoteMinRx != 0
      && !(RemoteDemandActive() && !polling)
    }

    function Build(poll: bool, final: bool): (p: Packet)
    {
      Packet(1, diag, state, poll, final, cfg.independent, cfg.demand && state == Up && remoteState == Up, false,
             cfg.mult, cfg.discr, remoteDiscr, EffectiveMinTx(), cfg.minRx)
    }

    predicate Discards(p: Packet)
    {
      || p.version != 1 || p.mult == 0 || p.multipoint || p.mine == 0
      || (p.yours != 0 && p.yours != cfg.discr)
      || (p.yours == 0 && p.state != Down && p.state != AdminDown)
    }

    function Learn(p: Packet): (s: Session)
    {
      var known := this.(remoteDiscr := p.mine, remoteState := p.state, remoteDemand := p.demand, remoteMinRx := p.minRx,
                         remoteMinTx := p.minTx, remoteMult := p.mult);
      if p.final && polling then known.(polling := false, pollStart := None) else known
    }

    function Advance(heard: State): (s: Session)
    {
      if heard == AdminDown then if state != Down then this.(state := Down, diag := NeighborSignaledDown) else this
      else if state == Down then
        if heard == Down then this.(state := Init) else if heard == Init then this.(state := Up) else this
      else if state == Init then if heard == Init || heard == Up then this.(state := Up) else this
      else if heard == Down then this.(state := Down, diag := NeighborSignaledDown)
      else this
    }

    /** `process_packet` on a packet that is not discarded: the new state and the answer to a poll. */
    function Accept(p: Packet, now: int): (r: (Session, Option<Packet>))
    {
      var known := Learn(p);
      if state == AdminDown then (known.(lastRx := Some(now)), None)
      else
        var moved := known.Advance(p.state);
        (moved.(lastRx := Some(now)), if p.poll then Some(moved.Build(false, true)) else None)
    }

    function DeclareDown(): (s: Session)
    {
      this.(state := Down, diag := DetectionTimeExpired, remoteDiscr := 0)
    }

    predicate TimedOut(now: int)
    {
      if RemoteDemandActive() then polling && pollStart.Some? && now - pollStart.value >= DetectionTime()
      else (state == Init || state == Up) && lastRx.Some? && now - lastRx.value >= DetectionTime()
    }

    function CheckTimeout(now: int): (s: Session)
    {
      if !TimedOut(now) then this
      else if RemoteDemandActive() then DeclareDown().(polling := false, pollStart := None)
      else DeclareDown()
    }

    function GoAdminDown(): (s: Session)
    {
      this.(state := AdminDown, diag := AdministrativelyDown)
    }

    function GoAdminUp(): (s: Session)
    {
      if state == AdminDown then this.(state := Down, diag := NoDiagnostic) else this
    }

    function StartPoll(now: int): (s: Session)
    {
      this.(polling := true, pollStart := Some(now))
    }
  }

  function Max(a: int, b: int): (m: int)
  {
    if a >= b then a else b
  }

  function Fresh(cfg: Config): (s: Session)
  {
    Session(cfg, Down, NoDiagnostic, 0, Down, false, 1, 0, 0, None, false, None)
  }

  // ----- Two endpoints -----

  /** An endpoint, all packets it has ever sent, and whether it has accepted one. */
  datatype Node = Node(session: Session, sent: seq<Packet>, accepted: bool)

  datatype System = System(a: Node, b: Node)

  /** What one endpoint does; a delivery names one of the packets the other has sent. */
  datatype Action =
    | Transmit
    | Deliver(i: nat, now: int)
    | Timeout(now: int)
    | SetAdminDown
    | SetAdminUp
    | Poll(now: int)

  function Act(n: Node, peer: Node, x: Action): (r: Node)
  {
    match x
    case Transmit =>
      if n.session.ShouldSend() then n.(sent := n.sent + [n.session.Build(n.session.polling, false)]) else n
    case Deliver(i, now) =>
      if i >= |peer.sent| || n.session.Discards(peer.sent[i]) then n
      else
        var r := n.session.Accept(peer.sent[i], now);
        Node(r.0, if r.1.Some? then n.sent + [r.1.value] else n.sent, true)
    case Timeout(now) => n.(session := n.session.CheckTimeout(now))
    case SetAdminDown => n.(session := n.session.GoAdminDown())
    case SetAdminUp => n.(session := n.session.GoAdminUp())
    case Poll(now) => n.(session := n.session.StartPoll(now))
  }

  datatype Step = Step(atA: bool, action: Action)

  function Next(sys: System, x: Step): (r: System)
  {
    if x.atA then sys.(a := Act(sys.a, sys.b, x.action)) else sys.(b := Act(sys.b, sys.a, x.action))
  }

  function Run(ca: Config, cb: Config, steps: seq<Step>): (sys: System)
  {
    if steps == [] then System(Node(Fresh(ca), [], false), Node(Fresh(cb), [], false))
    else Next(Run(ca, cb, steps[..|steps| - 1]), steps[|steps| - 1])
  }

  predicate Honest(cfg: Config)
  {
    cfg.discr != 0 && cfg.mult != 0
  }

  // ----- Invariants -----

  predicate Engaged(s: State)
  {
    s == Init || s == Up
  }

  /** A packet `n` may have sent to a peer with discriminator `peer`. */
  predicate PacketOk(n: Node, peer: u32, p: Packet)
  {
    && p.version == 1 && p.mult != 0 && !p.multipoint && p.mine == n.session.cfg.discr
    && (p.yours == 0 || p.yours == peer)
    && (Engaged(p.state) ==> p.yours == peer && n.accepted)
  }

  predicate NodeInv(n: Node, peer: Node)
  {
    var s, d := n.session, peer.session.cfg.discr;
    && Honest(s.cfg)
    && (s.remoteDiscr == 0 || s.remoteDiscr == d)
    && (Engaged(s.state) ==> s.remoteDiscr == d && n.accepted)
    && (s.state == Up ==> peer.accepted)
    && (forall i :: 0 <= i < |n.sent| ==> PacketOk(n, d, n.sent[i]))
  }

  /**
   What a session builds is not discarded exactly by the one it addresses; or, while it addresses none and is not
   engaged, by nobody. Whoever accepts it knows the sender's settings from then on.
   */
  lemma BuiltIsHeard(s: Session, t: Session, poll: bool, final: bool)
    requires Honest(s.cfg) && t.cfg.discr != 0
    ensures var p := s.Build(poll, final);
            !t.Discards(p) <==> s.remoteDiscr == t.cfg.discr || (s.remoteDiscr == 0 && !Engaged(s.state))
    ensures var k := t.Learn(s.Build(poll, final));
            && k.remoteDiscr == s.cfg.discr && k.remoteState == s.state && k.remoteMult == s.cfg.mult
            && k.remoteMinRx == s.cfg.minRx && k.remoteMinTx == s.EffectiveMinTx() && k.remoteMinTx >= s.cfg.minTx
            && (k.polling <==> t.polling && !final) && k.cfg == t.cfg && k.state == t.state
            && (!k.RemoteDemandActive() ==> k.DetectionTime() == Max(t.cfg.minRx, s.EffectiveMinTx()) * s.cfg.mult)
  {}

  lemma BuiltOk(n: Node, peer: Node, poll: bool, final: bool)
    requires NodeInv(n, peer)
    ensures PacketOk(n, peer.session.cfg.discr, n.session.Build(poll, final))
  {}

  /** No packet of an honest peer is discarded. */
  lemma NeverDiscards(n: Node, peer: Node, i: nat)
    requires NodeInv(n, peer) && NodeInv(peer, n) && i < |peer.sent|
    ensures !n.session.Discards(peer.sent[i])
  {
    assert PacketOk(peer, n.session.cfg.discr, peer.sent[i]);
  }

  lemma AcceptKeeps(n: Node, peer: Node, p: Packet, now: int)
    requires NodeInv(n, peer) && NodeInv(peer, n) && PacketOk(peer, n.session.cfg.discr, p)
    ensures NodeInv(Node(n.session.Accept(p, now).0, n.sent, true), peer)
  {
    var r := Node(n.session.Accept(p, now).0, n.sent, true);
    forall i | 0 <= i < |r.sent| ensures PacketOk(r, peer.session.cfg.discr, r.sent[i]) {
      assert PacketOk(n, peer.session.cfg.discr, n.sent[i]);
    }
  }

  lemma SendKeeps(n: Node, peer: Node, poll: bool, final: bool)
    requires NodeInv(n, peer)
    ensures NodeInv(n.(sent := n.sent + [n.session.Build(poll, final)]), peer)
  {
    BuiltOk(n, peer, poll, final);
    var r := n.(sent := n.sent + [n.session.Build(poll, final)]);
    forall i | 0 <= i < |r.sent| ensures PacketOk(r, peer.session.cfg.discr, r.sent[i]) {
      if i < |n.sent| { assert PacketOk(n, peer.session.cfg.discr, n.sent[i]); }
    }
  }

  lemma DeliverKeeps(n: Node, peer: Node, i: nat, now: int)
    requires NodeInv(n, peer) && NodeInv(peer, n)
    ensures NodeInv(Act(n, peer, Deliver(i, now)), peer)
  {
    if i < |peer.sent| {
      var p := peer.sent[i];
      NeverDiscards(n, peer, i);
      AcceptKeeps(n, peer, p, now);
      var moved := Node(n.session.Accept(p, now).0, n.sent, true);
      SendKeeps(moved, peer, false, true);
      AnswerIsBuilt(n.session, p, now);
    }
  }

  /** The answer to a poll is what the session would build after the packet. */
  lemma AnswerIsBuilt(s: Session, p: Packet, now: int)
    ensures var r := s.Accept(p, now); r.1.Some? ==> r.1.value == r.0.Build(false, true)
  {}

  lemma ActKeeps(n: Node, peer: Node, x: Action)
    requires NodeInv(n, peer) && NodeInv(peer, n)
    ensures NodeInv(Act(n, peer, x), peer)
    ensures Act(n, peer, x).session.cfg == n.session.cfg && (n.accepted ==> Act(n, peer, x).accepted)
  {
    ConfigStays(n, peer, x);
    match x {
      case Transmit => SendKeeps(n, peer, n.session.polling, false);
      case Deliver(i, now) => DeliverKeeps(n, peer, i, now);
      case _ => LocalKeeps(n, peer, x);
    }
  }

  lemma LocalKeeps(n: Node, peer: Node, x: Action)
    requires NodeInv(n, peer) && !x.Transmit? && !x.Deliver?
    ensures NodeInv(Act(n, peer, x), peer)
  {
    var r := Act(n, peer, x);
    forall i | 0 <= i < |r.sent| ensures PacketOk(r, peer.session.cfg.discr, r.sent[i]) {
      assert PacketOk(n, peer.session.cfg.discr, n.sent[i]);
    }
  }

  /** The peer of a node that acts keeps its invariant: the other side only gains. */
  lemma PeerKeeps(n: Node, peer: Node, after: Node)
    requires NodeInv(peer, n) && after.session.cfg == n.session.cfg && (n.accepted ==> after.accepted)
    ensures NodeInv(peer, after)
  {}

  /** Over every run of losses, duplications, reorderings, timeouts, polls and administrative actions. */
  lemma {:induction false} AlwaysInv(ca: Config, cb: Config, steps: seq<Step>)
    requires Honest(ca) && Honest(cb)
    ensures NodeInv(Run(ca, cb, steps).a, Run(ca, cb, steps).b)
    ensures NodeInv(Run(ca, cb, steps).b, Run(ca, cb, steps).a)
  {
    if steps != [] {
      var sys, x := Run(ca, cb, steps[..|steps| - 1]), steps[|steps| - 1];
      AlwaysInv(ca, cb, steps[..|steps| - 1]);
      if x.atA {
        ActKeeps(sys.a, sys.b, x.action);
        PeerKeeps(sys.a, sys.b, Act(sys.a, sys.b, x.action));
      } else {
        ActKeeps(sys.b, sys.a, x.action);
        PeerKeeps(sys.b, sys.a, Act(sys.b, sys.a, x.action));
      }
    }
  }

  /** An engaged session knows its peer's discriminator, and is Up only if each side has accepted a packet. */
  lemma EngagedKnowsPeer(ca: Config, cb: Config, steps: seq<Step>)
    requires Honest(ca) && Honest(cb)
    ensures var sys := Run(ca, cb, steps);
            && (Engaged(sys.a.session.state) ==> sys.a.session.remoteDiscr == cb.discr)
            && (Engaged(sys.b.session.state) ==> sys.b.session.remoteDiscr == ca.discr)
            && (sys.a.session.state == Up || sys.b.session.state == Up ==> sys.a.accepted && sys.b.accepted)
  {
    AlwaysInv(ca, cb, steps);
    ConfigsStay(ca, cb, steps);
  }

  lemma ConfigStays(n: Node, peer: Node, x: Action)
    ensures Act(n, peer, x).session.cfg == n.session.cfg
  {}

  lemma {:induction false} ConfigsStay(ca: Config, cb: Config, steps: seq<Step>)
    ensures Run(ca, cb, steps).a.session.cfg == ca && Run(ca, cb, steps).b.session.cfg == cb
  {
    if steps != [] {
      var sys, x := Run(ca, cb, steps[..|steps| - 1]), steps[|steps| - 1].action;
      ConfigsStay(ca, cb, steps[..|steps| - 1]);
      ConfigStays(sys.a, sys.b, x);
      ConfigStays(sys.b, sys.a, x);
    }
  }

  /** Whatever has been sent, whenever it arrives, is accepted. */
  lemma NothingDiscarded(ca: Config, cb: Config, steps: seq<Step>, i: nat)
    requires Honest(ca) && Honest(cb)
    ensures var sys := Run(ca, cb, steps);
            && (i < |sys.a.sent| ==> !sys.b.session.Discards(sys.a.sent[i]))
            && (i < |sys.b.sent| ==> !sys.a.session.Discards(sys.b.sent[i]))
  {
    AlwaysInv(ca, cb, steps);
    var sys := Run(ca, cb, steps);
    if i < |sys.a.sent| { NeverDiscards(sys.b, sys.a, i); }
    if i < |sys.b.sent| { NeverDiscards(sys.a, sys.b, i); }
  }

  function At(sys: System, atA: bool): (n: Node)
  {
    if atA then sys.a else sys.b
  }

  /** Only an administrative action ends AdminDown. */
  lemma ActLeavesDown(n: Node, peer: Node, x: Action)
    requires n.session.state == AdminDown && x != SetAdminUp
    ensures Act(n, peer, x).session.state == AdminDown
  {}

  /** A session that was AdminDown at some time of a run and is not later on has been brought up in between. */
  lemma {:induction false} AdminDownStays(ca: Config, cb: Config, steps: seq<Step>, atA: bool, i: nat, j: nat)
    requires i <= j <= |steps| && At(Run(ca, cb, steps[..i]), atA).session.state == AdminDown
    requires At(Run(ca, cb, steps[..j]), atA).session.state != AdminDown
    ensures exists k :: i <= k < j && steps[k] == Step(atA, SetAdminUp)
  {
    assert i < j;
    var sys, x := Run(ca, cb, steps[..j - 1]), steps[j - 1];
    assert steps[..j][..j - 1] == steps[..j - 1];
    if At(sys, atA).session.state != AdminDown {
      AdminDownStays(ca, cb, steps, atA, i, j - 1);
    } else if x != Step(atA, SetAdminUp) {
      if x.atA == atA { ActLeavesDown(At(sys, atA), At(sys, !atA), x.action); }
      assert false;
    }
  }

  /** Three packets bring two fresh sessions Up, if the first to speak is active. */
  lemma ThreeWayUp(ca: Config, cb: Config, now: int)
    requires Honest(ca) && Honest(cb) && !ca.passive && ca.minRx != 0 && cb.minRx != 0
    ensures var sys := Run(ca, cb, [Step(true, Transmit), Step(false, Deliver(0, now)), Step(false, Transmit),
                                    Step(true, Deliver(0, now)), Step(true, Transmit), Step(false, Deliver(1, now))]);
            sys.a.session.state == Up && sys.b.session.state == Up
  {
    var s1 := Next(Run(ca, cb, []), Step(true, Transmit));
    var s2 := Next(s1, Step(false, Deliver(0, now)));
    assert s2.b.session.state == Init && s2.b.session.remoteDiscr == ca.discr;
    var s3 := Next(s2, Step(false, Transmit));
    var s4 := Next(s3, Step(true, Deliver(0, now)));
    assert s4.a.session.state == Up;
    var s5 := Next(s4, Step(true, Transmit));
    var s6 := Next(s5, Step(false, Deliver(1, now)));
    RunSix(ca, cb, Step(true, Transmit), Step(false, Deliver(0, now)), Step(false, Transmit),
           Step(true, Deliver(0, now)), Step(true, Transmit), Step(false, Deliver(1, now)));
  }

  lemma RunSix(ca: Config, cb: Config, x1: Step, x2: Step, x3: Step, x4: Step, x5: Step, x6: Step)
    ensures Run(ca, cb, [x1, x2, x3, x4, x5, x6])
         == Next(Next(Next(Next(Next(Next(Run(ca, cb, []), x1), x2), x3), x4), x5), x6)
  {
    assert [x1, x2, x3, x4, x5, x6][..5] == [x1, x2, x3, x4, x5] && [x1, x2, x3, x4, x5][..4] == [x1, x2, x3, x4];
    assert [x1, x2, x3, x4][..3] == [x1, x2, x3] && [x1, x2, x3][..2] == [x1, x2] && [x1, x2][..1] == [x1] && [x1][..0] == [];
    assert Run(ca, cb, [x1]) == Next(Run(ca, cb, []), x1);
    assert Run(ca, cb, [x1, x2, x3]) == Next(Run(ca, cb, [x1, x2]), x3);
    assert Run(ca, cb, [x1, x2, x3, x4, x5]) == Next(Run(ca, cb, [x1, x2, x3, x4]), x5);
  }
}
