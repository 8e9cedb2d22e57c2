/** The session object of tpt-bfd/src/session.rs, whose methods update its fields as the functions of Bfd say. */
module BfdSession {
  import opened BigEndian
  import opened Bfd
  import opened Wrappers

  class Endpoint {
    const cfg: Config
    var state: State
    var diag: Diagnostic
    var remoteDiscr: u32
    var remoteState: State
    var remoteDemand: bool
    var remoteMinRx: u32
    var remoteMinTx: u32
    var remoteMult: byte
    var lastRx: Option<int>
    var polling: bool
    var pollStart: Option<int>

    ghost function Abstract(): (s: Session)
      reads this
    {
      Session(cfg, state, diag, remoteDiscr, remoteState, remoteDemand, remoteMinRx, remoteMinTx, remoteMult,
              lastRx, polling, pollStart)
    }

    constructor (cfg: Config)
      ensures Abstract() == Fresh(cfg)
    {
      this.cfg := cfg;
      state, diag, remoteDiscr, remoteState, remoteDemand := Down, NoDiagnostic, 0, Down, false;
      remoteMinRx, remoteMinTx, remoteMult, lastRx, polling, pollStart := 1, 0, 0, None, false, None;
    }

    method RemoteDemandActive() returns (r: bool)
      ensures r == Abstract().RemoteDemandActive()
    {
      return remoteDemand && state == Up && remoteState == Up;
    }

    method EffectiveMinTx() returns (n: u32)
      ensures n == Abstract().EffectiveMinTx()
    {
      if state == Up { return cfg.minTx; }
      return if cfg.minTx >= 1_000_000 then cfg.minTx else 1_000_000;
    }

    method DetectionTime() returns (t: int)
      ensures t == Abstract().DetectionTime()
    {
      var demand := RemoteDemandActive();
      if demand {
        var tx := EffectiveMinTx();
        return Max(tx, remoteMinRx) * cfg.mult;
      }
      return Max(cfg.minRx, remoteMinTx) * remoteMult;
    }

    method BuildPacket(poll: bool, final: bool) returns (p: Packet)
      ensures p == Abstract().Build(poll, final)
      ensures Honest(cfg) ==>
                forall t: Session :: t.cfg.discr != 0 ==>
                  (!t.Discards(p) <==> remoteDiscr == t.cfg.discr || (remoteDiscr == 0 && !Engaged(state)))
    {
      var tx := EffectiveMinTx();
      p := Packet(1, diag, state, poll, final, cfg.independent, cfg.demand && state == Up && remoteState == Up, false,
                  cfg.mult, cfg.discr, remoteDiscr, tx, cfg.minRx);
    }

    /** The next periodic packet, if one may be sent. */
    method NextPeriodic() returns (p: Option<Packet>)
      ensures p == if Abstract().ShouldSend() then Some(Abstract().Build(polling, false)) else None
    {
      if cfg.passive && remoteDiscr == 0 { return None; }
      if remoteMinRx == 0 { return None; }
      var demand := RemoteDemandActive();
      if demand && !polling { return None; }
      var built := BuildPacket(polling, false);
      return Some(built);
    }

    method Learn(p: Packet)
      modifies this
      ensures Abstract() == old(Abstract()).Learn(p)
    {
      remoteDiscr, remoteState, remoteDemand := p.mine, p.state, p.demand;
      remoteMinRx, remoteMinTx, remoteMult := p.minRx, p.minTx, p.mult;
      if p.final && polling {
        polling, pollStart := false, None;
      }
    }

    method Advance(heard: State)
      modifies this`state, this`diag
      ensures Abstract() == old(Abstract()).Advance(heard)
    {
      if heard == AdminDown {
        if state != Down { state, diag := Down, NeighborSignaledDown; }
      } else if state == Down {
        if heard == Down { state := Init; } else if heard == Init { state := Up; }
      } else if state == Init {
        if heard == Init || heard == Up { state := Up; }
      } else if heard == Down {
        state, diag := Down, NeighborSignaledDown;
      }
    }

    /** `process_packet`: discards, or learns, advances and answers a poll. */
    method ProcessPacket(p: Packet, now: int) returns (accepted: bool, respond: Option<Packet>)
      modifies this
      ensures accepted == !old(Abstract()).Discards(p)
      ensures !accepted ==> Abstract() == old(Abstract()) && respond == None
      ensures accepted ==> (Abstract(), respond) == old(Abstract()).Accept(p, now)
    {
      accepted, respond := false, None;
      if p.version != 1 || p.mult == 0 || p.multipoint || p.mine == 0 { return; }
      if p.yours != 0 && p.yours != cfg.discr { return; }
      if p.yours == 0 && p.state != Down && p.state != AdminDown { return; }
      accepted := true;
      Learn(p);
      if state == AdminDown {
        lastRx := Some(now);
        return;
      }
      Advance(p.state);
      if p.poll {
        var answer := BuildPacket(false, true);
        respond := Some(answer);
      }
      lastRx := Some(now);
    }

    method DeclareDown()
      modifies this
      ensures Abstract() == old(Abstract()).DeclareDown()
    {
      state, diag, remoteDiscr := Down, DetectionTimeExpired, 0;
    }

    /** Declares the session down exactly when its detection time has passed. */
    method CheckTimeout(now: int) returns (down: bool)
      modifies this
      ensures down == old(Abstract()).TimedOut(now)
      ensures Abstract() == old(Abstract()).CheckTimeout(now)
    {
      var demand := RemoteDemandActive();
      var limit := DetectionTime();
      if demand {
        if polling && pollStart.Some? && now - pollStart.value >= limit {
          DeclareDown();
          polling, pollStart := false, None;
          return true;
        }
        return false;
      }
      if (state == Init || state == Up) && lastRx.Some? && now - lastRx.value >= limit {
        DeclareDown();
        return true;
      }
      return false;
    }

    method SetAdminDown()
      modifies this
      ensures Abstract() == old(Abstract()).GoAdminDown()
    {
      state, diag := AdminDown, AdministrativelyDown;
    }

    method SetAdminUp()
      modifies this
      ensures Abstract() == old(Abstract()).GoAdminUp()
    {
      if state == AdminDown { state, diag := Down, NoDiagnostic; }
    }

    method StartPoll(now: int)
      modifies this
      ensures Abstract() == old(Abstract()).StartPoll(now)
    {
      polling, pollStart := true, Some(now);
    }
  }
}
