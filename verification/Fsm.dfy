/** The BGP peer state machine of tpt-bgp/src/fsm.rs, and what holds over every sequence of events. */
module Fsm {
  import opened BigEndian
  import opened BgpTypes
  import opened Wrappers

  datatype State = Idle | Connect | Active | OpenSent | OpenConfirm | Established

  datatype Notification = Notification(code: byte, subcode: byte, data: seq<byte>)

  const CEASE := Notification(6, 0, [])
  const HOLD_EXPIRED := Notification(4, 0, [])

  datatype Event =
    | ManualStart
    | ManualStop
    | TcpConnectionValid
    | TcpConnectionFailed
    | TcpConnectionOpened
    | TcpClose
    | OpenValid(id: Quad)
    | OpenInvalid(n: Notification)
    | NotificationReceived(n: Notification)
    | KeepaliveReceived
    | HoldTimerExpired
    | KeepaliveTimerExpired
    | DelayOpenTimerExpired
    | IdleHoldTimerExpired

  datatype Action =
    | InitiateTcpConnection
    | ReleaseTcpConnection
    | SendOpen
    | SendKeepalive
    | SendNotification(n: Notification)
    | StartConnectRetryTimer
    | StartHoldTimer
    | StartKeepaliveTimer
    | StartDelayOpenTimer
    | StartIdleHoldTimer

  // ----- The specification: one table per state -----

  /** Where an event leads, the identifier it teaches, and what the caller is asked to do. */
  datatype Reaction = Reaction(next: State, learned: Option<Quad>, actions: seq<Action>)

  function Go(next: State, actions: seq<Action>): (r: Reaction)
  {
    Reaction(next, None, actions)
  }

  const DIAL := Go(Connect, [InitiateTcpConnection, StartConnectRetryTimer, StartDelayOpenTimer])
  const OPEN := Go(OpenSent, [SendOpen, StartHoldTimer])
  const DROP := Go(Idle, [ReleaseTcpConnection, StartIdleHoldTimer])

  function Notify(n: Notification): (r: Reaction)
  {
    Go(Idle, [SendNotification(n), ReleaseTcpConnection, StartIdleHoldTimer])
  }

  function InIdle(e: Event): (r: Reaction)
  {
    if e.ManualStart? || e.IdleHoldTimerExpired? then DIAL else Go(Idle, [])
  }

  function InConnect(e: Event): (r: Reaction)
  {
    match e
    case ManualStop => DROP
    case TcpConnectionValid | TcpConnectionOpened | DelayOpenTimerExpired => OPEN
    case TcpConnectionFailed => Go(Idle, [StartConnectRetryTimer, StartIdleHoldTimer])
    case OpenInvalid(n) => Notify(n)
    case _ => Go(Connect, [])
  }

  function InActive(e: Event): (r: Reaction)
  {
    match e
    case ManualStop => DROP
    case TcpConnectionValid | TcpConnectionOpened | DelayOpenTimerExpired => OPEN
    case TcpConnectionFailed => DIAL
    case _ => Go(Active, [])
  }

  function InOpenSent(local: Quad, remote: Option<Quad>, e: Event): (r: Reaction)
  {
    match e
    case ManualStop => Notify(CEASE)
    case TcpConnectionValid | TcpConnectionOpened =>
      if remote.None? then Go(OpenSent, [SendOpen])
      else if BeVal(local) <= BeVal(remote.value) then Go(OpenSent, [ReleaseTcpConnection])
      else DROP
    case OpenValid(id) => Reaction(OpenConfirm, Some(id), [SendKeepalive, StartKeepaliveTimer])
    case OpenInvalid(n) => Notify(n)
    case NotificationReceived(_) => DROP
    case HoldTimerExpired => Notify(HOLD_EXPIRED)
    case TcpClose => Go(Idle, [StartIdleHoldTimer])
    case _ => Go(OpenSent, [])
  }

  function InOpenConfirm(local: Quad, remote: Option<Quad>, e: Event): (r: Reaction)
  {
    match e
    case ManualStop => Notify(CEASE)
    case TcpConnectionValid | TcpConnectionOpened =>
      if remote.None? then Go(OpenConfirm, [])
      else if BeVal(local) <= BeVal(remote.value) then Go(OpenConfirm, [ReleaseTcpConnection])
      else Notify(CEASE)
    case KeepaliveReceived => Go(Established, [StartHoldTimer])
    case TcpClose | HoldTimerExpired | NotificationReceived(_) => DROP
    case OpenInvalid(n) => Notify(n)
    case _ => Go(OpenConfirm, [])
  }

  function InEstablished(e: Event): (r: Reaction)
  {
    match e
    case ManualStop | TcpClose | HoldTimerExpired | OpenInvalid(_) | NotificationReceived(_) => Notify(CEASE)
    case KeepaliveReceived => Go(Established, [StartHoldTimer])
    case KeepaliveTimerExpired => Go(Established, [SendKeepalive, StartKeepaliveTimer])
    case _ => Go(Established, [])
  }

  datatype Peer = Peer(state: State, local: Quad, remote: Option<Quad>) {
    function React(e: Event): (r: Reaction)
    {
      match state
      case Idle => InIdle(e)
      case Connect => InConnect(e)
      case Active => InActive(e)
      case OpenSent => InOpenSent(local, remote, e)
      case OpenConfirm => InOpenConfirm(local, remote, e)
      case Established => InEstablished(e)
    }

    function After(e: Event): (p: Peer)
    {
      var r := React(e);
      Peer(r.next, local, if r.next.Idle? then None else if r.learned.Some? then r.learned else remote)
    }
  }

  // ----- Over every run -----

  function Start(local: Quad): (p: Peer)
  {
    Peer(Idle, local, None)
  }

  /** The machine after the first `n` events. */
  function At(local: Quad, events: seq<Event>, n: nat): (p: Peer)
    requires n <= |events|
  {
    if n == 0 then Start(local) else At(local, events, n - 1).After(events[n - 1])
  }

  predicate Consistent(p: Peer)
  {
    !p.state.Active? && (p.remote.Some? <==> p.state.OpenConfirm? || p.state.Established?)
  }

  /** Active is never reached, and an identifier is known exactly in OpenConfirm and Established. */
  lemma {:induction false} AlwaysConsistent(local: Quad, events: seq<Event>, n: nat)
    requires n <= |events|
    ensures Consistent(At(local, events, n))
  {
    if n > 0 { AlwaysConsistent(local, events, n - 1); }
  }

  /** So a second connection in OpenSent always sends another OPEN and never resolves a collision. */
  lemma NoCollisionInOpenSent(local: Quad, events: seq<Event>, n: nat, e: Event)
    requires n <= |events| && At(local, events, n).state.OpenSent?
    requires e.TcpConnectionValid? || e.TcpConnectionOpened?
    ensures At(local, events, n).React(e) == Go(OpenSent, [SendOpen])
  {
    AlwaysConsistent(local, events, n);
  }

  /** The state stays `s` from time `from` up to and including time `to`. */
  predicate Throughout(local: Quad, events: seq<Event>, from: nat, to: nat, s: State)
    requires to <= |events|
  {
    forall t :: from <= t <= to ==> At(local, events, t).state == s
  }

  /** The OPEN was sent by step `i`, and nothing but OpenSent since. */
  predicate OpenedAt(local: Quad, events: seq<Event>, n: nat, i: nat)
    requires n <= |events|
  {
    && i < n && At(local, events, i).state.Connect? && SendOpen in At(local, events, i).React(events[i]).actions
    && Throughout(local, events, i + 1, n, OpenSent)
  }

  /** A valid OPEN taught the identifier at step `j`, after our own OPEN at step `i`. */
  predicate ConfirmedAt(local: Quad, events: seq<Event>, n: nat, i: nat, j: nat)
    requires n <= |events|
  {
    && j < n && OpenedAt(local, events, j, i) && events[j].OpenValid?
    && At(local, events, n).remote == Some(events[j].id)
    && Throughout(local, events, j + 1, n, OpenConfirm)
  }

  /** The first KEEPALIVE came at step `k`, after both OPENs. */
  predicate EstablishedAt(local: Quad, events: seq<Event>, n: nat, i: nat, j: nat, k: nat)
    requires n <= |events|
  {
    && k < n && ConfirmedAt(local, events, k, i, j) && events[k].KeepaliveReceived?
    && At(local, events, n).remote == Some(events[j].id)
    && Throughout(local, events, k + 1, n, Established)
  }

  lemma ArrivesOpenSent(p: Peer, e: Event)
    requires Consistent(p) && p.After(e).state.OpenSent?
    ensures p.state.OpenSent? || (p.state.Connect? && SendOpen in p.React(e).actions)
  {
    assert OPEN.actions[0] == SendOpen;
  }

  lemma ArrivesOpenConfirm(p: Peer, e: Event)
    requires Consistent(p) && p.After(e).state.OpenConfirm?
    ensures if p.state.OpenConfirm? then p.After(e).remote == p.remote
            else p.state.OpenSent? && e.OpenValid? && p.After(e).remote == Some(e.id)
  {}

  lemma ArrivesEstablished(p: Peer, e: Event)
    requires Consistent(p) && p.After(e).state.Established?
    ensures p.After(e).remote == p.remote
    ensures p.state.Established? || (p.state.OpenConfirm? && e.KeepaliveReceived?)
  {}

  lemma ThroughoutNext(local: Quad, events: seq<Event>, from: nat, n: nat, s: State)
    requires 0 < n <= |events|
    requires from == n || Throughout(local, events, from, n - 1, s)
    requires At(local, events, n).state == s
    ensures Throughout(local, events, from, n, s)
  {}

  lemma {:induction false} OpenSentHistory(local: Quad, events: seq<Event>, n: nat) returns (i: nat)
    requires n <= |events| && At(local, events, n).state.OpenSent?
    ensures OpenedAt(local, events, n, i)
  {
    AlwaysConsistent(local, events, n - 1);
    ArrivesOpenSent(At(local, events, n - 1), events[n - 1]);
    if At(local, events, n - 1).state.OpenSent? {
      i := OpenSentHistory(local, events, n - 1);
    } else {
      i := n - 1;
    }
    ThroughoutNext(local, events, i + 1, n, OpenSent);
  }

  lemma {:induction false} OpenConfirmHistory(local: Quad, events: seq<Event>, n: nat) returns (i: nat, j: nat)
    requires n <= |events| && At(local, events, n).state.OpenConfirm?
    ensures ConfirmedAt(local, events, n, i, j)
  {
    AlwaysConsistent(local, events, n - 1);
    ArrivesOpenConfirm(At(local, events, n - 1), events[n - 1]);
    if At(local, events, n - 1).state.OpenConfirm? {
      i, j := OpenConfirmHistory(local, events, n - 1);
    } else {
      j := n - 1;
      i := OpenSentHistory(local, events, j);
    }
    ThroughoutNext(local, events, j + 1, n, OpenConfirm);
  }

  /**
   Whenever the machine is Established, it sent its OPEN, then received a valid OPEN with the identifier it
   holds, then a KEEPALIVE, in that order, and has been OpenSent, OpenConfirm and Established in between.
   */
  lemma {:induction false} EstablishedHistory(local: Quad, events: seq<Event>, n: nat) returns (i: nat, j: nat, k: nat)
    requires n <= |events| && At(local, events, n).state.Established?
    ensures EstablishedAt(local, events, n, i, j, k)
  {
    AlwaysConsistent(local, events, n - 1);
    ArrivesEstablished(At(local, events, n - 1), events[n - 1]);
    if At(local, events, n - 1).state.Established? {
      i, j, k := EstablishedHistory(local, events, n - 1);
    } else {
      k := n - 1;
      i, j := OpenConfirmHistory(local, events, k);
    }
    ThroughoutNext(local, events, k + 1, n, Established);
  }

  /** Falling back to Idle always restarts the IdleHold timer, so the machine can dial again. */
  lemma FallingBackRearms(p: Peer, e: Event)
    requires !p.state.Idle? && p.After(e).state.Idle?
    ensures StartIdleHoldTimer in p.React(e).actions
    ensures p.After(e).After(IdleHoldTimerExpired).state == Connect
    ensures InitiateTcpConnection in p.After(e).React(IdleHoldTimerExpired).actions
  {
    assert DROP.actions[1] == StartIdleHoldTimer;
    assert forall n :: Notify(n).actions[2] == StartIdleHoldTimer;
  }

  // ----- The machine itself -----

  class Machine {
    var state: State
    const local: Quad
    var remote: Option<Quad>

    ghost function Abstract(): (p: Peer)
      reads this
    {
      Peer(state, local, remote)
    }

    constructor (local: Quad)
      ensures Abstract() == Start(local)
    {
      state := Idle;
      this.local := local;
      remote := None;
    }

    method CloseDown(n: Option<Notification>) returns (next: State, actions: seq<Action>)
      ensures next == Idle
      ensures actions == if n.Some? then Notify(n.value).actions else DROP.actions
    {
      next := Idle;
      actions := [];
      if n.Some? { actions := actions + [SendNotification(n.value)]; }
      actions := actions + [ReleaseTcpConnection];
      actions := actions + [StartIdleHoldTimer];
    }

    method OnEvent(e: Event) returns (actions: seq<Action>)
      modifies this
      ensures Abstract() == old(Abstract()).After(e)
      ensures actions == old(Abstract()).React(e).actions
    {
      actions := [];
      var next := state;
      match state {
      case Idle =>
        if e.ManualStart? || e.IdleHoldTimerExpired? {
          next := Connect;
          actions := [InitiateTcpConnection, StartConnectRetryTimer, StartDelayOpenTimer];
        }
      case Connect =>
        if e.ManualStop? {
          next, actions := CloseDown(None);
        } else if e.TcpConnectionValid? || e.TcpConnectionOpened? || e.DelayOpenTimerExpired? {
          next, actions := OpenSent, [SendOpen, StartHoldTimer];
        } else if e.TcpConnectionFailed? {
          next, actions := Idle, [StartConnectRetryTimer, StartIdleHoldTimer];
        } else if e.OpenInvalid? {
          next, actions := CloseDown(Some(e.n));
        }
      case Active =>
        if e.ManualStop? {
          next, actions := CloseDown(None);
        } else if e.TcpConnectionValid? || e.TcpConnectionOpened? || e.DelayOpenTimerExpired? {
          next, actions := OpenSent, [SendOpen, StartHoldTimer];
        } else if e.TcpConnectionFailed? {
          next, actions := Connect, [InitiateTcpConnection, StartConnectRetryTimer, StartDelayOpenTimer];
        }
      case OpenSent =>
        next, actions := WhenOpenSent(e);
      case OpenConfirm =>
        next, actions := WhenOpenConfirm(e);
      case Established =>
        if e.ManualStop? || e.TcpClose? || e.HoldTimerExpired? || e.OpenInvalid? || e.NotificationReceived? {
          next, actions := CloseDown(Some(CEASE));
        } else if e.KeepaliveReceived? {
          actions := [StartHoldTimer];
        } else if e.KeepaliveTimerExpired? {
          actions := [SendKeepalive, StartKeepaliveTimer];
        }
      }
      if next == Idle { remote := None; }
      state := next;
    }

    method WhenOpenSent(e: Event) returns (next: State, actions: seq<Action>)
      requires state == OpenSent
      modifies this`remote
      ensures next == InOpenSent(local, old(remote), e).next
      ensures InOpenSent(local, old(remote), e).learned == if e.OpenValid? then Some(e.id) else None
      ensures actions == InOpenSent(local, old(remote), e).actions
      ensures remote == if e.OpenValid? then Some(e.id) else old(remote)
    {
      next, actions := OpenSent, [];
      if e.ManualStop? {
        next, actions := CloseDown(Some(CEASE));
      } else if e.TcpConnectionValid? || e.TcpConnectionOpened? {
        if remote.Some? {
          if BeVal(local) <= BeVal(remote.value) {
            actions := [ReleaseTcpConnection];
          } else {
            next, actions := CloseDown(None);
          }
        } else {
          actions := [SendOpen];
        }
      } else if e.OpenValid? {
        remote := Some(e.id);
        next, actions := OpenConfirm, [SendKeepalive, StartKeepaliveTimer];
      } else if e.OpenInvalid? {
        next, actions := CloseDown(Some(e.n));
      } else if e.NotificationReceived? {
        next, actions := CloseDown(None);
      } else if e.HoldTimerExpired? {
        next, actions := CloseDown(Some(HOLD_EXPIRED));
      } else if e.TcpClose? {
        next, actions := Idle, [StartIdleHoldTimer];
      }
    }

    method WhenOpenConfirm(e: Event) returns (next: State, actions: seq<Action>)
      requires state == OpenConfirm
      ensures next == InOpenConfirm(local, remote, e).next
      ensures actions == InOpenConfirm(local, remote, e).actions
    {
      next, actions := OpenConfirm, [];
      if e.ManualStop? {
        next, actions := CloseDown(Some(CEASE));
      } else if e.TcpConnectionValid? || e.TcpConnectionOpened? {
        if remote.Some? {
          if BeVal(local) <= BeVal(remote.value) {
            actions := [ReleaseTcpConnection];
          } else {
            next, actions := CloseDown(Some(CEASE));
          }
        }
      } else if e.KeepaliveReceived? {
        next, actions := Established, [StartHoldTimer];
      } else if e.TcpClose? || e.HoldTimerExpired? || e.NotificationReceived? {
        next, actions := CloseDown(None);
      } else if e.OpenInvalid? {
        next, actions := CloseDown(Some(e.n));
      }
    }
  }
}
