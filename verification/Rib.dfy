/** The routing information base and the default decision process of tpt-bgp/src/rib.rs. */
module Rib {
  import opened BigEndian
  import opened BgpTypes
  import opened Wrappers

  datatype Source = Source(peer: Quad, ibgp: bool)

  datatype Route = Route(prefix: Prefix, origin: Option<Origin>, path: AsPath, nextHop: Option<NextHop>,
                         med: Option<u32>, localPref: Option<u32>, aggregator: Option<Aggregator>,
                         communities: seq<u32>, source: Source)

  datatype Ordering = Less | Equal | Greater

  type Decision = (Option<Route>, Route) -> Ordering

  // ----- DefaultDecision::compare -----

  function Cmp(a: int, b: int): (r: Ordering)
  {
    if a < b then Less else if a == b then Equal else Greater
  }

  /** Byte arrays of equal length compare as the big-endian numbers they spell. */
  function PeerNumber(r: Route): (n: nat)
  {
    BeVal(r.source.peer)
  }

  function OrZero(x: Option<u32>): (n: nat)
  {
    if x.Some? then x.value else 0
  }

  function OriginRank(r: Route): (n: nat)
  {
    if r.origin.Some? then r.origin.value.Code() else 3
  }

  function Compare(current: Option<Route>, candidate: Route): (r: Ordering)
  {
    if current.None? then Greater
    else
      var cur := current.value;
      if OrZero(cur.localPref) != OrZero(candidate.localPref) then Cmp(OrZero(candidate.localPref), OrZero(cur.localPref))
      else if |cur.path| != |candidate.path| then Cmp(|cur.path|, |candidate.path|)
      else if OriginRank(cur) != OriginRank(candidate) then Cmp(OriginRank(cur), OriginRank(candidate))
      else if FirstAsn(cur.path) == FirstAsn(candidate.path) && OrZero(cur.med) != OrZero(candidate.med) then
        Cmp(OrZero(cur.med), OrZero(candidate.med))
      else if cur.source.ibgp != candidate.source.ibgp then if candidate.source.ibgp then Less else Greater
      else Cmp(PeerNumber(cur), PeerNumber(candidate))
  }

  predicate Beats(a: Route, b: Route)
  {
    Compare(Some(b), a) == Greater
  }

  /** Peers are told apart by their numbers. */
  lemma PeerNumberInjective(a: Quad, b: Quad)
    ensures BeVal(a) == BeVal(b) <==> a == b
  {
    BeBytesVal(a);
    BeBytesVal(b);
  }

  /** Of two routes from different sources exactly one beats the other. */
  lemma BeatsTotal(a: Route, b: Route)
    requires a.source != b.source
    ensures Beats(a, b) <==> !Beats(b, a)
  {
    PeerNumberInjective(a.source.peer, b.source.peer);
  }

  // ----- The best-so-far loop -----

  function Step(d: Decision, best: Option<Route>, r: Route): (next: Option<Route>)
  {
    if d(best, r) == Greater then Some(r) else best
  }

  /** The best route of a list, by offering its routes in order. */
  function Best(d: Decision, routes: seq<Route>): (best: Option<Route>)
  {
    if routes == [] then None else Step(d, Best(d, routes[..|routes| - 1]), routes[|routes| - 1])
  }

  lemma {:induction false} BestIsMember(d: Decision, routes: seq<Route>)
    ensures Best(d, routes).Some? ==> Best(d, routes).value in routes
  {
    if routes != [] { BestIsMember(d, routes[..|routes| - 1]); }
  }

  lemma BestExists(routes: seq<Route>)
    ensures Best(Compare, routes).Some? <==> routes != []
  {}

  /** At least as good in LOCAL_PREF, then AS_PATH segments, then ORIGIN. */
  predicate TierAtLeast(a: Route, b: Route)
  {
    || OrZero(a.localPref) > OrZero(b.localPref)
    || (&& OrZero(a.localPref) == OrZero(b.localPref)
        && (|| |a.path| < |b.path|
            || (|a.path| == |b.path| && OriginRank(a) <= OriginRank(b))))
  }

  /** The best route is never behind any candidate on the first three criteria. */
  lemma {:induction false} BestTier(routes: seq<Route>, r: Route)
    requires r in routes
    ensures Best(Compare, routes).Some? && TierAtLeast(Best(Compare, routes).value, r)
  {
    var n := |routes| - 1;
    assert routes == routes[..n] + [routes[n]];
    BestExists(routes[..n]);
    if r in routes[..n] {
      BestTier(routes[..n], r);
    }
  }

  // ----- When arrival order does not matter -----

  predicate DistinctSources(routes: seq<Route>)
  {
    forall i, j :: 0 <= i < j < |routes| ==> routes[i].source != routes[j].source
  }

  /** `w` beats every other candidate, and each of them comes from another source. */
  predicate Wins(w: Route, routes: seq<Route>)
  {
    w in routes && forall r :: r in routes && r != w ==> r.source != w.source && Beats(w, r)
  }

  lemma {:induction false} WinnerIsBest(w: Route, routes: seq<Route>)
    requires Wins(w, routes)
    ensures Best(Compare, routes) == Some(w)
  {
    var n := |routes| - 1;
    var init, last := routes[..n], routes[n];
    assert routes == init + [last];
    BestIsMember(Compare, init);
    if last == w {
      if Best(Compare, init).Some? {
        var b := Best(Compare, init).value;
        assert b in routes;
        assert b == w || Beats(w, b);
      }
    } else {
      WinnerIsBest(w, init);
      assert last in routes;
      BeatsTotal(w, last);
    }
  }

  /** A loser that some other candidate `x` beats is not chosen when `x` arrives last. */
  lemma LateArrival(routes: seq<Route>, w: Route, x: Route)
    requires x != w && (Beats(x, w) || w !in routes)
    ensures Best(Compare, routes + [x]) != Some(w)
  {
    BestIsMember(Compare, routes);
    assert (routes + [x])[..|routes|] == routes;
  }

  predicate Rearranged(a: seq<Route>, b: seq<Route>)
  {
    multiset(a) == multiset(b)
  }

  lemma RearrangedMembers(a: seq<Route>, b: seq<Route>)
    requires Rearranged(a, b)
    ensures forall r :: r in a <==> r in b
  {
    forall r ensures r in a <==> r in b {
      assert r in a <==> r in multiset(a);
      assert r in b <==> r in multiset(b);
    }
  }

  /** The routes with the one at `j` moved to the end. */
  function MovedLast(routes: seq<Route>, j: nat): (p: seq<Route>)
    requires j < |routes|
    ensures Rearranged(p, routes)
  {
    assert routes == routes[..j] + [routes[j]] + routes[j + 1..];
    routes[..j] + routes[j + 1..] + [routes[j]]
  }

  /** Every arrival order yields the best route of `routes`. */
  ghost predicate OrderIndependent(routes: seq<Route>)
  {
    forall p :: Rearranged(p, routes) ==> Best(Compare, p) == Best(Compare, routes)
  }

  lemma WinnerMakesIndependent(routes: seq<Route>, w: Route)
    requires Wins(w, routes)
    ensures OrderIndependent(routes)
  {
    WinnerIsBest(w, routes);
    forall p | Rearranged(p, routes) ensures Best(Compare, p) == Best(Compare, routes) {
      RearrangedMembers(p, routes);
      WinnerIsBest(w, p);
    }
  }

  lemma IndependentHasWinner(routes: seq<Route>)
    requires routes != [] && DistinctSources(routes) && OrderIndependent(routes)
    ensures Wins(Best(Compare, routes).value, routes)
  {
    BestExists(routes);
    BestIsMember(Compare, routes);
    var w := Best(Compare, routes).value;
    var i :| 0 <= i < |routes| && routes[i] == w;
    forall x | x in routes && x != w ensures x.source != w.source && Beats(w, x) {
      var j :| 0 <= j < |routes| && routes[j] == x;
      assert x.source != w.source by { assert i < j || j < i; }
      assert Best(Compare, MovedLast(routes, j)) == Some(w);
      BeatsTotal(w, x);
      if !Beats(w, x) {
        LateArrival(routes[..j] + routes[j + 1..], w, x);
        assert false;
      }
    }
  }

  /** The choice does not depend on arrival order exactly when some candidate beats all the others. */
  lemma ArrivalOrder(routes: seq<Route>)
    requires routes != [] && DistinctSources(routes)
    ensures OrderIndependent(routes) <==> exists w :: Wins(w, routes)
  {
    if OrderIndependent(routes) {
      IndependentHasWinner(routes);
    }
    if w :| Wins(w, routes) {
      WinnerMakesIndependent(routes, w);
    }
  }

  // ----- A shared neighbour AS among the front runners is enough -----

  predicate Tied(a: Route, b: Route)
  {
    TierAtLeast(a, b) && TierAtLeast(b, a)
  }

  lemma BeatsTransitive(a: Route, b: Route, c: Route)
    requires Tied(a, b) && Tied(b, c)
    requires FirstAsn(a.path) == FirstAsn(b.path) == FirstAsn(c.path)
    requires Beats(a, b) && Beats(b, c)
    ensures Beats(a, c)
  {}

  /** `t` is not behind any candidate, and all candidates level with it have its neighbour AS. */
  predicate SharedNeighbour(t: Route, routes: seq<Route>)
  {
    forall r :: r in routes ==> TierAtLeast(t, r) && (Tied(t, r) ==> FirstAsn(r.path) == FirstAsn(t.path))
  }

  /** In every prefix, the best route is ahead of all the front runners seen. */
  lemma {:induction false} FrontRunner(t: Route, routes: seq<Route>, r: Route)
    requires SharedNeighbour(t, routes) && DistinctSources(routes)
    requires r in routes && Tied(t, r)
    ensures Best(Compare, routes).Some?
    ensures var b := Best(Compare, routes).value; Tied(t, b) && b in routes && (b == r || Beats(b, r))
  {
    var n := |routes| - 1;
    var init, last := routes[..n], routes[n];
    assert routes == init + [last];
    BestExists(init);
    BestExists(routes);
    BestIsMember(Compare, init);
    BestIsMember(Compare, routes);
    BestTier(routes, r);
    if r in init {
      FrontRunner(t, init, r);
      var b := Best(Compare, init).value;
      if Beats(last, b) && b != r {
        BeatsTransitive(last, b, r);
      }
    } else if init != [] {
      var b := Best(Compare, init).value;
      var k :| 0 <= k < n && init[k] == b;
      assert routes[k].source != routes[n].source;
      BeatsTotal(b, last);
    }
  }

  /** When the front runners share their neighbour AS, the best route beats all and order is irrelevant. */
  lemma SharedNeighbourDecides(t: Route, routes: seq<Route>)
    requires t in routes && SharedNeighbour(t, routes) && DistinctSources(routes)
    ensures Best(Compare, routes).Some? && Wins(Best(Compare, routes).value, routes)
    ensures OrderIndependent(routes)
  {
    FrontRunner(t, routes, t);
    var b := Best(Compare, routes).value;
    forall r | r in routes && r != b ensures r.source != b.source && Beats(b, r) {
      var i :| 0 <= i < |routes| && routes[i] == b;
      var j :| 0 <= j < |routes| && routes[j] == r;
      assert i < j || j < i;
      if Tied(t, r) { FrontRunner(t, routes, r); }
    }
    WinnerMakesIndependent(routes, b);
  }

  /** Three level routes whose MED and identifier steps pull in a circle. */
  predicate MedCircle(a: Route, b: Route, c: Route)
  {
    && Tied(a, b) && Tied(b, c)
    && FirstAsn(a.path) == FirstAsn(b.path) != FirstAsn(c.path)
    && OrZero(a.med) < OrZero(b.med)
    && !a.source.ibgp && !b.source.ibgp && !c.source.ibgp
    && PeerNumber(b) < PeerNumber(c) < PeerNumber(a)
  }

  /** On such a circle preference is not transitive and the last arrival decides. */
  lemma MedCircleOrderDependent(a: Route, b: Route, c: Route)
    requires MedCircle(a, b, c)
    ensures Beats(a, b) && Beats(b, c) && Beats(c, a)
    ensures Best(Compare, [a, b, c]) == Some(c) && Best(Compare, [b, c, a]) == Some(a)
    ensures !OrderIndependent([a, b, c])
  {
    BestOfThree(a, b, c);
    BestOfThree(b, c, a);
    assert Rearranged([b, c, a], [a, b, c]);
  }

  lemma BestOfThree(a: Route, b: Route, c: Route)
    ensures Best(Compare, [a, b, c]) == Step(Compare, Step(Compare, Some(a), b), c)
  {
    assert [a, b, c][..2] == [a, b];
    assert [a, b][..1] == [a];
    assert [a][..0] == [];
    assert Best(Compare, [a]) == Some(a);
  }

  lemma MedCircleExists() returns (a: Route, b: Route, c: Route)
    ensures MedCircle(a, b, c)
  {
    var prefix := V4([10, 0, 0, 0], 8);
    var viaOne, viaTwo := [Segment(SequenceSegment, [1])], [Segment(SequenceSegment, [2])];
    a := Route(prefix, None, viaOne, None, Some(1), None, None, [], Source([0, 0, 0, 3], false));
    b := Route(prefix, None, viaOne, None, Some(2), None, None, [], Source([0, 0, 0, 1], false));
    c := Route(prefix, None, viaTwo, None, None, None, None, [], Source([0, 0, 0, 2], false));
    LastByte(1);
    LastByte(2);
    LastByte(3);
  }

  lemma LastByte(x: byte)
    ensures BeVal([0, 0, 0, x]) == x
  {
    assert [0, 0, 0, x][..3] == [0, 0, 0] && [0, 0, 0][..2] == [0, 0] && [0, 0][..1] == [0] && [0][..0] == [];
    assert BeVal([]) == 0 && BeVal([0]) == 0 && BeVal([0, 0]) == 0 && BeVal([0, 0, 0]) == 0;
  }

  // ----- The Adj-RIB-In over a run -----

  datatype Operation = Insert(route: Route) | Withdraw(prefix: Prefix, peer: Quad)

  type Adj = map<Prefix, seq<Route>>

  function Put(routes: seq<Route>, r: Route): (s: seq<Route>)
    ensures s != []
  {
    if routes == [] then [r]
    else if routes[0].source == r.source then [r] + routes[1..]
    else [routes[0]] + Put(routes[1..], r)
  }

  function Retain(routes: seq<Route>, peer: Quad): (s: seq<Route>)
  {
    if routes == [] then []
    else if routes[0].source.peer != peer then [routes[0]] + Retain(routes[1..], peer)
    else Retain(routes[1..], peer)
  }

  function Entry(adj: Adj, p: Prefix): (routes: seq<Route>)
  {
    if p in adj then adj[p] else []
  }

  function Apply(adj: Adj, op: Operation): (next: Adj)
  {
    match op
    case Insert(r) => adj[r.prefix := Put(Entry(adj, r.prefix), r)]
    case Withdraw(p, peer) =>
      var kept := Retain(Entry(adj, p), peer);
      if kept == [] then adj - {p} else adj[p := kept]
  }

  function After(ops: seq<Operation>): (adj: Adj)
  {
    if ops == [] then map[] else Apply(After(ops[..|ops| - 1]), ops[|ops| - 1])
  }

  /** What a source last advertised for a prefix and has not withdrawn since. */
  function Held(ops: seq<Operation>, p: Prefix, source: Source): (r: Option<Route>)
  {
    if ops == [] then None
    else
      match ops[|ops| - 1]
      case Insert(r) => if r.prefix == p && r.source == source then Some(r) else Held(ops[..|ops| - 1], p, source)
      case Withdraw(q, peer) => if q == p && peer == source.peer then None else Held(ops[..|ops| - 1], p, source)
  }

  lemma {:induction false} PutMembers(routes: seq<Route>, r: Route, x: Route)
    requires DistinctSources(routes)
    ensures x in Put(routes, r) <==> x == r || (x in routes && x.source != r.source)
    ensures DistinctSources(Put(routes, r))
  {
    if routes != [] {
      var first, rest := routes[0], routes[1..];
      assert routes == [first] + rest;
      if first.source == r.source {
        assert forall y :: y in rest ==> y.source != first.source;
      } else {
        PutMembers(rest, r, x);
        forall i | 0 <= i < |Put(rest, r)| ensures Put(rest, r)[i].source != first.source {
          PutMembers(rest, r, Put(rest, r)[i]);
        }
      }
    }
  }

  lemma {:induction false} RetainMembers(routes: seq<Route>, peer: Quad, x: Route)
    requires DistinctSources(routes)
    ensures x in Retain(routes, peer) <==> x in routes && x.source.peer != peer
    ensures DistinctSources(Retain(routes, peer))
  {
    if routes != [] {
      var first, rest := routes[0], routes[1..];
      assert routes == [first] + rest;
      RetainMembers(rest, peer, x);
      forall i | 0 <= i < |Retain(rest, peer)| ensures Retain(rest, peer)[i].source != first.source {
        RetainMembers(rest, peer, Retain(rest, peer)[i]);
      }
    }
  }

  /** Every list is non-empty and holds at most one route per source. */
  ghost predicate WellKept(adj: Adj)
  {
    forall p :: p in adj ==> adj[p] != [] && DistinctSources(adj[p])
  }

  lemma ApplyKeeps(adj: Adj, op: Operation)
    requires WellKept(adj)
    ensures WellKept(Apply(adj, op))
  {
    match op
    case Insert(r) => PutMembers(Entry(adj, r.prefix), r, r);
    case Withdraw(p, peer) =>
      if p in adj { RetainMembers(adj[p], peer, adj[p][0]); }
  }

  /** After every run the Adj-RIB-In holds exactly what each source last advertised and did not withdraw. */
  lemma {:induction false} AdjIsHistory(ops: seq<Operation>, p: Prefix, r: Route)
    ensures WellKept(After(ops))
    ensures r in Entry(After(ops), p) <==> Held(ops, p, r.source) == Some(r)
  {
    if ops != [] {
      var before, op := ops[..|ops| - 1], ops[|ops| - 1];
      AdjIsHistory(before, p, r);
      ApplyKeeps(After(before), op);
      match op
      case Insert(x) => PutMembers(Entry(After(before), x.prefix), x, r);
      case Withdraw(q, peer) => RetainMembers(Entry(After(before), q), peer, r);
    }
  }

  /** Runs that leave the same advertisements standing choose the same route, if one of them beats the rest. */
  lemma RunsConverge(ops: seq<Operation>, others: seq<Operation>, p: Prefix, w: Route)
    requires forall s :: Held(ops, p, s) == Held(others, p, s)
    requires Wins(w, Entry(After(ops), p))
    ensures Best(Compare, Entry(After(ops), p)) == Best(Compare, Entry(After(others), p)) == Some(w)
  {
    forall r ensures r in Entry(After(ops), p) <==> r in Entry(After(others), p) {
      AdjIsHistory(ops, p, r);
      AdjIsHistory(others, p, r);
    }
    WinnerIsBest(w, Entry(After(ops), p));
    WinnerIsBest(w, Entry(After(others), p));
  }

  // ----- What a withdrawal reports -----

  lemma BestAppended(routes: seq<Route>, r: Route)
    ensures Best(Compare, routes + [r]) == Step(Compare, Best(Compare, routes), r)
  {
    assert (routes + [r])[..|routes|] == routes;
  }

  lemma {:induction false} RetainJoined(a: seq<Route>, b: seq<Route>, peer: Quad)
    ensures Retain(a + b, peer) == Retain(a, peer) + Retain(b, peer)
  {
    if a == [] {
      assert a + b == b;
    } else {
      assert (a + b)[1..] == a[1..] + b;
      RetainJoined(a[1..], b, peer);
    }
  }

  /** A best route that a list `late` ends without was best before `late`, and nothing in `late` beats it. */
  lemma {:induction false} WasBest(routes: seq<Route>, late: seq<Route>, b: Route)
    requires Best(Compare, routes + late) == Some(b) && b !in late
    ensures Best(Compare, routes) == Some(b) && forall r :: r in late ==> !Beats(r, b)
  {
    if late == [] {
      assert routes + late == routes;
    } else {
      var init, last := late[..|late| - 1], late[|late| - 1];
      assert late == init + [last] && routes + late == (routes + init) + [last];
      BestAppended(routes + init, last);
      WasBest(routes, init, b);
    }
  }

  /** A best route that nothing in `late` beats stays best. */
  lemma {:induction false} StaysBest(routes: seq<Route>, late: seq<Route>, b: Route)
    requires Best(Compare, routes) == Some(b) && forall r :: r in late ==> !Beats(r, b)
    ensures Best(Compare, routes + late) == Some(b)
  {
    if late == [] {
      assert routes + late == routes;
    } else {
      var init, last := late[..|late| - 1], late[|late| - 1];
      assert late == init + [last] && routes + late == (routes + init) + [last];
      BestAppended(routes + init, last);
      assert last in late && forall r :: r in init ==> r in late;
      StaysBest(routes, init, b);
    }
  }

  /** A route passed over does not come back. */
  lemma {:induction false} PassedOver(routes: seq<Route>, late: seq<Route>, b: Route)
    requires Best(Compare, routes) != Some(b) && b !in late
    ensures Best(Compare, routes + late) != Some(b)
  {
    if late == [] {
      assert routes + late == routes;
    } else {
      var init, last := late[..|late| - 1], late[|late| - 1];
      assert late == init + [last] && routes + late == (routes + init) + [last];
      BestAppended(routes + init, last);
      PassedOver(routes, init, b);
    }
  }

  /** The best route, at place `i`, is kept by a withdrawal: it is not withdrawn, and beats the best that is left before it. */
  predicate SurvivesAt(routes: seq<Route>, peer: Quad, i: nat)
    requires i < |routes|
  {
    var before := Best(Compare, Retain(routes[..i], peer));
    routes[i].source.peer != peer && (before.None? || Beats(routes[i], before.value))
  }

  /** Before a withdrawal one can tell whether it changes the best route, with or without MED circles. */
  lemma WithdrawalChanges(routes: seq<Route>, peer: Quad, i: nat)
    requires DistinctSources(routes) && i < |routes| && Best(Compare, routes) == Some(routes[i])
    ensures Best(Compare, Retain(routes, peer)) == Best(Compare, routes) <==> SurvivesAt(routes, peer, i)
  {
    var pre, b, late := routes[..i], routes[i], routes[i + 1..];
    assert routes == (pre + [b]) + late;
    assert b !in late && b !in pre;
    WasBest(pre + [b], late, b);
    RetainParts(pre, b, late, peer);
    RetainedRoutes(pre, peer);
    RetainedRoutes(late, peer);
    if b.source.peer == peer {
      BestIsMember(Compare, Retain(pre, peer) + Retain(late, peer));
    } else {
      BestOfParts(Retain(pre, peer), b, Retain(late, peer));
    }
  }

  lemma RetainParts(pre: seq<Route>, b: Route, late: seq<Route>, peer: Quad)
    ensures Retain(pre + [b] + late, peer)
         == if b.source.peer == peer then Retain(pre, peer) + Retain(late, peer) else Retain(pre, peer) + [b] + Retain(late, peer)
  {
    RetainJoined(pre + [b], late, peer);
    RetainJoined(pre, [b], peer);
    assert Retain([b], peer) == if b.source.peer == peer then [] else [b];
  }

  lemma BestOfParts(pre: seq<Route>, b: Route, late: seq<Route>)
    requires b !in pre && b !in late && forall r :: r in late ==> !Beats(r, b)
    ensures var before := Best(Compare, pre);
            Best(Compare, pre + [b] + late) == Some(b) <==> before.None? || Beats(b, before.value)
  {
    BestAppended(pre, b);
    BestIsMember(Compare, pre);
    var before := Best(Compare, pre);
    if before.None? || Beats(b, before.value) {
      StaysBest(pre + [b], late, b);
    } else {
      PassedOver(pre + [b], late, b);
    }
  }

  lemma {:induction false} RetainedRoutes(routes: seq<Route>, peer: Quad)
    ensures forall r :: r in Retain(routes, peer) ==> r in routes && r.source.peer != peer
  {
    if routes != [] { RetainedRoutes(routes[1..], peer); }
  }

  /** The best route of the list stays best when the peer withdraws. */
  ghost predicate Survives(routes: seq<Route>, peer: Quad)
  {
    exists i :: 0 <= i < |routes| && Best(Compare, routes) == Some(routes[i]) && SurvivesAt(routes, peer, i)
  }

  lemma SurvivesIff(routes: seq<Route>, peer: Quad)
    requires DistinctSources(routes) && routes != []
    ensures Best(Compare, Retain(routes, peer)) == Best(Compare, routes) <==> Survives(routes, peer)
  {
    BestExists(routes);
    BestIsMember(Compare, routes);
    var k :| 0 <= k < |routes| && Best(Compare, routes) == Some(routes[k]);
    WithdrawalChanges(routes, peer, k);
    if Survives(routes, peer) {
      var i :| 0 <= i < |routes| && Best(Compare, routes) == Some(routes[i]) && SurvivesAt(routes, peer, i);
      WithdrawalChanges(routes, peer, i);
    }
  }

  /** Where one candidate beats all the rest, what matters is only whether its own peer withdraws. */
  lemma WinnerSurvives(routes: seq<Route>, peer: Quad, w: Route)
    requires DistinctSources(routes) && Wins(w, routes)
    ensures Survives(routes, peer) <==> w.source.peer != peer
  {
    WinnerIsBest(w, routes);
    SurvivesIff(routes, peer);
    var kept := Retain(routes, peer);
    BestIsMember(Compare, kept);
    forall r ensures r in kept <==> r in routes && r.source.peer != peer { RetainMembers(routes, peer, r); }
    if w.source.peer != peer {
      WinnerIsBest(w, kept);
    }
  }

  /** On a MED circle the best route changes although the peer that withdraws did not advertise it. */
  lemma LoserWithdrawalChanges(a: Route, b: Route, c: Route)
    requires MedCircle(a, b, c)
    ensures c.source.peer != a.source.peer && Best(Compare, [a, b, c]) == Some(c)
    ensures Best(Compare, Retain([a, b, c], a.source.peer)) == Some(b)
  {
    MedCircleOrderDependent(a, b, c);
    WithoutFirst(a, b, c);
    BestOfTwo(b, c);
  }

  lemma WithoutFirst(a: Route, b: Route, c: Route)
    requires b.source.peer != a.source.peer && c.source.peer != a.source.peer
    ensures Retain([a, b, c], a.source.peer) == [b, c]
  {
    RetainTwo(b, c, a.source.peer);
    RetainJoined([a], [b, c], a.source.peer);
    assert [a] + [b, c] == [a, b, c];
  }

  lemma RetainTwo(b: Route, c: Route, peer: Quad)
    requires b.source.peer != peer && c.source.peer != peer
    ensures Retain([b, c], peer) == [b, c]
  {
    RetainJoined([b], [c], peer);
    assert [b] + [c] == [b, c];
  }

  lemma BestOfTwo(b: Route, c: Route)
    ensures Best(Compare, [b, c]) == Step(Compare, Some(b), c)
  {
    assert [b, c][..1] == [b] && [b][..0] == [];
    assert Best(Compare, [b]) == Some(b);
  }

  /** A withdrawal by a peer that advertised nothing changes nothing, and yet is reported as a change of the entry. */
  lemma {:induction false} StrangerWithdraws(routes: seq<Route>, peer: Quad)
    requires forall r :: r in routes ==> r.source.peer != peer
    ensures Retain(routes, peer) == routes
  {
    if routes != [] {
      assert routes == [routes[0]] + routes[1..];
      StrangerWithdraws(routes[1..], peer);
    }
  }

  // ----- The maintained tables -----

  lemma {:induction false} PutAt(routes: seq<Route>, r: Route, i: nat)
    requires i <= |routes| && forall k :: 0 <= k < i ==> routes[k].source != r.source
    requires i < |routes| ==> routes[i].source == r.source
    ensures Put(routes, r) == if i < |routes| then routes[i := r] else routes + [r]
  {
    if i > 0 {
      PutAt(routes[1..], r, i - 1);
      assert routes == [routes[0]] + routes[1..];
    } else if i < |routes| {
      assert routes[0 := r] == [r] + routes[1..];
    }
  }

  class Rib {
    var adj: Adj
    var loc: map<Prefix, Route>
    const decision: Decision

    /** The Loc-RIB is the index of best routes of the Adj-RIB-In. */
    ghost predicate Indexed(p: Prefix)
      reads this
    {
      match Best(decision, Entry(adj, p))
      case None => p !in loc
      case Some(b) => p in loc && loc[p] == b
    }

    ghost predicate Valid()
      reads this
    {
      WellKept(adj) && forall p :: Indexed(p)
    }

    constructor (decision: Decision)
      ensures Valid() && adj == map[] && this.decision == decision
    {
      adj := map[];
      loc := map[];
      this.decision := decision;
    }

    method Recompute(prefix: Prefix)
      modifies this`loc
      ensures Indexed(prefix)
      ensures forall p :: p != prefix ==> (p in loc <==> p in old(loc)) && (p in loc ==> loc[p] == old(loc)[p])
    {
      var best: Option<Route> := None;
      var routes := Entry(adj, prefix);
      for i := 0 to |routes|
        invariant best == Best(decision, routes[..i])
      {
        assert routes[..i + 1][..i] == routes[..i];
        if decision(best, routes[i]) == Greater { best := Some(routes[i]); }
      }
      assert routes[..|routes|] == routes;
      match best
      case Some(b) => loc := loc[prefix := b];
      case None => loc := loc - {prefix};
    }

    method InsertRoute(route: Route)
      requires Valid()
      modifies this
      ensures Valid() && adj == Apply(old(adj), Insert(route))
    {
      var entry := Entry(adj, route.prefix);
      var i := 0;
      while i < |entry| && entry[i].source != route.source
        invariant 0 <= i <= |entry|
        invariant forall k :: 0 <= k < i ==> entry[k].source != route.source
      {
        i := i + 1;
      }
      PutAt(entry, route, i);
      ApplyKeeps(adj, Insert(route));
      adj := adj[route.prefix := if i < |entry| then entry[i := route] else entry + [route]];
      Recompute(route.prefix);
      forall p ensures Indexed(p) { assert old(Indexed(p)); }
    }

    /** The report is true whenever there was an entry or there is one now, so it misses no change. */
    method WithdrawRoutes(prefix: Prefix, peer: Quad) returns (changed: bool)
      requires Valid()
      modifies this
      ensures Valid() && adj == Apply(old(adj), Withdraw(prefix, peer))
      ensures changed <==> prefix in old(loc) || prefix in loc
      ensures loc != old(loc) ==> changed
    {
      ApplyKeeps(adj, Withdraw(prefix, peer));
      if prefix in adj {
        var kept := Retain(adj[prefix], peer);
        adj := if kept == [] then adj - {prefix} else adj[prefix := kept];
      }
      var before := if prefix in loc then Some(loc[prefix].source.peer) else None;
      Recompute(prefix);
      var after := if prefix in loc then Some(loc[prefix].source.peer) else None;
      changed := before != after || before.Some?;
      forall p ensures Indexed(p) { assert old(Indexed(p)); }
    }
  }

  /**
   The report says that the Loc-RIB changed, as documented, exactly when the best route does not survive. Where one
   candidate beats all the rest, what matters is only whether its own peer withdraws.
   */
  method ReportIsRight(rib: Rib, prefix: Prefix, peer: Quad) returns (changed: bool)
    requires rib.Valid() && rib.decision == Compare
    modifies rib
    ensures (changed <==> rib.loc != old(rib.loc)) <==> !Survives(Entry(old(rib.adj), prefix), peer)
    ensures forall w :: Wins(w, Entry(old(rib.adj), prefix)) ==>
              (Survives(Entry(old(rib.adj), prefix), peer) <==> w.source.peer != peer)
    ensures rib.Valid() && rib.adj == Apply(old(rib.adj), Withdraw(prefix, peer))
  {
    ghost var routes := Entry(rib.adj, prefix);
    assert rib.Indexed(prefix);
    BestExists(routes);
    forall w | Wins(w, routes) ensures Survives(routes, peer) <==> w.source.peer != peer { WinnerSurvives(routes, peer, w); }
    changed := rib.WithdrawRoutes(prefix, peer);
    assert Entry(rib.adj, prefix) == Retain(routes, peer);
    assert rib.Indexed(prefix);
    if routes != [] { SurvivesIff(routes, peer); }
    if Best(Compare, Retain(routes, peer)) == Best(Compare, routes) {
      forall p ensures p in rib.loc <==> p in old(rib.loc) { assert rib.Indexed(p) && old(rib.Indexed(p)); }
      forall p | p in rib.loc ensures rib.loc[p] == old(rib.loc)[p] { assert rib.Indexed(p) && old(rib.Indexed(p)); }
    }
  }

  /** A withdrawal that changes no table, but is reported as a change. */
  method ReportsNoChange(rib: Rib, prefix: Prefix, peer: Quad) returns (changed: bool)
    requires rib.Valid() && prefix in rib.loc && forall r :: r in Entry(rib.adj, prefix) ==> r.source.peer != peer
    modifies rib
    ensures changed && rib.adj == old(rib.adj) && rib.loc == old(rib.loc)
  {
    StrangerWithdraws(Entry(rib.adj, prefix), peer);
    assert rib.Indexed(prefix);
    changed := rib.WithdrawRoutes(prefix, peer);
    assert rib.adj == old(rib.adj);
    forall p ensures p in rib.loc <==> p in old(rib.loc) { assert rib.Indexed(p); assert old(rib.Indexed(p)); }
    forall p | p in rib.loc ensures rib.loc[p] == old(rib.loc)[p] { assert rib.Indexed(p); assert old(rib.Indexed(p)); }
  }

  /** With the default decision process the Loc-RIB has an entry for exactly the prefixes of the Adj-RIB-In. */
  lemma LocHasAdjKeys(rib: Rib)
    requires rib.Valid() && rib.decision == Compare
    ensures rib.loc.Keys == rib.adj.Keys
  {
    forall p ensures p in rib.loc <==> p in rib.adj {
      assert rib.Indexed(p);
      BestExists(Entry(rib.adj, p));
    }
  }

  /** A whole run: the tables end as the history says, and the Loc-RIB as its index. */
  method Run(decision: Decision, ops: seq<Operation>) returns (rib: Rib)
    ensures fresh(rib) && rib.Valid() && rib.adj == After(ops) && rib.decision == decision
  {
    rib := new Rib(decision);
    for i := 0 to |ops|
      invariant fresh(rib) && rib.Valid() && rib.adj == After(ops[..i]) && rib.decision == decision
    {
      assert ops[..i + 1][..i] == ops[..i];
      match ops[i]
      case Insert(r) => rib.InsertRoute(r);
      case Withdraw(p, peer) => var _ := rib.WithdrawRoutes(p, peer);
    }
    assert ops[..|ops|] == ops;
  }
}
