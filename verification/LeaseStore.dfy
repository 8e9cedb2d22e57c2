/**
 The in-memory DHCPv6 lease store of tpt-dhcpv6/src/memory.rs: allocation from the address and prefix pools,
 renewal, release, decline with probation, and what holds after every sequence of calls.
 */
module LeaseStore {
  import opened BigEndian
  import opened Limbs
  import opened Wrappers

  datatype Kind = Na | Ta | Pd

  datatype Key = Key(client: seq<byte>, iaid: u32, kind: Kind)

  datatype Block = Block(base: u128, bits: nat)

  datatype Lease = Lease(addresses: seq<u128>, prefixes: seq<Block>, expires: int)

  /** `Endless` is no error of the source: it stands for a call that does not return. */
  datatype Error = OutOfPool(n: u128) | InUse(n: u128) | PoolExhausted | NoLease | Endless

  /** The number of addresses. */
  const SPACE: nat := 0x1_0000_0000_0000_0000_0000_0000_0000_0000

  datatype Config = Config(start: u128, end: u128, pdStart: u128, pdEnd: u128, pdBits: nat, duration: int)
  {
    /** With any other prefix length the shifts overflow. */
    predicate Usable()
    {
      1 <= pdBits <= 128
    }

    /** The size of one delegated prefix. */
    function Span(): (s: nat)
      requires Usable()
      ensures s > 0
    {
      Pow2(128 - pdBits)
    }

    /** How far the scan moves; it stands still for prefixes of single addresses. */
    function Step(): (s: nat)
      requires Usable()
    {
      if pdBits == 128 then 0 else Span()
    }

    /** The pools end before the last address or prefix there is, and the first prefix is aligned. */
    predicate Sound()
    {
      Usable() && end + 1 < SPACE && pdEnd + Step() < SPACE && pdStart % Span() == 0
    }
  }

  datatype Request = Request(key: Key, address: Option<u128>, prefix: Option<Block>, now: int)

  /** The three tables. */
  datatype State = State(leases: map<Key, Lease>, declined: map<u128, int>, declinedBlocks: map<Block, int>)

  // ----- Allocation -----

  /** The address with the bits past the prefix length cleared. */
  function Align(cfg: Config, n: u128): (a: u128)
    requires cfg.Usable()
    ensures a % cfg.Span() == 0 && a <= n < a + cfg.Span()
  {
    AlignFacts(n, cfg.Span());
    n - n % cfg.Span()
  }

  lemma AlignFacts(n: nat, step: nat)
    requires step > 0
    ensures 0 <= n % step <= n && n % step < step && (n - n % step) % step == 0
  {
    DivModUnique(n - n % step, step, n / step, 0);
  }

  /** Different multiples of a step are at least a step apart. */
  lemma MultiplesApart(a: nat, b: nat, step: nat)
    requires step > 0 && a % step == 0 && b % step == 0 && a < b
    ensures a + step <= b
  {
    var q, r := a / step, b / step;
    assert a == q * step && b == r * step;
    if r <= q { MulMono(r, q, step); }
    MulMono(q + 1, r, step);
    assert (q + 1) * step == a + step;
  }

  function UsedAddresses(leases: map<Key, Lease>): (s: set<u128>)
  {
    set k, a | k in leases && a in leases[k].addresses :: a
  }

  function UsedBlocks(cfg: Config, leases: map<Key, Lease>): (s: set<u128>)
    requires cfg.Usable()
  {
    set k, b | k in leases && b in leases[k].prefixes :: Align(cfg, b.base)
  }

  function DeclinedAddresses(st: State, now: int): (s: set<u128>)
  {
    set a | a in st.declined && st.declined[a] > now
  }

  function DeclinedBases(cfg: Config, st: State, now: int): (s: set<u128>)
    requires cfg.Usable()
  {
    set b | b in st.declinedBlocks && st.declinedBlocks[b] > now :: Align(cfg, b.base)
  }

  function TakenAddresses(st: State, now: int): (s: set<u128>)
  {
    UsedAddresses(st.leases) + DeclinedAddresses(st, now)
  }

  function TakenBases(cfg: Config, st: State, now: int): (s: set<u128>)
    requires cfg.Usable()
  {
    UsedBlocks(cfg, st.leases) + DeclinedBases(cfg, st, now)
  }

  /** The first of `n`, `n + step`, ... up to `end` that is not taken. */
  function FirstFree(taken: set<u128>, n: nat, end: u128, step: nat): (r: Option<u128>)
    requires step > 0
    decreases end + step - n
  {
    if n > end then None
    else if n !in taken then Some(n)
    else FirstFree(taken, n + step, end, step)
  }

  datatype Search = Found(n: u128) | Exhausted | Unending

  /**
   What a scan of the candidates from `n` to `end` comes to. Past the last number it starts over from zero, and
   after a whole turn, or standing still, it does not end.
   */
  function Scanned(taken: set<u128>, n: u128, end: u128, step: nat): (r: Search)
  {
    if n > end then Exhausted
    else if n !in taken then Found(n)
    else if step == 0 then Unending
    else
      var above := FirstFree(taken, n, end, step);
      if above.Some? then Found(above.value)
      else if end + step < SPACE then Exhausted
      else
        var below := if n == 0 then None else FirstFree(taken, 0, n - 1, step);
        if below.Some? then Found(below.value) else Unending
  }

  /** What the rest of a scan from `first` comes to that is at `n`, before or after starting over. */
  function Rest(taken: set<u128>, first: u128, n: nat, end: u128, step: nat, over: bool): (r: Search)
    requires step > 0
    decreases !over
  {
    if over then
      var below := if first == 0 then None else FirstFree(taken, n, first - 1, step);
      if below.Some? then Found(below.value) else Unending
    else
      var above := FirstFree(taken, n, end, step);
      if above.Some? then Found(above.value)
      else if end + step < SPACE then Exhausted
      else Rest(taken, first, 0, end, step, true)
  }

  function PickAddress(cfg: Config, st: State, requested: Option<u128>, now: int): (r: Result<u128, Error>)
  {
    var taken := TakenAddresses(st, now);
    if requested.Some? then
      if !(cfg.start <= requested.value <= cfg.end) then Failure(OutOfPool(requested.value))
      else if requested.value in taken then Failure(InUse(requested.value))
      else Success(requested.value)
    else
      match Scanned(taken, cfg.start, cfg.end, 1)
      case Found(n) => Success(n)
      case Exhausted => Failure(PoolExhausted)
      case Unending => Failure(Endless)
  }

  function PickBlock(cfg: Config, st: State, requested: Option<Block>, now: int): (r: Result<Block, Error>)
    requires cfg.Usable()
  {
    var taken := TakenBases(cfg, st, now);
    if requested.Some? then
      var n := Align(cfg, requested.value.base);
      if !(cfg.pdStart <= n <= cfg.pdEnd) then Failure(OutOfPool(requested.value.base))
      else if n in taken then Failure(InUse(requested.value.base))
      else Success(Block(n, if requested.value.bits < cfg.pdBits then requested.value.bits else cfg.pdBits))
    else
      match Scanned(taken, Align(cfg, cfg.pdStart), cfg.pdEnd, cfg.Step())
      case Found(n) => Success(Block(n, cfg.pdBits))
      case Exhausted => Failure(PoolExhausted)
      case Unending => Failure(Endless)
  }

  // ----- What a scan finds -----

  /** All candidates from `n` to `end` are taken. */
  ghost predicate Full(taken: set<u128>, n: nat, end: int, span: nat)
    requires span > 0
  {
    forall m: u128 :: n <= m <= end && m % span == 0 ==> m in taken
  }

  /** A free candidate is the first one, and none is reported only when all are taken. */
  lemma {:induction false} FirstFreeIsFirst(taken: set<u128>, n: nat, end: u128, step: nat)
    requires step > 0 && n % step == 0
    ensures match FirstFree(taken, n, end, step)
            case None => Full(taken, n, end, step)
            case Some(f) => n <= f <= end && f % step == 0 && f !in taken && Full(taken, n, f - 1, step)
    decreases end + step - n
  {
    if n <= end && n in taken {
      NextMultiple(n, step);
      FirstFreeIsFirst(taken, n + step, end, step);
      forall m: u128 | n < m && m % step == 0 ensures n + step <= m { MultiplesApart(n, m, step); }
    }
  }

  lemma NextMultiple(n: nat, step: nat)
    requires step > 0 && n % step == 0
    ensures (n + step) % step == 0
  {
    DivModUnique(n + step, step, n / step + 1, 0);
  }

  /** The distance between candidates; with a step of zero, every number is one. */
  function Spacing(step: nat): (s: nat)
    ensures s > 0
  {
    if step == 0 then 1 else step
  }

  predicate StepFits(step: nat)
  {
    SPACE % Spacing(step) == 0
  }

  lemma ScanIsRest(taken: set<u128>, first: u128, end: u128, step: nat)
    requires step > 0 && StepFits(step) && first % step == 0
    ensures Scanned(taken, first, end, step) == Rest(taken, first, first, end, step, false)
  {
    MultiplesApart(first, SPACE, step);
  }

  /** A taken candidate is passed over. */
  lemma RestStep(taken: set<u128>, first: u128, n: u128, end: u128, step: nat, over: bool)
    requires step > 0 && StepFits(step) && n % step == 0 && n <= end && n in taken && (over ==> n < first)
    ensures (n + step) % step == 0 && n + step <= SPACE
    ensures n + step < SPACE || over ==> Rest(taken, first, n, end, step, over) == Rest(taken, first, n + step, end, step, over)
    ensures n + step == SPACE && !over ==> Rest(taken, first, n, end, step, false) == Rest(taken, first, 0, end, step, true)
  {
    NextMultiple(n, step);
    MultiplesApart(n, SPACE, step);
    if !over { assert FirstFree(taken, n, end, step) == FirstFree(taken, n + step, end, step); }
  }

  /** The scan finds the first free candidate from `n` on; only if there is none, and it wraps around, the first from zero on. */
  lemma ScanFinds(taken: set<u128>, n: u128, end: u128, step: nat, span: nat)
    requires span == Spacing(step) && n % span == 0
    ensures match Scanned(taken, n, end, step)
            case Found(f) =>
              && f <= end && f % span == 0 && f !in taken
              && (if f >= n then Full(taken, n, f - 1, span)
                  else end + step >= SPACE && Full(taken, n, end, span) && Full(taken, 0, f - 1, span))
            case Exhausted => Full(taken, n, end, span) && (n <= end ==> end + step < SPACE)
            case Unending => n <= end && n in taken && (step > 0 ==> end + step >= SPACE && Full(taken, 0, end, span))
  {
    if step > 0 {
      FirstFreeIsFirst(taken, n, end, step);
      if n > 0 { FirstFreeIsFirst(taken, 0, n - 1, step); }
    }
  }

  /** A scan that is not ended never meets a free candidate, nor one past the end. */
  lemma UnendingScan(taken: set<u128>, n: u128, end: u128, step: nat, span: nat, i: nat)
    requires span == Spacing(step) && StepFits(step) && n % span == 0 && Scanned(taken, n, end, step).Unending?
    ensures var m := (n + i * step) % SPACE; m <= end && m in taken
  {
    var m: u128 := (n + i * step) % SPACE;
    ScanFinds(taken, n, end, step, span);
    if step == 0 {
      assert i * step == 0;
      DivModUnique(n, SPACE, 0, n);
    } else {
      OrbitAligned(n, i, step);
      LastMultiple(m, step);
    }
  }

  lemma OrbitAligned(n: nat, i: nat, step: nat)
    requires step > 0 && SPACE % step == 0 && n % step == 0
    ensures (n + i * step) % SPACE % step == 0
  {
    var z := n + i * step;
    var q, w, a := z / SPACE, SPACE / step, n / step;
    assert SPACE == w * step && n == a * step;
    assert z == (a + i) * step by { assert (a + i) * step == a * step + i * step; }
    assert z % SPACE == z - q * SPACE;
    assert q * SPACE == (q * w) * step by { Reassociate(q, w, step); }
    assert ((a + i) - q * w) * step == (a + i) * step - (q * w) * step by { TimesDifference(a + i, q * w, step); }
    DivModUnique(z % SPACE, step, (a + i) - q * w, 0);
  }

  lemma Reassociate(q: nat, w: nat, step: nat)
    ensures q * (w * step) == (q * w) * step
  {}

  lemma TimesDifference(a: int, b: int, c: int)
    ensures (a - b) * c == a * c - b * c
  {}

  lemma LastMultiple(m: nat, step: nat)
    requires step > 0 && SPACE % step == 0 && m % step == 0 && m < SPACE
    ensures m + step <= SPACE
  {
    MultiplesApart(m, SPACE, step);
  }

  // ----- The operations on the tables -----

  function Prune(st: State, now: int): (r: State)
  {
    State(map k | k in st.leases && now < st.leases[k].expires :: st.leases[k],
          map a | a in st.declined && st.declined[a] > now :: st.declined[a],
          map b | b in st.declinedBlocks && st.declinedBlocks[b] > now :: st.declinedBlocks[b])
  }

  function Grant(st: State, key: Key, lease: Lease): (r: State)
  {
    st.(leases := st.leases[key := lease])
  }

  datatype Outcome = Outcome(state: State, result: Result<Lease, Error>)

  function Allocate(cfg: Config, st: State, req: Request): (r: Result<Lease, Error>)
    requires cfg.Usable()
  {
    if req.key.kind.Pd? then
      var b := PickBlock(cfg, st, req.prefix, req.now);
      if b.Failure? then Failure(b.error) else Success(Lease([], [b.value], req.now + cfg.duration))
    else
      var a := PickAddress(cfg, st, req.address, req.now);
      if a.Failure? then Failure(a.error) else Success(Lease([a.value], [], req.now + cfg.duration))
  }

  /** `acquire` on tables that have been pruned. */
  function Serve(cfg: Config, p: State, req: Request): (r: Outcome)
    requires cfg.Usable()
  {
    if req.key in p.leases then
      var renewed := p.leases[req.key].(expires := req.now + cfg.duration);
      Outcome(Grant(p, req.key, renewed), Success(renewed))
    else
      var lease := Allocate(cfg, p, req);
      if lease.Failure? then Outcome(p, lease) else Outcome(Grant(p, req.key, lease.value), lease)
  }

  function Acquire(cfg: Config, st: State, req: Request): (r: Outcome)
    requires cfg.Usable()
  {
    Serve(cfg, Prune(st, req.now), req)
  }

  function Confirm(cfg: Config, st: State, key: Key, now: int): (r: Outcome)
  {
    if key !in st.leases then Outcome(st, Failure(NoLease))
    else
      var renewed := st.leases[key].(expires := now + cfg.duration);
      Outcome(Grant(st, key, renewed), Success(renewed))
  }

  function Release(st: State, key: Key): (r: State)
  {
    st.(leases := st.leases - {key})
  }

  function MarkAll<T>(table: map<T, int>, items: seq<T>, until: int): (r: map<T, int>)
  {
    if items == [] then table else MarkAll(table, items[..|items| - 1], until)[items[|items| - 1] := until]
  }

  function Decline(cfg: Config, st: State, key: Key, clock: int): (r: State)
  {
    if key !in st.leases then st
    else
      var lease, until := st.leases[key], clock + cfg.duration;
      State(st.leases - {key}, MarkAll(st.declined, lease.addresses, until), MarkAll(st.declinedBlocks, lease.prefixes, until))
  }

  // ----- Safety -----

  /** One resource of the right kind, not on a declined list. */
  predicate LeaseOk(cfg: Config, st: State, key: Key)
    requires cfg.Usable() && key in st.leases
  {
    var lease := st.leases[key];
    if key.kind.Pd? then
      && lease.addresses == [] && |lease.prefixes| == 1
      && lease.prefixes[0].base % cfg.Span() == 0 && lease.prefixes[0].bits <= cfg.pdBits
      && (forall b :: b in st.declinedBlocks ==> Align(cfg, b.base) != lease.prefixes[0].base)
    else
      lease.prefixes == [] && |lease.addresses| == 1 && lease.addresses[0] !in st.declined
  }

  /** No two keys hold the same address or the same delegated base. */
  predicate Apart(a: Lease, b: Lease)
  {
    && (forall x :: x in a.addresses ==> x !in b.addresses)
    && (forall x, y :: x in a.prefixes && y in b.prefixes ==> x.base != y.base)
  }

  ghost predicate Safe(cfg: Config, st: State)
    requires cfg.Usable()
  {
    && (forall k :: k in st.leases ==> LeaseOk(cfg, st, k))
    && (forall j, k :: j in st.leases && k in st.leases && j != k ==> Apart(st.leases[j], st.leases[k]))
  }

  lemma AlignedIsItself(cfg: Config, n: u128)
    requires cfg.Usable() && n % cfg.Span() == 0
    ensures Align(cfg, n) == n
  {}

  lemma PruneSafe(cfg: Config, st: State, now: int)
    requires cfg.Usable() && Safe(cfg, st)
    ensures Safe(cfg, Prune(st, now))
  {
    var p := Prune(st, now);
    forall k | k in p.leases ensures LeaseOk(cfg, p, k) { assert LeaseOk(cfg, st, k); }
  }

  /** A renewed lease keeps its resources. */
  lemma RenewSafe(cfg: Config, st: State, key: Key, expires: int)
    requires cfg.Usable() && Safe(cfg, st) && key in st.leases
    ensures Safe(cfg, Grant(st, key, st.leases[key].(expires := expires)))
  {
    var g := Grant(st, key, st.leases[key].(expires := expires));
    forall k | k in g.leases ensures LeaseOk(cfg, g, k) { assert LeaseOk(cfg, st, k); }
  }

  /**
   A picked address is free: in no lease and not declined. It is the one asked for, in the pool, or the first free
   one of the pool; only from a full pool that ends with the last address, it is the first free one below the pool.
   */
  lemma PickedAddress(cfg: Config, st: State, requested: Option<u128>, now: int)
    ensures var taken := TakenAddresses(st, now);
            match PickAddress(cfg, st, requested, now)
            case Success(a) =>
              && a !in taken && (requested.Some? ==> requested.value == a && cfg.start <= a <= cfg.end)
              && (requested.None? ==>
                    if cfg.start <= a then a <= cfg.end && Full(taken, cfg.start, a - 1, 1)
                    else cfg.end + 1 == SPACE && Full(taken, cfg.start, cfg.end, 1) && Full(taken, 0, a - 1, 1))
            case Failure(OutOfPool(a)) => requested == Some(a) && !(cfg.start <= a <= cfg.end)
            case Failure(InUse(a)) => requested == Some(a) && cfg.start <= a <= cfg.end && a in taken
            case Failure(PoolExhausted) => requested.None? && Full(taken, cfg.start, cfg.end, 1)
            case Failure(Endless) => requested.None? && cfg.end + 1 == SPACE && Full(taken, 0, cfg.end, 1)
            case Failure(NoLease) => false
  {
    if requested.None? { ScanFinds(TakenAddresses(st, now), cfg.start, cfg.end, 1, 1); }
  }

  lemma SpanFits(cfg: Config)
    requires cfg.Usable()
    ensures StepFits(cfg.Step()) && Spacing(cfg.Step()) == cfg.Span()
  {
    Pow2Add(cfg.pdBits, 128 - cfg.pdBits);
    Pow2At128();
    DivModUnique(SPACE, cfg.Span(), Pow2(cfg.pdBits), 0);
  }

  lemma Pow2At128()
    ensures Pow2(128) == SPACE
  {
    Pow2Add(64, 64);
    Pow2At64();
  }

  /** So for prefixes, with the pool's candidates starting at its first address made a base. */
  lemma PickedBlock(cfg: Config, st: State, requested: Option<Block>, now: int)
    requires cfg.Usable()
    ensures var taken, first, span := TakenBases(cfg, st, now), Align(cfg, cfg.pdStart), cfg.Span();
            match PickBlock(cfg, st, requested, now)
            case Success(b) =>
              && b.base % span == 0 && b.base !in taken && b.bits <= cfg.pdBits
              && (requested.Some? ==>
                    && b.base == Align(cfg, requested.value.base) && cfg.pdStart <= b.base <= cfg.pdEnd
                    && (b.bits == cfg.pdBits || b.bits == requested.value.bits))
              && (requested.None? ==>
                    && b.bits == cfg.pdBits
                    && (if first <= b.base then b.base <= cfg.pdEnd && Full(taken, first, b.base - 1, span)
                        else cfg.pdEnd + cfg.Step() >= SPACE && Full(taken, first, cfg.pdEnd, span) && Full(taken, 0, b.base - 1, span)))
            case Failure(OutOfPool(n)) =>
              requested.Some? && requested.value.base == n && !(cfg.pdStart <= Align(cfg, n) <= cfg.pdEnd)
            case Failure(InUse(n)) => requested.Some? && requested.value.base == n && Align(cfg, n) in taken
            case Failure(PoolExhausted) => requested.None? && Full(taken, first, cfg.pdEnd, span)
            case Failure(Endless) =>
              requested.None? && first in taken && (cfg.Step() > 0 ==> cfg.pdEnd + cfg.Step() >= SPACE && Full(taken, 0, cfg.pdEnd, span))
            case Failure(NoLease) => false
  {
    SpanFits(cfg);
    if requested.None? { ScanFinds(TakenBases(cfg, st, now), Align(cfg, cfg.pdStart), cfg.pdEnd, cfg.Step(), cfg.Span()); }
  }

  /** Granting free resources under a key that has none is safe. */
  lemma GrantSafe(cfg: Config, st: State, key: Key, lease: Lease)
    requires cfg.Usable() && Safe(cfg, st) && key !in st.leases && LeaseOk(cfg, Grant(st, key, lease), key)
    requires forall x :: x in lease.addresses ==> x !in UsedAddresses(st.leases)
    requires forall x :: x in lease.prefixes ==> x.base !in UsedBlocks(cfg, st.leases)
    ensures Safe(cfg, Grant(st, key, lease))
  {
    var g := Grant(st, key, lease);
    forall k | k in g.leases ensures LeaseOk(cfg, g, k) {
      if k != key { assert LeaseOk(cfg, st, k); }
    }
    forall k | k in st.leases ensures Apart(lease, st.leases[k]) && Apart(st.leases[k], lease) {
      assert LeaseOk(cfg, st, k);
      forall y | y in st.leases[k].prefixes ensures y.base in UsedBlocks(cfg, st.leases) {
        AlignedIsItself(cfg, y.base);
      }
    }
  }

  /** Nothing on the declined lists has served its probation. */
  predicate Pruned(st: State, now: int)
  {
    && (forall a :: a in st.declined ==> st.declined[a] > now)
    && (forall b :: b in st.declinedBlocks ==> st.declinedBlocks[b] > now)
  }

  lemma AllocateSafe(cfg: Config, st: State, req: Request)
    requires cfg.Usable() && Safe(cfg, st) && req.key !in st.leases && Pruned(st, req.now)
    requires Allocate(cfg, st, req).Success?
    ensures Safe(cfg, Grant(st, req.key, Allocate(cfg, st, req).value))
  {
    var lease := Allocate(cfg, st, req).value;
    if req.key.kind.Pd? {
      PickedBlock(cfg, st, req.prefix, req.now);
      forall d | d in st.declinedBlocks ensures Align(cfg, d.base) != lease.prefixes[0].base {
        assert Align(cfg, d.base) in DeclinedBases(cfg, st, req.now);
      }
    } else {
      PickedAddress(cfg, st, req.address, req.now);
    }
    GrantSafe(cfg, st, req.key, lease);
  }

  lemma ServeSafe(cfg: Config, p: State, req: Request)
    requires cfg.Usable() && Safe(cfg, p) && Pruned(p, req.now)
    ensures Safe(cfg, Serve(cfg, p, req).state)
  {
    if req.key in p.leases {
      RenewSafe(cfg, p, req.key, req.now + cfg.duration);
    } else if Allocate(cfg, p, req).Success? {
      AllocateSafe(cfg, p, req);
    }
  }

  lemma AcquireSafe(cfg: Config, st: State, req: Request)
    requires cfg.Usable() && Safe(cfg, st)
    ensures Safe(cfg, Acquire(cfg, st, req).state)
  {
    PruneSafe(cfg, st, req.now);
    ServeSafe(cfg, Prune(st, req.now), req);
  }

  lemma ConfirmSafe(cfg: Config, st: State, key: Key, now: int)
    requires cfg.Usable() && Safe(cfg, st)
    ensures Safe(cfg, Confirm(cfg, st, key, now).state)
  {
    if key in st.leases { RenewSafe(cfg, st, key, now + cfg.duration); }
  }

  lemma ReleaseSafe(cfg: Config, st: State, key: Key)
    requires cfg.Usable() && Safe(cfg, st)
    ensures Safe(cfg, Release(st, key))
  {
    var r := Release(st, key);
    forall k | k in r.leases ensures LeaseOk(cfg, r, k) { assert LeaseOk(cfg, st, k); }
  }

  lemma {:induction false} MarkAllKeys<T>(table: map<T, int>, items: seq<T>, until: int, x: T)
    ensures x in MarkAll(table, items, until) <==> x in table || x in items
  {
    if items != [] {
      MarkAllKeys(table, items[..|items| - 1], until, x);
      assert items == items[..|items| - 1] + [items[|items| - 1]];
    }
  }

  /** A lease apart from the declined one stays off the declined lists. */
  lemma DeclineKeeps(cfg: Config, st: State, key: Key, until: int, k: Key, d: State)
    requires cfg.Usable() && key in st.leases && k in st.leases && LeaseOk(cfg, st, key) && LeaseOk(cfg, st, k)
    requires Apart(st.leases[k], st.leases[key]) && k in d.leases && d.leases[k] == st.leases[k]
    requires d.declined == MarkAll(st.declined, st.leases[key].addresses, until)
    requires d.declinedBlocks == MarkAll(st.declinedBlocks, st.leases[key].prefixes, until)
    ensures LeaseOk(cfg, d, k)
  {
    var lease := st.leases[key];
    if k.kind.Pd? {
      forall b | b in d.declinedBlocks ensures Align(cfg, b.base) != d.leases[k].prefixes[0].base {
        MarkAllKeys(st.declinedBlocks, lease.prefixes, until, b);
        if b in lease.prefixes { AlignedIsItself(cfg, b.base); }
      }
    } else {
      MarkAllKeys(st.declined, lease.addresses, until, d.leases[k].addresses[0]);
    }
  }

  /** What is declined was held by the declining key alone. */
  lemma DeclineSafe(cfg: Config, st: State, key: Key, clock: int)
    requires cfg.Usable() && Safe(cfg, st)
    ensures Safe(cfg, Decline(cfg, st, key, clock))
  {
    if key in st.leases {
      var d := Decline(cfg, st, key, clock);
      forall k | k in d.leases ensures LeaseOk(cfg, d, k) {
        DeclineKeeps(cfg, st, key, clock + cfg.duration, k, d);
      }
    }
  }

  // ----- Every run -----

  datatype Operation =
    | AcquireOp(req: Request)
    | ConfirmOp(key: Key, now: int)
    | ReleaseOp(key: Key)
    | DeclineOp(key: Key, clock: int)

  function Apply(cfg: Config, st: State, op: Operation): (r: State)
    requires cfg.Usable()
  {
    match op
    case AcquireOp(req) => Acquire(cfg, st, req).state
    case ConfirmOp(key, now) => Confirm(cfg, st, key, now).state
    case ReleaseOp(key) => Release(st, key)
    case DeclineOp(key, clock) => Decline(cfg, st, key, clock)
  }

  function Run(cfg: Config, ops: seq<Operation>): (st: State)
    requires cfg.Usable()
  {
    if ops == [] then State(map[], map[], map[]) else Apply(cfg, Run(cfg, ops[..|ops| - 1]), ops[|ops| - 1])
  }

  /**
   After every sequence of calls, with any times and any requests: every lease holds one resource of its kind,
   nothing leased is on a declined list, and no two keys share an address or a delegated base.
   */
  lemma {:induction false} AlwaysSafe(cfg: Config, ops: seq<Operation>)
    requires cfg.Usable()
    ensures Safe(cfg, Run(cfg, ops))
  {
    if ops != [] {
      var st, op := Run(cfg, ops[..|ops| - 1]), ops[|ops| - 1];
      AlwaysSafe(cfg, ops[..|ops| - 1]);
      match op
      case AcquireOp(req) => AcquireSafe(cfg, st, req);
      case ConfirmOp(key, now) => ConfirmSafe(cfg, st, key, now);
      case ReleaseOp(key) => ReleaseSafe(cfg, st, key);
      case DeclineOp(key, clock) => DeclineSafe(cfg, st, key, clock);
    }
  }

  // ----- Staying in the pools -----

  predicate InPool(cfg: Config, lease: Lease)
  {
    && (forall a :: a in lease.addresses ==> cfg.start <= a <= cfg.end)
    && (forall b :: b in lease.prefixes ==> cfg.pdStart <= b.base <= cfg.pdEnd)
  }

  ghost predicate AllInPool(cfg: Config, st: State)
  {
    forall k :: k in st.leases ==> InPool(cfg, st.leases[k])
  }

  /**
   Before the call: a scan of the pruned tables will leave the pool. It starts below a pool whose first prefix is
   not aligned, or it wraps around from a full pool that ends with the last address or prefix.
   */
  ghost predicate Strays(cfg: Config, p: State, req: Request)
    requires cfg.Usable()
  {
    if req.key.kind.Pd? then
      var taken, first := TakenBases(cfg, p, req.now), Align(cfg, cfg.pdStart);
      req.prefix.None? && ((first < cfg.pdStart && first !in taken) || Full(taken, first, cfg.pdEnd, cfg.Span()))
    else
      req.address.None? && Full(TakenAddresses(p, req.now), cfg.start, cfg.end, 1)
  }

  /** What is granted lies in its pool exactly when the scan does not leave it. */
  lemma InPoolIff(cfg: Config, p: State, req: Request)
    requires cfg.Usable() && Allocate(cfg, p, req).Success?
    ensures InPool(cfg, Allocate(cfg, p, req).value) <==> !Strays(cfg, p, req)
  {
    var lease := Allocate(cfg, p, req).value;
    if req.key.kind.Pd? {
      PickedBlock(cfg, p, req.prefix, req.now);
      var b := lease.prefixes[0];
      assert b in lease.prefixes;
      if req.prefix.None? { BlockStrays(cfg, TakenBases(cfg, p, req.now), b.base); }
    } else {
      PickedAddress(cfg, p, req.address, req.now);
      assert lease.addresses[0] in lease.addresses;
    }
  }

  lemma BlockStrays(cfg: Config, taken: set<u128>, n: u128)
    requires cfg.Usable() && n % cfg.Span() == 0 && n !in taken
    requires var first := Align(cfg, cfg.pdStart);
             if first <= n then n <= cfg.pdEnd && Full(taken, first, n - 1, cfg.Span())
             else Full(taken, first, cfg.pdEnd, cfg.Span())
    ensures var first := Align(cfg, cfg.pdStart);
            cfg.pdStart <= n <= cfg.pdEnd <==> !((first < cfg.pdStart && first !in taken) || Full(taken, first, cfg.pdEnd, cfg.Span()))
  {
    var first := Align(cfg, cfg.pdStart);
    if first < n { MultiplesApart(first, n, cfg.Span()); }
  }

  /** The call, if it grants something new, does so within the pools. */
  ghost predicate GrantsInPool(cfg: Config, st: State, op: Operation)
    requires cfg.Usable()
  {
    op.AcquireOp? ==> ServesInPool(cfg, Prune(st, op.req.now), op.req)
  }

  ghost predicate ServesInPool(cfg: Config, p: State, req: Request)
    requires cfg.Usable()
  {
    req.key !in p.leases && Allocate(cfg, p, req).Success? ==> !Strays(cfg, p, req)
  }

  lemma StepInPoolIff(cfg: Config, st: State, op: Operation)
    requires cfg.Usable() && AllInPool(cfg, st)
    ensures AllInPool(cfg, Apply(cfg, st, op)) <==> GrantsInPool(cfg, st, op)
  {
    var next := Apply(cfg, st, op);
    match op {
      case AcquireOp(req) =>
        var p := Prune(st, req.now);
        assert AllInPool(cfg, p);
        if req.key !in p.leases && Allocate(cfg, p, req).Success? {
          InPoolIff(cfg, p, req);
          assert req.key in next.leases;
        }
      case ConfirmOp(key, now) =>
      case ReleaseOp(key) =>
      case DeclineOp(key, clock) =>
    }
  }

  ghost predicate AllGrantsInPool(cfg: Config, ops: seq<Operation>)
    requires cfg.Usable()
  {
    forall i :: 0 <= i < |ops| ==> GrantsInPool(cfg, Run(cfg, ops[..i]), ops[i])
  }

  /**
   Over a run, everything leased is always in its pool exactly when no call that grants something strays; with a
   sound configuration none does.
   */
  lemma {:induction false} AlwaysInPoolIff(cfg: Config, ops: seq<Operation>)
    requires cfg.Usable()
    ensures (forall i :: 0 <= i <= |ops| ==> AllInPool(cfg, Run(cfg, ops[..i])))
       <==> AllGrantsInPool(cfg, ops)
    ensures cfg.Sound() ==> AllGrantsInPool(cfg, ops)
  {
    if cfg.Sound() { SoundRuns(cfg, ops); }
    assert AllInPool(cfg, Run(cfg, []));
    if forall i :: 0 <= i <= |ops| ==> AllInPool(cfg, Run(cfg, ops[..i])) {
      forall i | 0 <= i < |ops| ensures GrantsInPool(cfg, Run(cfg, ops[..i]), ops[i]) {
        RunStep(cfg, ops, i);
        StepInPoolIff(cfg, Run(cfg, ops[..i]), ops[i]);
      }
    }
    if AllGrantsInPool(cfg, ops) {
      forall i | 0 <= i <= |ops| ensures AllInPool(cfg, Run(cfg, ops[..i])) { InPoolUpTo(cfg, ops, i); }
    }
  }

  lemma RunStep(cfg: Config, ops: seq<Operation>, i: nat)
    requires cfg.Usable() && i < |ops|
    ensures Run(cfg, ops[..i + 1]) == Apply(cfg, Run(cfg, ops[..i]), ops[i])
  {
    assert ops[..i + 1][..i] == ops[..i];
  }

  lemma {:induction false} InPoolUpTo(cfg: Config, ops: seq<Operation>, i: nat)
    requires cfg.Usable() && i <= |ops|
    requires AllGrantsInPool(cfg, ops)
    ensures AllInPool(cfg, Run(cfg, ops[..i]))
  {
    if i == 0 {
      assert ops[..0] == [];
    } else {
      InPoolUpTo(cfg, ops, i - 1);
      NextInPool(cfg, ops, i - 1);
    }
  }

  lemma NextInPool(cfg: Config, ops: seq<Operation>, i: nat)
    requires cfg.Usable() && i < |ops| && GrantsInPool(cfg, Run(cfg, ops[..i]), ops[i]) && AllInPool(cfg, Run(cfg, ops[..i]))
    ensures AllInPool(cfg, Run(cfg, ops[..i + 1]))
  {
    RunStep(cfg, ops, i);
    StepInPoolIff(cfg, Run(cfg, ops[..i]), ops[i]);
  }

  lemma SoundRuns(cfg: Config, ops: seq<Operation>)
    requires cfg.Sound()
    ensures AllGrantsInPool(cfg, ops)
  {
    forall i | 0 <= i < |ops| ensures GrantsInPool(cfg, Run(cfg, ops[..i]), ops[i]) {
      if ops[i].AcquireOp? { SoundStays(cfg, Prune(Run(cfg, ops[..i]), ops[i].req.now), ops[i].req); }
    }
  }

  lemma SoundStays(cfg: Config, p: State, req: Request)
    requires cfg.Sound()
    ensures Allocate(cfg, p, req).Success? ==> !Strays(cfg, p, req)
  {
    if Allocate(cfg, p, req).Success? {
      if req.key.kind.Pd? {
        AlignedIsItself(cfg, cfg.pdStart);
        PickedBlock(cfg, p, req.prefix, req.now);
      } else {
        PickedAddress(cfg, p, req.address, req.now);
      }
    }
  }

  const EMPTY: State := State(map[], map[], map[])

  /** The first prefix from a pool that starts within a prefix lies below the pool. */
  lemma UnalignedStrays(cfg: Config, key: Key, now: int)
    requires cfg.Usable() && key.kind.Pd? && cfg.pdStart % cfg.Span() != 0 && Align(cfg, cfg.pdStart) <= cfg.pdEnd
    ensures var r := Acquire(cfg, EMPTY, Request(key, None, None, now)).result;
            r.Success? && r.value.prefixes == [Block(Align(cfg, cfg.pdStart), cfg.pdBits)] && !InPool(cfg, r.value)
  {
    assert Prune(EMPTY, now) == EMPTY;
    assert TakenBases(cfg, EMPTY, now) == {};
    var r := Acquire(cfg, EMPTY, Request(key, None, None, now)).result;
    assert r.value.prefixes[0] in r.value.prefixes;
  }

  /** From a pool that holds just the last address, the second client gets address zero. */
  lemma FullPoolStrays(cfg: Config, first: Key, second: Key, now: int)
    requires cfg.Usable() && cfg.start == cfg.end == SPACE - 1 && cfg.duration > 0
    requires first != second && first.kind.Na? && second.kind.Na?
    ensures var st := State(map[first := Lease([SPACE - 1], [], now + cfg.duration)], map[], map[]);
            && Acquire(cfg, EMPTY, Request(first, None, None, now)).state == st
            && Acquire(cfg, st, Request(second, None, None, now)).result == Success(Lease([0], [], now + cfg.duration))
  {
    assert Prune(EMPTY, now) == EMPTY;
    assert TakenAddresses(EMPTY, now) == {};
    var lease := Lease([SPACE - 1], [], now + cfg.duration);
    var st := State(map[first := lease], map[], map[]);
    assert Prune(st, now) == st;
    var taken := TakenAddresses(st, now);
    assert taken == {SPACE - 1} by { assert lease.addresses[0] in lease.addresses; }
    assert FirstFree(taken, SPACE - 1, SPACE - 1, 1) == FirstFree(taken, SPACE, SPACE - 1, 1) == None;
    assert FirstFree(taken, 0, SPACE - 2, 1) == Some(0);
    assert Scanned(taken, cfg.start, cfg.end, 1) == Found(0);
  }

  lemma HalvesScanned(half: nat)
    requires 2 * half == SPACE
    ensures Scanned({}, 0, SPACE - 1, half) == Found(0) && Scanned({0}, 0, SPACE - 1, half) == Found(half)
    ensures Scanned({0, half}, 0, SPACE - 1, half) == Unending
  {
    var two: set<u128> := {0, half};
    assert FirstFree({0}, 0, SPACE - 1, half) == FirstFree({0}, half, SPACE - 1, half) == Some(half);
    assert FirstFree(two, half, SPACE - 1, half) == FirstFree(two, SPACE, SPACE - 1, half) == None;
    assert FirstFree(two, 0, SPACE - 1, half) == FirstFree(two, half, SPACE - 1, half);
  }

  lemma AcquireFree(cfg: Config, st: State, key: Key, now: int, b: Block)
    requires cfg.Usable() && key.kind.Pd? && key !in st.leases && Prune(st, now) == st
    requires PickBlock(cfg, st, None, now) == Success(b)
    ensures Acquire(cfg, st, Request(key, None, None, now)).state == Grant(st, key, Lease([], [b], now + cfg.duration))
  {}

  const HALF: u128 := 0x8000_0000_0000_0000_0000_0000_0000_0000

  /** The whole space is a pool of two prefixes. */
  predicate HalvesPool(cfg: Config)
  {
    cfg.pdBits == 1 && cfg.pdStart == 0 && cfg.pdEnd == SPACE - 1 && cfg.duration > 0
  }

  lemma HalfSpan(cfg: Config)
    requires HalvesPool(cfg)
    ensures cfg.Span() == cfg.Step() == HALF && Align(cfg, 0) == 0
  {
    Pow2At128();
  }

  function HalfLease(cfg: Config, base: u128, now: int): (l: Lease)
  {
    Lease([], [Block(base, 1)], now + cfg.duration)
  }

  lemma FirstHalf(cfg: Config, first: Key, now: int)
    requires HalvesPool(cfg) && first.kind.Pd?
    ensures Acquire(cfg, EMPTY, Request(first, None, None, now)).state == State(map[first := HalfLease(cfg, 0, now)], map[], map[])
  {
    HalfSpan(cfg);
    HalvesScanned(HALF);
    assert Prune(EMPTY, now) == EMPTY && TakenBases(cfg, EMPTY, now) == {};
    AcquireFree(cfg, EMPTY, first, now, Block(0, 1));
  }

  lemma SecondHalf(cfg: Config, first: Key, second: Key, now: int)
    requires HalvesPool(cfg) && second.kind.Pd? && first != second
    ensures var low, high := HalfLease(cfg, 0, now), HalfLease(cfg, HALF, now);
            Acquire(cfg, State(map[first := low], map[], map[]), Request(second, None, None, now)).state
            == State(map[first := low, second := high], map[], map[])
  {
    var low, high := HalfLease(cfg, 0, now), HalfLease(cfg, HALF, now);
    var st := State(map[first := low], map[], map[]);
    HalfSpan(cfg);
    HalvesScanned(HALF);
    TakenHalves(cfg, first, second, low, high, HALF, now);
    assert Prune(st, now) == st;
    AcquireFree(cfg, st, second, now, Block(HALF, 1));
  }

  lemma NoThirdHalf(cfg: Config, first: Key, second: Key, third: Key, now: int)
    requires HalvesPool(cfg) && third.kind.Pd? && first != second && third != first && third != second
    ensures var low, high := HalfLease(cfg, 0, now), HalfLease(cfg, HALF, now);
            Acquire(cfg, State(map[first := low, second := high], map[], map[]), Request(third, None, None, now)).result
            == Failure(Endless)
  {
    var low, high := HalfLease(cfg, 0, now), HalfLease(cfg, HALF, now);
    var st := State(map[first := low, second := high], map[], map[]);
    HalfSpan(cfg);
    HalvesScanned(HALF);
    TakenHalves(cfg, first, second, low, high, HALF, now);
    assert Prune(st, now) == st;
  }

  /** With the whole space for a pool of two prefixes, the third call does not return. */
  lemma ThirdCallEndless(cfg: Config, first: Key, second: Key, third: Key, now: int)
    requires HalvesPool(cfg) && first != second && first != third && second != third
    requires first.kind.Pd? && second.kind.Pd? && third.kind.Pd?
    ensures var st := Run(cfg, [AcquireOp(Request(first, None, None, now)), AcquireOp(Request(second, None, None, now))]);
            Acquire(cfg, st, Request(third, None, None, now)).result == Failure(Endless)
  {
    RunTwo(cfg, AcquireOp(Request(first, None, None, now)), AcquireOp(Request(second, None, None, now)));
    FirstHalf(cfg, first, now);
    SecondHalf(cfg, first, second, now);
    NoThirdHalf(cfg, first, second, third, now);
  }

  lemma RunTwo(cfg: Config, one: Operation, two: Operation)
    requires cfg.Usable()
    ensures Run(cfg, [one, two]) == Apply(cfg, Apply(cfg, EMPTY, one), two)
  {
    assert [one, two][..1] == [one] && [one][..0] == [];
    assert Run(cfg, [one]) == Apply(cfg, Run(cfg, []), one);
  }

  lemma TakenHalves(cfg: Config, first: Key, second: Key, low: Lease, high: Lease, half: nat, now: int)
    requires cfg.Usable() && half == cfg.Span() && 2 * half == SPACE && first != second
    requires low.prefixes == [Block(0, 1)] && high.prefixes == [Block(half, 1)]
    ensures TakenBases(cfg, State(map[first := low], map[], map[]), now) == {0}
    ensures TakenBases(cfg, State(map[first := low, second := high], map[], map[]), now) == {0, half}
  {
    AlignedIsItself(cfg, 0);
    AlignedIsItself(cfg, half);
    var s1, s2 := State(map[first := low], map[], map[]), State(map[first := low, second := high], map[], map[]);
    var one, two := TakenBases(cfg, s1, now), TakenBases(cfg, s2, now);
    assert 0 in one by { assert low.prefixes[0] in s1.leases[first].prefixes; }
    assert 0 in two by { assert low.prefixes[0] in s2.leases[first].prefixes; }
    assert half in two by { assert high.prefixes[0] in s2.leases[second].prefixes; }
  }

  // ----- Overlap of delegated prefixes -----

  /** The address starts with the bits of the block. */
  predicate InBlock(b: Block, n: u128)
  {
    b.bits <= 128 && n / Pow2(128 - b.bits) == b.base / Pow2(128 - b.bits)
  }

  ghost predicate Overlap(x: Block, y: Block)
  {
    exists n: u128 :: InBlock(x, n) && InBlock(y, n)
  }

  /** The shorter of two prefixes holds all of the longer one, or nothing of it. */
  lemma OverlapIff(x: Block, y: Block)
    requires x.bits <= y.bits <= 128
    ensures Overlap(x, y) <==> InBlock(x, y.base)
  {
    var fine, ratio := Pow2(128 - y.bits), Pow2(y.bits - x.bits);
    Pow2Add(128 - y.bits, y.bits - x.bits);
    assert Pow2(128 - x.bits) == fine * ratio;
    DivDiv(y.base, fine, ratio);
    if n: u128 :| InBlock(x, n) && InBlock(y, n) { DivDiv(n, fine, ratio); }
    assert InBlock(y, y.base);
  }

  lemma OverlapEither(x: Block, y: Block)
    requires x.bits <= 128 && y.bits <= 128
    ensures Overlap(x, y) <==> InBlock(x, y.base) || InBlock(y, x.base)
    ensures Overlap(x, y) <==> Overlap(y, x)
  {
    assert InBlock(x, x.base) && InBlock(y, y.base);
    if x.bits <= y.bits { OverlapIff(x, y); } else { OverlapIff(y, x); }
  }

  /** No address belongs to the prefixes of two keys. */
  ghost predicate Disjoint(leases: map<Key, Lease>)
  {
    forall j, k, x, y :: j in leases && k in leases && j != k && x in leases[j].prefixes && y in leases[k].prefixes ==>
      !Overlap(x, y)
  }

  /** No leased base lies in the block, and its base lies in no leased block. */
  predicate Fits(leases: map<Key, Lease>, b: Block)
  {
    forall k, y :: k in leases && y in leases[k].prefixes ==> !InBlock(b, y.base) && !InBlock(y, b.base)
  }

  /** The test that is missing: a granted block leaves the prefixes disjoint exactly when it fits. */
  lemma GrantDisjointIff(cfg: Config, st: State, key: Key, lease: Lease, b: Block)
    requires cfg.Usable() && Safe(cfg, st) && Disjoint(st.leases) && key !in st.leases
    requires lease.prefixes == [b] && b.bits <= cfg.pdBits
    ensures Disjoint(Grant(st, key, lease).leases) <==> Fits(st.leases, b)
  {
    var g := Grant(st, key, lease).leases;
    forall k, y | k in st.leases && y in st.leases[k].prefixes
      ensures (Overlap(b, y) <==> InBlock(b, y.base) || InBlock(y, b.base)) && (Overlap(y, b) <==> Overlap(b, y))
    {
      assert LeaseOk(cfg, st, k);
      OverlapEither(b, y);
    }
    if Fits(st.leases, b) {
      FittingDisjoint(st.leases, g, key, b);
    }
    if Disjoint(g) {
      assert b in g[key].prefixes;
      forall k, y | k in st.leases && y in st.leases[k].prefixes ensures !InBlock(b, y.base) && !InBlock(y, b.base) {
        assert g[k] == st.leases[k] && !Overlap(b, y);
      }
    }
  }

  lemma FittingDisjoint(leases: map<Key, Lease>, g: map<Key, Lease>, key: Key, b: Block)
    requires Disjoint(leases) && key !in leases && key in g && g[key].prefixes == [b] && g == leases[key := g[key]]
    requires forall k, y :: k in leases && y in leases[k].prefixes ==> !Overlap(b, y) && !Overlap(y, b)
    ensures Disjoint(g)
  {
    forall j, k, x, y | j in g && k in g && j != k && x in g[j].prefixes && y in g[k].prefixes ensures !Overlap(x, y) {
      if j == key {
        assert x == b && g[k] == leases[k];
      } else if k == key {
        assert y == b && g[j] == leases[j];
      }
    }
  }

  lemma SameDisjoint(a: map<Key, Lease>, b: map<Key, Lease>)
    requires Disjoint(a) && forall k :: k in b ==> k in a && b[k].prefixes == a[k].prefixes
    ensures Disjoint(b)
  {}

  /** The call, if it grants a prefix, grants one that fits. */
  ghost predicate GrantFits(cfg: Config, st: State, op: Operation)
    requires cfg.Usable()
  {
    op.AcquireOp? && op.req.key.kind.Pd? ==>
      var p := Prune(st, op.req.now);
      var b := PickBlock(cfg, p, op.req.prefix, op.req.now);
      op.req.key !in p.leases && b.Success? ==> Fits(p.leases, b.value)
  }

  lemma ServeDisjointIff(cfg: Config, p: State, req: Request)
    requires cfg.Usable() && Safe(cfg, p) && Disjoint(p.leases) && req.key !in p.leases && Allocate(cfg, p, req).Success?
    ensures Disjoint(Grant(p, req.key, Allocate(cfg, p, req).value).leases)
       <==> (req.key.kind.Pd? ==> Fits(p.leases, PickBlock(cfg, p, req.prefix, req.now).value))
  {
    var lease := Allocate(cfg, p, req).value;
    if req.key.kind.Pd? {
      PickedBlock(cfg, p, req.prefix, req.now);
      GrantDisjointIff(cfg, p, req.key, lease, lease.prefixes[0]);
    }
  }

  lemma StepDisjointIff(cfg: Config, st: State, op: Operation)
    requires cfg.Usable() && Safe(cfg, st) && Disjoint(st.leases)
    ensures Disjoint(Apply(cfg, st, op).leases) <==> GrantFits(cfg, st, op)
  {
    var next := Apply(cfg, st, op);
    match op {
      case AcquireOp(req) =>
        var p := Prune(st, req.now);
        PruneSafe(cfg, st, req.now);
        SameDisjoint(st.leases, p.leases);
        if req.key !in p.leases && Allocate(cfg, p, req).Success? {
          ServeDisjointIff(cfg, p, req);
        } else {
          SameDisjoint(p.leases, next.leases);
        }
      case ConfirmOp(key, now) => SameDisjoint(st.leases, next.leases);
      case ReleaseOp(key) => SameDisjoint(st.leases, next.leases);
      case DeclineOp(key, clock) => SameDisjoint(st.leases, next.leases);
    }
  }

  ghost predicate AllGrantsFit(cfg: Config, ops: seq<Operation>)
    requires cfg.Usable()
  {
    forall i :: 0 <= i < |ops| ==> GrantFits(cfg, Run(cfg, ops[..i]), ops[i])
  }

  /**
   Over a run, no two keys ever hold overlapping prefixes exactly when every prefix fitted when it was granted; all do
   if no request asks for a prefix shorter than the pool's.
   */
  lemma NoOverlap(cfg: Config, ops: seq<Operation>)
    requires cfg.Usable()
    ensures (forall i :: 0 <= i <= |ops| ==> Disjoint(Run(cfg, ops[..i]).leases))
       <==> AllGrantsFit(cfg, ops)
    ensures AllAskExact(cfg, ops) ==> AllGrantsFit(cfg, ops)
  {
    if AllAskExact(cfg, ops) {
      forall i | 0 <= i <= |ops| ensures Disjoint(Run(cfg, ops[..i]).leases) { ExactRunsDisjoint(cfg, ops[..i]); }
    }
    if forall i :: 0 <= i <= |ops| ==> Disjoint(Run(cfg, ops[..i]).leases) { DisjointFit(cfg, ops); }
    if AllGrantsFit(cfg, ops) {
      forall i | 0 <= i <= |ops| ensures Disjoint(Run(cfg, ops[..i]).leases) { DisjointUpTo(cfg, ops, i); }
    }
  }

  lemma DisjointFit(cfg: Config, ops: seq<Operation>)
    requires cfg.Usable() && forall i :: 0 <= i <= |ops| ==> Disjoint(Run(cfg, ops[..i]).leases)
    ensures AllGrantsFit(cfg, ops)
  {
    forall i | 0 <= i < |ops| ensures GrantFits(cfg, Run(cfg, ops[..i]), ops[i]) {
      RunStep(cfg, ops, i);
      AlwaysSafe(cfg, ops[..i]);
      StepDisjointIff(cfg, Run(cfg, ops[..i]), ops[i]);
    }
  }

  lemma {:induction false} DisjointUpTo(cfg: Config, ops: seq<Operation>, i: nat)
    requires cfg.Usable() && i <= |ops|
    requires AllGrantsFit(cfg, ops)
    ensures Disjoint(Run(cfg, ops[..i]).leases)
  {
    if i > 0 {
      DisjointUpTo(cfg, ops, i - 1);
      RunStep(cfg, ops, i - 1);
      AlwaysSafe(cfg, ops[..i - 1]);
      StepDisjointIff(cfg, Run(cfg, ops[..i - 1]), ops[i - 1]);
    }
  }

  // ----- Runs without shorter requests -----

  /** No request asks for a prefix shorter than the pool's. */
  predicate AsksExact(cfg: Config, op: Operation)
  {
    op.AcquireOp? && op.req.prefix.Some? ==> op.req.prefix.value.bits >= cfg.pdBits
  }

  predicate AllAskExact(cfg: Config, ops: seq<Operation>)
  {
    forall i :: 0 <= i < |ops| ==> AsksExact(cfg, ops[i])
  }

  predicate ExactLease(cfg: Config, lease: Lease)
  {
    forall b :: b in lease.prefixes ==> b.bits == cfg.pdBits
  }

  /** The block granted has the pool's length exactly when the request does not ask for a shorter one. */
  lemma GrantedLength(cfg: Config, st: State, req: Request)
    requires cfg.Usable() && req.key.kind.Pd? && Allocate(cfg, st, req).Success?
    ensures ExactLease(cfg, Allocate(cfg, st, req).value) <==> (req.prefix.None? || req.prefix.value.bits >= cfg.pdBits)
  {
    PickedBlock(cfg, st, req.prefix, req.now);
    var lease := Allocate(cfg, st, req).value;
    assert lease.prefixes[0] in lease.prefixes;
  }

  lemma ServeExact(cfg: Config, p: State, req: Request, key: Key)
    requires cfg.Usable() && AsksExact(cfg, AcquireOp(req)) && key in Serve(cfg, p, req).state.leases
    requires key in p.leases ==> ExactLease(cfg, p.leases[key])
    ensures ExactLease(cfg, Serve(cfg, p, req).state.leases[key])
  {
    if req.key == key && key !in p.leases && key.kind.Pd? { GrantedLength(cfg, p, req); }
  }

  /** One call leaves no other lengths than there were, unless it asks for a shorter prefix. */
  lemma StaysExact(cfg: Config, st: State, op: Operation, key: Key)
    requires cfg.Usable() && AsksExact(cfg, op) && key in Apply(cfg, st, op).leases
    requires key in st.leases ==> ExactLease(cfg, st.leases[key])
    ensures ExactLease(cfg, Apply(cfg, st, op).leases[key])
  {
    match op
    case AcquireOp(req) => ServeExact(cfg, Prune(st, req.now), req, key);
    case ConfirmOp(_, _) =>
    case ReleaseOp(_) =>
    case DeclineOp(_, _) =>
  }

  lemma {:induction false} AlwaysExact(cfg: Config, ops: seq<Operation>, key: Key)
    requires cfg.Usable() && AllAskExact(cfg, ops) && key in Run(cfg, ops).leases
    ensures ExactLease(cfg, Run(cfg, ops).leases[key])
  {
    var init, op := ops[..|ops| - 1], ops[|ops| - 1];
    if key in Run(cfg, init).leases { AlwaysExact(cfg, init, key); }
    StaysExact(cfg, Run(cfg, init), op, key);
  }

  lemma ExactBlocksDisjoint(cfg: Config, st: State, j: Key, k: Key, x: Block, y: Block)
    requires cfg.Usable() && Safe(cfg, st) && j in st.leases && k in st.leases && j != k
    requires x in st.leases[j].prefixes && y in st.leases[k].prefixes && x.bits == y.bits == cfg.pdBits
    ensures !Overlap(x, y)
  {
    assert LeaseOk(cfg, st, j) && LeaseOk(cfg, st, k) && Apart(st.leases[j], st.leases[k]);
    OverlapIff(x, y);
    SameQuotient(x.base, y.base, cfg.Span());
  }

  /** Without shorter requests, no address belongs to the delegated prefixes of two keys. */
  lemma ExactRunsDisjoint(cfg: Config, ops: seq<Operation>)
    requires cfg.Usable() && AllAskExact(cfg, ops)
    ensures Disjoint(Run(cfg, ops).leases)
  {
    var st := Run(cfg, ops);
    AlwaysSafe(cfg, ops);
    forall k | k in st.leases ensures ExactLease(cfg, st.leases[k]) { AlwaysExact(cfg, ops, k); }
    forall j, k, x, y | j in st.leases && k in st.leases && j != k && x in st.leases[j].prefixes && y in st.leases[k].prefixes
      ensures !Overlap(x, y)
    {
      ExactBlocksDisjoint(cfg, st, j, k, x, y);
    }
  }

  lemma SameQuotient(a: nat, b: nat, step: nat)
    requires step > 0 && a % step == 0 && b % step == 0 && a != b
    ensures a / step != b / step
  {}

  // ----- Whole blocks in the pool -----

  function FirstOf(b: Block): (n: nat)
    requires b.bits <= 128
  {
    AlignFacts(b.base, Pow2(128 - b.bits));
    b.base - b.base % Pow2(128 - b.bits)
  }

  lemma QuotientRange(base: nat, n: nat, span: nat)
    requires span > 0
    ensures n / span == base / span <==> base - base % span <= n < base - base % span + span
  {
    var q, first := base / span, base - base % span;
    assert first == q * span;
    if first <= n < first + span { DivModUnique(n, span, q, n - first); }
  }

  /** A block is the run of addresses from its first one. */
  lemma BlockRange(b: Block, n: u128)
    requires b.bits <= 128
    ensures InBlock(b, n) <==> FirstOf(b) <= n < FirstOf(b) + Pow2(128 - b.bits)
  {
    QuotientRange(b.base, n, Pow2(128 - b.bits));
  }

  /** The whole of a block is in the pool exactly when its first and its last address are. */
  lemma WholeInPool(cfg: Config, b: Block)
    requires b.bits <= 128
    ensures (forall n: u128 :: InBlock(b, n) ==> cfg.pdStart <= n <= cfg.pdEnd)
       <==> cfg.pdStart <= FirstOf(b) && FirstOf(b) + Pow2(128 - b.bits) - 1 <= cfg.pdEnd
  {
    var first, span := FirstOf(b), Pow2(128 - b.bits);
    BlockEnds(b);
    var last: u128 := first + span - 1;
    BlockRange(b, first);
    BlockRange(b, last);
    forall n: u128 ensures InBlock(b, n) <==> first <= n < first + span { BlockRange(b, n); }
  }

  lemma BlockEnds(b: Block)
    requires b.bits <= 128
    ensures FirstOf(b) + Pow2(128 - b.bits) <= SPACE
  {
    Pow2Add(b.bits, 128 - b.bits);
    Pow2At128();
    LastQuotient(b.base, Pow2(128 - b.bits), Pow2(b.bits));
  }

  lemma LastQuotient(n: nat, span: nat, count: nat)
    requires span > 0 && n < count * span
    ensures n - n % span + span <= count * span
  {
    AlignFacts(n, span);
    DivModUnique(count * span, span, count, 0);
    MultiplesApart(n - n % span, count * span, span);
  }

  // ----- A schedule with an overlap -----

  /** A multiple of twice the step and the step after it lie in the same larger block. */
  lemma SameBlock(n: nat, step: nat, span: nat)
    requires step > 0 && span > 0 && span % (2 * step) == 0 && n % (2 * step) == 0
    ensures (n + step) / span == n / span
  {
    var a, r := n / span, n % span;
    assert n == span * a + r;
    var q, t := span / (2 * step), n / (2 * step);
    assert span == q * (2 * step) && n == t * (2 * step);
    RemainderMultiple(a, q, t, 2 * step, r);
    if r < span { MultiplesApart(r, span, 2 * step); }
    DivModUnique(n + step, span, a, r + step);
  }

  lemma RemainderMultiple(a: nat, q: nat, t: nat, d: nat, r: nat)
    requires d > 0 && t * d == (q * d) * a + r
    ensures r % d == 0
  {
    assert r == (t - q * a) * d by {
      assert (q * d) * a == (q * a) * d by { SwapFactors(q, d, a); }
    }
    DivModUnique(r, d, t - q * a, 0);
  }

  /** The first client gets the shorter prefix it asks for. */
  lemma FirstGrant(cfg: Config, first: Key, bits: nat, now: int)
    requires cfg.Sound() && cfg.pdBits < 128 && bits < cfg.pdBits && first.kind.Pd? && cfg.pdStart <= cfg.pdEnd
    ensures Acquire(cfg, State(map[], map[], map[]), Request(first, None, Some(Block(cfg.pdStart, bits)), now)).state
         == State(map[first := Lease([], [Block(cfg.pdStart, bits)], now + cfg.duration)], map[], map[])
  {
    var empty := State(map[], map[], map[]);
    assert Prune(empty, now) == empty;
    AlignedIsItself(cfg, cfg.pdStart);
    assert TakenBases(cfg, empty, now) == {};
  }

  /** The second client gets the next base. */
  lemma SecondGrant(cfg: Config, first: Key, second: Key, lease: Lease, now: int)
    requires cfg.Sound() && cfg.pdBits < 128 && first != second && second.kind.Pd? && cfg.pdStart + cfg.Step() <= cfg.pdEnd
    requires |lease.prefixes| == 1 && lease.prefixes[0].base == cfg.pdStart && now < lease.expires
    ensures Acquire(cfg, State(map[first := lease], map[], map[]), Request(second, None, None, now)).state.leases
         == map[first := lease, second := Lease([], [Block(cfg.pdStart + cfg.Step(), cfg.pdBits)], now + cfg.duration)]
  {
    var st, step := State(map[first := lease], map[], map[]), cfg.Step();
    assert Prune(st, now) == st;
    AlignedIsItself(cfg, cfg.pdStart);
    var taken := TakenBases(cfg, st, now);
    assert cfg.pdStart in taken by { assert lease.prefixes[0] in st.leases[first].prefixes; }
    assert cfg.pdStart + step !in taken;
    assert FirstFree(taken, cfg.pdStart + step, cfg.pdEnd, step) == Some(cfg.pdStart + step);
  }

  /** A shorter request from one client makes the next free prefix of another overlap with it. */
  lemma ShorterRequestOverlaps(cfg: Config, first: Key, second: Key, bits: nat, now: int)
    requires cfg.Sound() && cfg.pdBits < 128 && bits < cfg.pdBits && cfg.duration > 0 && first != second && first.kind.Pd? && second.kind.Pd?
    requires cfg.pdStart % (2 * cfg.Step()) == 0 && cfg.pdStart + cfg.Step() <= cfg.pdEnd
    ensures var ops := [AcquireOp(Request(first, None, Some(Block(cfg.pdStart, bits)), now)),
                        AcquireOp(Request(second, None, None, now))];
            var st := Run(cfg, ops);
            && first in st.leases && st.leases[first].prefixes == [Block(cfg.pdStart, bits)]
            && second in st.leases && st.leases[second].prefixes == [Block(cfg.pdStart + cfg.Step(), cfg.pdBits)]
    ensures InBlock(Block(cfg.pdStart, bits), cfg.pdStart + cfg.Step())
    ensures InBlock(Block(cfg.pdStart + cfg.Step(), cfg.pdBits), cfg.pdStart + cfg.Step())
  {
    var one := AcquireOp(Request(first, None, Some(Block(cfg.pdStart, bits)), now));
    var two := AcquireOp(Request(second, None, None, now));
    assert [one, two][..1] == [one] && [one][..0] == [];
    FirstGrant(cfg, first, bits, now);
    var lease := Lease([], [Block(cfg.pdStart, bits)], now + cfg.duration);
    assert Run(cfg, [one]) == State(map[first := lease], map[], map[]);
    SecondGrant(cfg, first, second, lease, now);
    SpanMultiple(cfg, bits);
    SameBlock(cfg.pdStart, cfg.Step(), Pow2(128 - bits));
  }

  lemma SpanMultiple(cfg: Config, bits: nat)
    requires cfg.Sound() && cfg.pdBits < 128 && bits < cfg.pdBits
    ensures Pow2(128 - bits) % (2 * cfg.Step()) == 0
  {
    var k, step := cfg.pdBits - bits - 1, cfg.Step();
    Pow2Add(k + 1, 128 - cfg.pdBits);
    Doubled(Pow2(k), step);
    Doubled(step, Pow2(k));
    Commute(step, Pow2(k));
    Commute(2 * step, Pow2(k));
    DivModUnique(Pow2(128 - bits), 2 * step, Pow2(k), 0);
  }
}
