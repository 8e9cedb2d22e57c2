/** The lease store object of tpt-dhcpv6/src/memory.rs: tables updated in place, proved against LeaseStore. */
module LeaseTable {
  import opened Limbs
  import opened Wrappers
  import opened LeaseStore

  class MemoryLeaseStore {
    const cfg: Config
    var leases: map<Key, Lease>
    var declined: map<u128, int>
    var declinedBlocks: map<Block, int>

    ghost function Abstract(): (st: State)
      reads this
    {
      State(leases, declined, declinedBlocks)
    }

    ghost predicate Valid()
      reads this
    {
      cfg.Usable() && Safe(cfg, Abstract())
    }

    constructor (cfg: Config)
      requires cfg.Usable()
      ensures Valid() && this.cfg == cfg && Abstract() == Run(cfg, [])
    {
      this.cfg := cfg;
      leases, declined, declinedBlocks := map[], map[], map[];
    }

    /** Steps through the candidates until one is free, past the last number starting over, if that ever ends. */
    method Scan(taken: set<u128>, first: u128, end: u128, step: nat) returns (r: Option<u128>)
      requires StepFits(step) && first % Spacing(step) == 0 && !Scanned(taken, first, end, step).Unending?
      ensures Scanned(taken, first, end, step) == if r.Some? then Found(r.value) else Exhausted
    {
      var n: u128 := first;
      ghost var over := false;
      if step > 0 { ScanIsRest(taken, first, end, step); }
      while n <= end
        invariant if step == 0 then n == first else n % step == 0 && (over ==> first <= end && n < first)
        invariant step > 0 ==> Rest(taken, first, n, end, step, over) == Scanned(taken, first, end, step)
        decreases !over, SPACE - n
      {
        if n !in taken { return Some(n); }
        RestStep(taken, first, n, end, step, over);
        over := over || n + step == SPACE;
        n := if n + step < SPACE then n + step else n + step - SPACE;
      }
      if step > 0 { MultiplesApart(n, SPACE, step); }
      return None;
    }

    method ChooseAddress(requested: Option<u128>, now: int) returns (r: Result<u128, Error>)
      requires PickAddress(cfg, Abstract(), requested, now) != Failure(Endless)
      ensures r == PickAddress(cfg, Abstract(), requested, now)
    {
      var used := set k, a | k in leases && a in leases[k].addresses :: a;
      var out := set a | a in declined && declined[a] > now;
      if requested.Some? {
        if !(cfg.start <= requested.value <= cfg.end) { return Failure(OutOfPool(requested.value)); }
        if requested.value in used || requested.value in out { return Failure(InUse(requested.value)); }
        return Success(requested.value);
      }
      var free := Scan(used + out, cfg.start, cfg.end, 1);
      return if free.Some? then Success(free.value) else Failure(PoolExhausted);
    }

    method ChooseBlock(requested: Option<Block>, now: int) returns (r: Result<Block, Error>)
      requires cfg.Usable() && PickBlock(cfg, Abstract(), requested, now) != Failure(Endless)
      ensures r == PickBlock(cfg, Abstract(), requested, now)
    {
      var used := set k, b | k in leases && b in leases[k].prefixes :: Align(cfg, b.base);
      var out := set b | b in declinedBlocks && declinedBlocks[b] > now :: Align(cfg, b.base);
      if requested.Some? {
        var n := Align(cfg, requested.value.base);
        if !(cfg.pdStart <= n <= cfg.pdEnd) { return Failure(OutOfPool(requested.value.base)); }
        if n in used || n in out { return Failure(InUse(requested.value.base)); }
        return Success(Block(n, if requested.value.bits < cfg.pdBits then requested.value.bits else cfg.pdBits));
      }
      SpanFits(cfg);
      var free := Scan(used + out, Align(cfg, cfg.pdStart), cfg.pdEnd, cfg.Step());
      return if free.Some? then Success(Block(free.value, cfg.pdBits)) else Failure(PoolExhausted);
    }

    method DropExpired(now: int)
      modifies this
      ensures Abstract() == Prune(old(Abstract()), now)
    {
      leases := map k | k in leases && now < leases[k].expires :: leases[k];
      declined := map a | a in declined && declined[a] > now :: declined[a];
      declinedBlocks := map b | b in declinedBlocks && declinedBlocks[b] > now :: declinedBlocks[b];
    }

    method AllocateLease(req: Request) returns (r: Result<Lease, Error>)
      requires cfg.Usable() && Allocate(cfg, Abstract(), req) != Failure(Endless)
      ensures r == Allocate(cfg, Abstract(), req)
    {
      if req.key.kind.Pd? {
        var b := ChooseBlock(req.prefix, req.now);
        return if b.Failure? then Failure(b.error) else Success(Lease([], [b.value], req.now + cfg.duration));
      }
      var a := ChooseAddress(req.address, req.now);
      return if a.Failure? then Failure(a.error) else Success(Lease([a.value], [], req.now + cfg.duration));
    }

    /** `acquire` after the expired entries have been dropped. */
    method ServeLease(req: Request) returns (r: Result<Lease, Error>)
      requires cfg.Usable() && Serve(cfg, Abstract(), req).result != Failure(Endless)
      modifies this
      ensures Outcome(Abstract(), r) == Serve(cfg, old(Abstract()), req)
    {
      if req.key in leases {
        var renewed := leases[req.key].(expires := req.now + cfg.duration);
        leases := leases[req.key := renewed];
        return Success(renewed);
      }
      r := AllocateLease(req);
      if r.Success? { leases := leases[req.key := r.value]; }
    }

    method AcquireLease(req: Request) returns (r: Result<Lease, Error>)
      requires Valid() && Acquire(cfg, Abstract(), req).result != Failure(Endless)
      modifies this
      ensures Valid() && Outcome(Abstract(), r) == Acquire(cfg, old(Abstract()), req)
    {
      AcquireSafe(cfg, Abstract(), req);
      DropExpired(req.now);
      r := ServeLease(req);
    }

    method ConfirmLease(key: Key, now: int) returns (r: Result<Lease, Error>)
      requires Valid()
      modifies this
      ensures Valid() && Outcome(Abstract(), r) == Confirm(cfg, old(Abstract()), key, now)
    {
      ConfirmSafe(cfg, Abstract(), key, now);
      if key !in leases { return Failure(NoLease); }
      var renewed := leases[key].(expires := now + cfg.duration);
      leases := leases[key := renewed];
      r := Success(renewed);
      assert Abstract() == Confirm(cfg, old(Abstract()), key, now).state;
    }

    method ReleaseLease(key: Key)
      requires Valid()
      modifies this
      ensures Valid() && Abstract() == Release(old(Abstract()), key)
    {
      ReleaseSafe(cfg, Abstract(), key);
      leases := leases - {key};
    }

    /** Removes the lease and puts its resources on probation until `clock` plus the lease duration. */
    method DeclineLease(key: Key, clock: int) returns (found: bool)
      requires Valid()
      modifies this
      ensures Valid() && found == (key in old(leases)) && Abstract() == Decline(cfg, old(Abstract()), key, clock)
    {
      if key !in leases { return false; }
      DeclineSafe(cfg, Abstract(), key, clock);
      var lease, until := leases[key], clock + cfg.duration;
      leases := leases - {key};
      MarkAddresses(lease.addresses, until);
      MarkBlocks(lease.prefixes, until);
      return true;
    }

    method MarkAddresses(items: seq<u128>, until: int)
      modifies this`declined
      ensures declined == MarkAll(old(declined), items, until)
    {
      for i := 0 to |items|
        invariant declined == MarkAll(old(declined), items[..i], until)
      {
        assert items[..i + 1][..i] == items[..i];
        declined := declined[items[i] := until];
      }
      assert items[..|items|] == items;
    }

    method MarkBlocks(items: seq<Block>, until: int)
      modifies this`declinedBlocks
      ensures declinedBlocks == MarkAll(old(declinedBlocks), items, until)
    {
      for i := 0 to |items|
        invariant declinedBlocks == MarkAll(old(declinedBlocks), items[..i], until)
      {
        assert items[..i + 1][..i] == items[..i];
        declinedBlocks := declinedBlocks[items[i] := until];
      }
      assert items[..|items|] == items;
    }
  }
}
