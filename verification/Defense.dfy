/**
 The control plane's perimeter: one token bucket, failure counter and timed
 lockout per client address, in one bounded table.

 The model is the exact-arithmetic reading of the floating-point code. Instants
 and durations are nanoseconds, and a token is scaled by 60 * 10^9, so that one
 request costs `REQUEST` and a bucket refills by `rate` per nanosecond.
 */
module Defense {
  import opened Wrappers

  const MAX_TRACKED_CLIENTS: nat := 20_000
  const SECOND: nat := 1_000_000_000
  const REQUEST: nat := 60 * SECOND

  type Instant = nat
  datatype IpAddr = V4(bits: nat) | V6(bits: nat)

  datatype Decision =
    | Allow
    | RateLimited(retryAfterSeconds: nat)
    | LockedOut(retryAfterSeconds: nat)

  datatype ClientState =
    ClientState(tokens: nat, lastSeen: Instant, failures: nat, lockedUntil: Option<Instant>)

  type Table = map<IpAddr, ClientState>

  datatype Config = Config(rate: nat, threshold: nat, lockout: nat) {
    function Capacity(): nat {
      rate * REQUEST
    }

    predicate Valid() {
      1 <= rate && 1 <= threshold <= U32_MAX && SECOND <= lockout
    }
  }

  // ------------------------------------------------------------ one entry

  function Fresh(cfg: Config, now: Instant): ClientState {
    ClientState(cfg.Capacity(), now, 0, None)
  }

  function EntryOr(cfg: Config, entry: Option<ClientState>, now: Instant): ClientState {
    if entry.Some? then entry.value else Fresh(cfg, now)
  }

  /** `Instant::saturating_duration_since`. */
  function Since(now: Instant, earlier: Instant): nat {
    if earlier <= now then now - earlier else 0
  }

  function Refilled(cfg: Config, state: ClientState, now: Instant): nat {
    Min(state.tokens + cfg.rate * Since(now, state.lastSeen), cfg.Capacity())
  }

  predicate Locked(state: ClientState, now: Instant) {
    state.lockedUntil.Some? && state.lockedUntil.value > now
  }

  function SecondsUntil(until: Instant, now: Instant): nat {
    Max(Since(until, now) / SECOND, 1)
  }

  /** Whole seconds until `missing` scaled tokens have been refilled, at least one. */
  function RetryHint(cfg: Config, missing: nat): nat
    requires cfg.Valid()
  {
    var perSecond := cfg.rate * SECOND;
    Max((missing + perSecond - 1) / perSecond, 1)
  }

  function CheckEntry(cfg: Config, entry: Option<ClientState>, now: Instant): (ClientState, Decision)
    requires cfg.Valid()
  {
    var state := EntryOr(cfg, entry, now);
    if Locked(state, now) then
      (state, LockedOut(SecondsUntil(state.lockedUntil.value, now)))
    else
      var failures := if state.lockedUntil.Some? then 0 else state.failures;
      var tokens := Refilled(cfg, state, now);
      if tokens < REQUEST then
        (ClientState(tokens, now, failures, None), RateLimited(RetryHint(cfg, REQUEST - tokens)))
      else
        (ClientState(tokens - REQUEST, now, failures, None), Allow)
  }

  function FailureEntry(cfg: Config, entry: Option<ClientState>, now: Instant): (ClientState, bool)
    requires cfg.Valid()
  {
    var state := EntryOr(cfg, entry, now);
    var failures := SatAdd32(state.failures, 1);
    var locks := failures >= cfg.threshold && state.lockedUntil.None?;
    (state.(failures := failures,
            lastSeen := now,
            lockedUntil := if locks then Some(now + cfg.lockout) else state.lockedUntil),
     locks)
  }

  function SuccessEntry(state: ClientState): ClientState {
    state.(failures := 0, lockedUntil := None)
  }

  predicate Keeps(state: ClientState, now: Instant, idle: nat) {
    Locked(state, now) || Since(now, state.lastSeen) < idle
  }

  /** What every stored entry satisfies: no overfull bucket, and no full counter without a lockout. */
  predicate EntryOk(cfg: Config, state: ClientState) {
    && state.tokens <= cfg.Capacity()
    && (state.lockedUntil.None? ==> state.failures < cfg.threshold)
  }

  // ------------------------------------------------------------ the table

  function Lookup(table: Table, address: IpAddr): Option<ClientState> {
    if address in table then Some(table[address]) else None
  }

  function Evict(table: Table, victim: Option<IpAddr>): Table {
    match victim
    case None => table
    case Some(v) => table - {v}
  }

  ghost predicate IsOldest(table: Table, address: IpAddr) {
    address in table && forall other | other in table :: table[address].lastSeen <= table[other].lastSeen
  }

  predicate NeedsRoom(table: Table, address: IpAddr) {
    |table| >= MAX_TRACKED_CLIENTS && address !in table
  }

  /** The entry evicted before `address` is admitted; ties between oldest entries are not ordered. */
  ghost predicate VictimOk(table: Table, address: IpAddr, victim: Option<IpAddr>) {
    if NeedsRoom(table, address) then victim.Some? && IsOldest(table, victim.value) else victim == None
  }

  function CheckTable(cfg: Config, table: Table, address: IpAddr, now: Instant, victim: Option<IpAddr>)
    : (Table, Decision)
    requires cfg.Valid()
  {
    var room := Evict(table, victim);
    var (state, decision) := CheckEntry(cfg, Lookup(room, address), now);
    (room[address := state], decision)
  }

  function FailureTable(cfg: Config, table: Table, address: IpAddr, now: Instant): (Table, bool)
    requires cfg.Valid()
  {
    var (state, locks) := FailureEntry(cfg, Lookup(table, address), now);
    (table[address := state], locks)
  }

  function SuccessTable(table: Table, address: IpAddr): Table {
    if address in table then table[address := SuccessEntry(table[address])] else table
  }

  function PruneTable(table: Table, now: Instant, idle: nat): Table {
    map address | address in table && Keeps(table[address], now, idle) :: table[address]
  }

  function LockedSet(table: Table, now: Instant): set<IpAddr> {
    set address | address in table && Locked(table[address], now)
  }

  ghost predicate TableOk(cfg: Config, table: Table) {
    forall address | address in table :: EntryOk(cfg, table[address])
  }

  /** The shared state; each method is one critical section of its mutex. */
  class Perimeter {
    const cfg: Config
    var clients: Table

    ghost predicate Valid()
      reads this
    {
      cfg.Valid() && TableOk(cfg, clients)
    }

    constructor (rateLimitPerMinute: nat, lockoutThreshold: nat, lockoutSeconds: nat)
      requires rateLimitPerMinute <= U32_MAX && lockoutThreshold <= U32_MAX
      ensures Valid() && clients == map[]
      ensures cfg == Config(Max(rateLimitPerMinute, 1), Max(lockoutThreshold, 1), Max(lockoutSeconds, 1) * SECOND)
    {
      cfg := Config(Max(rateLimitPerMinute, 1), Max(lockoutThreshold, 1), Max(lockoutSeconds, 1) * SECOND);
      clients := map[];
    }

    method EvictOldest() returns (victim: Option<IpAddr>)
      modifies this
      ensures old(clients) == map[] ==> victim == None
      ensures old(clients) != map[] ==> victim.Some? && IsOldest(old(clients), victim.value)
      ensures clients == Evict(old(clients), victim)
    {
      victim := None;
      var pending := clients.Keys;
      while pending != {}
        invariant pending <= clients.Keys
        invariant victim == None ==> pending == clients.Keys
        invariant victim.Some? ==> victim.value in clients
        invariant victim.Some? ==> forall other | other in clients && other !in pending ::
                                     clients[victim.value].lastSeen <= clients[other].lastSeen
        invariant clients == old(clients)
        decreases pending
      {
        var address :| address in pending;
        pending := pending - {address};
        if victim == None || clients[address].lastSeen < clients[victim.value].lastSeen {
          victim := Some(address);
        }
      }
      if victim.Some? {
        clients := clients - {victim.value};
      }
    }

    method Check(address: IpAddr, now: Instant) returns (decision: Decision, ghost victim: Option<IpAddr>)
      requires Valid()
      modifies this
      ensures Valid()
      ensures VictimOk(old(clients), address, victim)
      ensures (clients, decision) == CheckTable(cfg, old(clients), address, now, victim)
    {
      victim := None;
      if |clients| >= MAX_TRACKED_CLIENTS && address !in clients {
        victim := EvictOldest();
      }
      ghost var room := clients;
      var state := if address in clients then clients[address] else Fresh(cfg, now);
      if state.lockedUntil.Some? {
        if state.lockedUntil.value > now {
          clients := clients[address := state];
          return LockedOut(SecondsUntil(state.lockedUntil.value, now)), victim;
        }
        state := state.(lockedUntil := None, failures := 0);
      }
      state := state.(tokens := Refilled(cfg, state, now), lastSeen := now);
      if state.tokens < REQUEST {
        decision := RateLimited(RetryHint(cfg, REQUEST - state.tokens));
      } else {
        state := state.(tokens := state.tokens - REQUEST);
        decision := Allow;
      }
      clients := clients[address := state];
    }

    method RecordFailure(address: IpAddr, now: Instant) returns (locks: bool)
      requires Valid()
      modifies this
      ensures Valid()
      ensures (clients, locks) == FailureTable(cfg, old(clients), address, now)
    {
      var state := if address in clients then clients[address] else Fresh(cfg, now);
      state := state.(failures := SatAdd32(state.failures, 1), lastSeen := now);
      locks := false;
      if state.failures >= cfg.threshold && state.lockedUntil.None? {
        state := state.(lockedUntil := Some(now + cfg.lockout));
        locks := true;
      }
      clients := clients[address := state];
    }

    method RecordSuccess(address: IpAddr)
      requires Valid()
      modifies this
      ensures Valid()
      ensures clients == SuccessTable(old(clients), address)
    {
      if address in clients {
        clients := clients[address := clients[address].(failures := 0, lockedUntil := None)];
      }
    }

    method LockedSources(now: Instant) returns (count: nat)
      ensures count == |LockedSet(clients, now)|
    {
      count := 0;
      var pending := clients.Keys;
      ghost var counted: set<IpAddr> := {};
      while pending != {}
        invariant pending <= clients.Keys
        invariant counted == set a | a in clients && a !in pending && Locked(clients[a], now)
        invariant count == |counted|
        decreases pending
      {
        var address :| address in pending;
        pending := pending - {address};
        if Locked(clients[address], now) {
          counted := counted + {address};
          count := count + 1;
        }
      }
      assert counted == LockedSet(clients, now);
    }

    method Prune(now: Instant, idle: nat)
      requires Valid()
      modifies this
      ensures Valid()
      ensures clients == PruneTable(old(clients), now, idle)
    {
      var pending := clients.Keys;
      while pending != {}
        invariant pending <= clients.Keys <= old(clients).Keys
        invariant forall a | a in clients :: clients[a] == old(clients)[a]
        invariant forall a | a in old(clients) && a !in pending :: a in clients <==> Keeps(old(clients)[a], now, idle)
        invariant Valid()
        decreases pending
      {
        var address :| address in pending;
        pending := pending - {address};
        var state := clients[address];
        if !((state.lockedUntil.Some? && state.lockedUntil.value > now) || Since(now, state.lastSeen) < idle) {
          clients := clients - {address};
        }
      }
    }
  }
}
