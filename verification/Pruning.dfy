/** When forgetting idle addresses can be noticed, and when it cannot. */
module Pruning {
  import opened Wrappers
  import opened Defense
  import opened Auth
  import opened PerimeterRuns
  import opened Interleavings

  predicate EvictionFree(events: seq<Event>) {
    forall e | e in events :: e.Request? ==> e.victim == None
  }

  /** Nothing counted, or a lockout (by then expired) that resets the counter. */
  predicate Settled(state: ClientState) {
    state.failures == 0 || state.lockedUntil.Some?
  }

  /** Without a token nothing is ever compared, so nothing that was counted matters. */
  predicate CountsNothing(gate: Gate) {
    gate.expected.None?
  }

  /** A full bucket, and no failure that would still count at the next request. */
  predicate Forgettable(gate: Gate, state: ClientState, now: Instant) {
    && REQUEST <= Since(now, state.lastSeen)
    && !Locked(state, now)
    && (CountsNothing(gate) || Settled(state))
  }

  predicate Alike(gate: Gate, entry: Option<ClientState>, other: Option<ClientState>, now: Instant) {
    || entry == other
    || (entry.Some? && other.None? && Forgettable(gate, entry.value, now))
    || (entry.Some? && other.Some? && CountsNothing(gate)
        && entry.value.(failures := other.value.failures) == other.value)
  }

  ghost predicate AlikeTables(gate: Gate, table: Table, other: Table, now: Instant) {
    forall address: IpAddr :: Alike(gate, Lookup(table, address), Lookup(other, address), now)
  }

  lemma AlikeStep(gate: Gate, entry: Option<ClientState>, other: Option<ClientState>, event: Event,
                  source: IpAddr, now: Instant)
    requires gate.Valid() && Alike(gate, entry, other, now) && now <= event.at
    ensures EntryVerdict(gate, entry, event, source) == EntryVerdict(gate, other, event, source)
    ensures Alike(gate, EntryAfter(gate, entry, event, source), EntryAfter(gate, other, event, source), event.at)
  {
    if other.None? && entry != other && event.Request? && event.source == source {
      IdleIsFull(gate.cfg, entry.value, event.at);
    }
  }

  lemma {:induction false} AlikeRuns(gate: Gate, table: Table, other: Table, events: seq<Event>, now: Instant)
    requires gate.Valid() && AlikeTables(gate, table, other, now)
    requires Legal(gate, table, events, now) && EvictionFree(events)
    ensures Verdicts(gate, table, events) == Verdicts(gate, other, events)
    decreases |events|
  {
    if events != [] {
      var event := events[0];
      assert event in events && forall e | e in events[1..] :: e in events;
      var after, after' := Apply(gate, table, event), Apply(gate, other, event);
      forall address: IpAddr
        ensures Alike(gate, Lookup(after, address), Lookup(after', address), event.at)
        ensures VerdictFor(gate, table, event, address) == VerdictFor(gate, other, event, address)
      {
        Projects(gate, table, event, address);
        Projects(gate, other, event, address);
        AlikeStep(gate, Lookup(table, address), Lookup(other, address), event, address, now);
      }
      AlikeRuns(gate, after, after', events[1..], event.at);
    }
  }

  // ------------------------------------------------ a run that notices

  function Train(source: IpAddr, wrong: string, at: Instant, n: nat): seq<Event>
    decreases n
  {
    if n == 0 then []
    else [Request(source, at, wrong, None)] + Train(source, wrong, at + REQUEST, n - 1)
  }

  lemma SourceStays(gate: Gate, table: Table, event: Event)
    requires gate.Valid() && event.Request?
    ensures event.source in Apply(gate, table, event)
  {
  }

  lemma {:induction false} TrainIsEvictionFree(source: IpAddr, wrong: string, at: Instant, n: nat)
    ensures EvictionFree(Train(source, wrong, at, n))
    decreases n
  {
    if n != 0 {
      TrainIsEvictionFree(source, wrong, at + REQUEST, n - 1);
    }
  }

  lemma {:induction false} TrainIsLegal(gate: Gate, table: Table, source: IpAddr, wrong: string, at: Instant, n: nat,
                                        from: Instant)
    requires gate.Valid() && source in table && from <= at
    ensures Legal(gate, table, Train(source, wrong, at, n), from)
    decreases n
  {
    if n != 0 {
      var train := Train(source, wrong, at, n);
      var table' := Apply(gate, table, train[0]);
      SourceStays(gate, table, train[0]);
      TrainIsLegal(gate, table', source, wrong, at + REQUEST, n - 1, at);
      assert train[1..] == Train(source, wrong, at + REQUEST, n - 1);
      assert VictimOk(table, source, None);
    }
  }

  predicate ReadyToGuess(cfg: Config, entry: Option<ClientState>, failures: nat, at: Instant) {
    if entry.None? then failures == 0
    else
      && entry.value.lockedUntil.None?
      && entry.value.failures == failures
      && REQUEST <= Since(at, entry.value.lastSeen)
  }

  lemma GuessAtFullBucket(gate: Gate, entry: Option<ClientState>, failures: nat, source: IpAddr, wrong: string,
                          at: Instant)
    requires gate.Valid() && gate.expected.Some? && wrong != gate.expected.value
    requires ReadyToGuess(gate.cfg, entry, failures, at) && failures < gate.cfg.threshold
    ensures var guess := Request(source, at, wrong, None);
            var locks := failures + 1 == gate.cfg.threshold;
            && EntryVerdict(gate, entry, guess, source) == Some(Unauthorized(locks))
            && (!locks ==> ReadyToGuess(gate.cfg, EntryAfter(gate, entry, guess, source), failures + 1, at + REQUEST))
  {
    MulMono(REQUEST, 1, gate.cfg.rate);
    if entry.Some? {
      IdleIsFull(gate.cfg, entry.value, at);
    }
  }

  /** Two tables that count a different number of failures disagree on who is locked out first. */
  lemma {:induction false} TrainNotices(gate: Gate, table: Table, other: Table, source: IpAddr, wrong: string,
                                        at: Instant,
                                        more: nat, fewer: nat)
    requires gate.Valid() && gate.expected.Some? && wrong != gate.expected.value
    requires fewer < more < gate.cfg.threshold
    requires ReadyToGuess(gate.cfg, Lookup(table, source), more, at)
    requires ReadyToGuess(gate.cfg, Lookup(other, source), fewer, at)
    ensures var train := Train(source, wrong, at, gate.cfg.threshold - more);
            Verdicts(gate, table, train) != Verdicts(gate, other, train)
    decreases gate.cfg.threshold - more
  {
    var train := Train(source, wrong, at, gate.cfg.threshold - more);
    var guess := train[0];
    GuessAtFullBucket(gate, Lookup(table, source), more, source, wrong, at);
    GuessAtFullBucket(gate, Lookup(other, source), fewer, source, wrong, at);
    Projects(gate, table, guess, source);
    Projects(gate, other, guess, source);
    if more + 1 == gate.cfg.threshold {
      assert Verdicts(gate, table, train)[0] != Verdicts(gate, other, train)[0];
    } else {
      var table', other' := Apply(gate, table, guess), Apply(gate, other, guess);
      TrainNotices(gate, table', other', source, wrong, at + REQUEST, more + 1, fewer + 1);
      assert train[1..] == Train(source, wrong, at + REQUEST, gate.cfg.threshold - more - 1);
      assert Verdicts(gate, table, train)[1..] == Verdicts(gate, table', train[1..]);
      assert Verdicts(gate, other, train)[1..] == Verdicts(gate, other', train[1..]);
    }
  }

  /** The stored entries after a prune, one by one: locked, or seen less than `idle` ago. */
  lemma PruneKeepsExactly(table: Table, now: Instant, idle: nat, a: IpAddr)
    ensures a in PruneTable(table, now, idle)
       <==> a in table && ((table[a].lockedUntil.Some? && now < table[a].lockedUntil.value)
                           || (1 <= idle && now < table[a].lastSeen + idle))
    ensures a in PruneTable(table, now, idle) ==> PruneTable(table, now, idle)[a] == table[a]
  {
  }

  predicate Dropped(table: Table, address: IpAddr, now: Instant, idle: nat) {
    address in table && !Keeps(table[address], now, idle)
  }

  ghost predicate Unobservable(gate: Gate, table: Table, now: Instant, idle: nat)
    requires gate.Valid()
  {
    forall events | Legal(gate, table, events, now) && EvictionFree(events) ::
      Verdicts(gate, table, events) == Verdicts(gate, PruneTable(table, now, idle), events)
  }

  ghost predicate DropsOnlySettled(table: Table, now: Instant, idle: nat) {
    forall address | Dropped(table, address, now, idle) :: Settled(table[address])
  }

  lemma SettledDropIsUnobservable(gate: Gate, table: Table, now: Instant, idle: nat)
    requires gate.Valid() && REQUEST <= idle && (CountsNothing(gate) || DropsOnlySettled(table, now, idle))
    ensures Unobservable(gate, table, now, idle)
  {
    var pruned := PruneTable(table, now, idle);
    forall address: IpAddr ensures Alike(gate, Lookup(table, address), Lookup(pruned, address), now) {
      assert !CountsNothing(gate) && Dropped(table, address, now, idle) ==> Settled(table[address]);
    }
    forall events | Legal(gate, table, events, now) && EvictionFree(events)
      ensures Verdicts(gate, table, events) == Verdicts(gate, pruned, events)
    {
      AlikeRuns(gate, table, pruned, events, now);
    }
  }

  lemma HalfCountedDropIsObservable(gate: Gate, table: Table, now: Instant, idle: nat, source: IpAddr)
    requires gate.Valid() && gate.expected.Some? && TableInv(gate.cfg, table, now) && REQUEST <= idle
    requires Dropped(table, source, now, idle) && !Settled(table[source])
    ensures !Unobservable(gate, table, now, idle)
  {
    var wrong := gate.expected.value + "x";
    var failures := table[source].failures;
    assert |wrong| != |gate.expected.value|;
    TrainIsLegal(gate, table, source, wrong, now, gate.cfg.threshold - failures, now);
    TrainIsEvictionFree(source, wrong, now, gate.cfg.threshold - failures);
    TrainNotices(gate, table, PruneTable(table, now, idle), source, wrong, now, failures, 0);
  }

  /**
   A prune of at least a minute's idleness changes no later verdict if and only if no token is set or
   every entry it drops is settled. What it can give away is exactly a half-counted address.
   */
  lemma PruneUnobservableIff(gate: Gate, table: Table, now: Instant, idle: nat)
    requires gate.Valid() && TableInv(gate.cfg, table, now) && REQUEST <= idle
    ensures Unobservable(gate, table, now, idle) <==> gate.expected.None? || DropsOnlySettled(table, now, idle)
  {
    if gate.expected.None? || DropsOnlySettled(table, now, idle) {
      SettledDropIsUnobservable(gate, table, now, idle);
    } else {
      var source :| Dropped(table, source, now, idle) && !Settled(table[source]);
      HalfCountedDropIsObservable(gate, table, now, idle, source);
    }
  }

  /**
   A run that gives guesses away: one wrong guess of three, and a quarter of an hour later the watchdog
   prunes entries idle for as long. The address is half-counted, and its later verdicts change.
   */
  lemma PruneForgetsAGuess(source: IpAddr, right: string, wrong: string)
    requires wrong != right
    ensures var gate := Gate(Config(60, 3, 300 * SECOND), Some(right));
            var guess := Request(source, 0, wrong, None);
            && Legal(gate, map[], [guess], 0)
            && VerdictFor(gate, map[], guess, source) == Some(Unauthorized(false))
            && !Unobservable(gate, Run(gate, map[], [guess]), 900 * SECOND, 900 * SECOND)
  {
    var gate := Gate(Config(60, 3, 300 * SECOND), Some(right));
    var guess := Request(source, 0, wrong, None);
    var counted := Apply(gate, map[], guess);
    assert counted[source] == ClientState(59 * REQUEST, 0, 1, None);
    assert counted.Keys == {source};
    assert [guess][1..] == [] && Run(gate, map[], [guess]) == counted;
    assert TableInv(gate.cfg, counted, 900 * SECOND);
    HalfCountedDropIsObservable(gate, counted, 900 * SECOND, 900 * SECOND, source);
  }
}
