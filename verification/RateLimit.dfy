/** The rate limit over whole runs of the gate, the exactness of the retry hints, and the lockout. */
module RateLimit {
  import opened Wrappers
  import opened Defense
  import opened Auth
  import opened PerimeterRuns
  import opened Interleavings

  /** Requests from `source` that got past the perimeter. */
  function Admissions(gate: Gate, table: Table, events: seq<Event>, source: IpAddr): nat
    requires gate.Valid()
    decreases |events|
  {
    if events == [] then 0
    else
      AdmissionOf(VerdictFor(gate, table, events[0], source))
      + Admissions(gate, Apply(gate, table, events[0]), events[1..], source)
  }

  function AdmissionOf(verdict: Option<Verdict>): nat {
    if verdict.Some? && Admitted(verdict.value) then 1 else 0
  }

  lemma RefillComposes(cfg: Config, state: ClientState, at: Instant, later: Instant)
    requires state.lastSeen <= at <= later
    ensures Refilled(cfg, state, later)
         == Min(Refilled(cfg, state, at) + cfg.rate * (later - at), cfg.Capacity())
  {
    MulSplit(cfg.rate, at - state.lastSeen, later - at);
    assert cfg.rate * (later - at) >= 0;
  }

  /** An event that admits nothing from `source` leaves its future tokens exactly as they were. */
  lemma RefusalKeepsPotential(gate: Gate, entry: Option<ClientState>, event: Event, source: IpAddr, later: Instant)
    requires gate.Valid() && EntryInv(gate.cfg, entry, event.at) && event.at <= later
    requires event.Prune? ==> REQUEST <= event.idle
    requires AdmissionOf(EntryVerdict(gate, entry, event, source)) == 0
    ensures Potential(gate.cfg, EntryAfter(gate, entry, event, source), later) == Potential(gate.cfg, entry, later)
  {
    if event.Prune? {
      if entry.Some? && !Keeps(entry.value, event.at, event.idle) {
        IdleIsFull(gate.cfg, entry.value, event.at);
      }
    } else if event.source == source {
      var state := EntryOr(gate.cfg, entry, event.at);
      RefillComposes(gate.cfg, state, event.at, later);
      var after := CheckEntry(gate.cfg, entry, event.at).0;
      if !Locked(state, event.at) {
        RefillComposes(gate.cfg, after, event.at, later);
      }
    }
  }

  function EntryAdmissions(gate: Gate, entry: Option<ClientState>, events: seq<Event>, source: IpAddr): nat
    requires gate.Valid()
    decreases |events|
  {
    if events == [] then 0
    else
      AdmissionOf(EntryVerdict(gate, entry, events[0], source))
      + EntryAdmissions(gate, EntryAfter(gate, entry, events[0], source), events[1..], source)
  }

  lemma {:induction false} AdmissionsProject(gate: Gate, table: Table, events: seq<Event>, source: IpAddr)
    requires gate.Valid() && Spares(events, source)
    ensures Admissions(gate, table, events, source) == EntryAdmissions(gate, Lookup(table, source), events, source)
    decreases |events|
  {
    if events != [] {
      assert events[0] in events && forall e | e in events[1..] :: e in events;
      Projects(gate, table, events[0], source);
      AdmissionsProject(gate, Apply(gate, table, events[0]), events[1..], source);
    }
  }

  // ------------------------------------------------ the gate among the interleavings

  /** The critical sections of one event: a request is checked, and counted if its credential was compared. */
  function SectionsOf(gate: Gate, table: Table, event: Event): seq<Section>
    requires gate.Valid()
  {
    match event
    case Prune(at, idle) => [Pruned(at, idle)]
    case Request(source, at, supplied, victim) =>
      [Checked(source, at, victim)]
      + match GateTable(gate, table, source, at, supplied, victim).1
        case Unauthorized(_) => [Failed(source, at)]
        case Authorized => [Succeeded(source)]
        case Throttled(_) => []
        case Unprotected => []
  }

  function Flatten(gate: Gate, table: Table, events: seq<Event>): seq<Section>
    requires gate.Valid()
    decreases |events|
  {
    if events == [] then []
    else SectionsOf(gate, table, events[0]) + Flatten(gate, Apply(gate, table, events[0]), events[1..])
  }

  lemma {:induction false} Append(cfg: Config, table: Table, a: seq<Section>, b: seq<Section>, source: IpAddr,
                                  clock: Instant)
    requires cfg.Valid()
    ensures PerformAll(cfg, table, a + b) == PerformAll(cfg, PerformAll(cfg, table, a), b)
    ensures Allowed(cfg, table, a + b, source)
         == Allowed(cfg, table, a, source) + Allowed(cfg, PerformAll(cfg, table, a), b, source)
    ensures EndClock(clock, a + b) == EndClock(EndClock(clock, a), b)
    ensures Backward(clock, a + b) == Backward(clock, a) + Backward(EndClock(clock, a), b)
    decreases |a|
  {
    if a == [] {
      assert a + b == b;
    } else {
      assert (a + b)[0] == a[0] && (a + b)[1..] == a[1..] + b;
      Append(cfg, Perform(cfg, table, a[0]), a[1..], b, source, ClockAfter(clock, a[0]));
    }
  }

  lemma TwoSections(cfg: Config, table: Table, a: Section, b: Section, source: IpAddr, clock: Instant)
    requires cfg.Valid()
    ensures PerformAll(cfg, table, [a] + [b]) == Perform(cfg, Perform(cfg, table, a), b)
    ensures Allowed(cfg, table, [a] + [b], source)
         == AllowedBy(cfg, table, a, source) + AllowedBy(cfg, Perform(cfg, table, a), b, source)
    ensures EndClock(clock, [a] + [b]) == ClockAfter(ClockAfter(clock, a), b)
    ensures Backward(clock, [a] + [b])
         == Since(clock, ClockAfter(clock, a)) + Since(ClockAfter(clock, a), ClockAfter(ClockAfter(clock, a), b))
  {
    Append(cfg, table, [a], [b], source, clock);
    OneSection(cfg, table, a, source, clock);
    OneSection(cfg, Perform(cfg, table, a), b, source, ClockAfter(clock, a));
  }

  lemma OneSection(cfg: Config, table: Table, a: Section, source: IpAddr, clock: Instant)
    requires cfg.Valid()
    ensures PerformAll(cfg, table, [a]) == Perform(cfg, table, a)
    ensures Allowed(cfg, table, [a], source) == AllowedBy(cfg, table, a, source)
    ensures EndClock(clock, [a]) == ClockAfter(clock, a)
    ensures Backward(clock, [a]) == Since(clock, ClockAfter(clock, a))
  {
    assert [a][1..] == [];
  }

  lemma RequestSections(gate: Gate, table: Table, event: Event, source: IpAddr, clock: Instant)
    requires gate.Valid()
    ensures var sections := SectionsOf(gate, table, event);
            && PerformAll(gate.cfg, table, sections) == Apply(gate, table, event)
            && Allowed(gate.cfg, table, sections, source) == AdmissionOf(VerdictFor(gate, table, event, source))
            && EndClock(clock, sections) == event.at
            && Backward(clock, sections) == Since(clock, event.at)
  {
    var cfg := gate.cfg;
    match event
    case Prune(at, idle) => OneSection(cfg, table, Pruned(at, idle), source, clock);
    case Request(s, at, supplied, victim) =>
      var check := Checked(s, at, victim);
      GateComposes(gate, table, s, at, supplied, victim);
      match GateTable(gate, table, s, at, supplied, victim).1 {
        case Unauthorized(_) => TwoSections(cfg, table, check, Failed(s, at), source, clock);
        case Authorized => TwoSections(cfg, table, check, Succeeded(s), source, clock);
        case Throttled(_) => OneSection(cfg, table, check, source, clock);
        case Unprotected => OneSection(cfg, table, check, source, clock);
      }
  }

  /** Total backward movement of the instants of a run. */
  function Setback(clock: Instant, events: seq<Event>): nat
    decreases |events|
  {
    if events == [] then 0 else Since(clock, events[0].at) + Setback(events[0].at, events[1..])
  }

  lemma {:induction false} FlattenPerforms(gate: Gate, table: Table, events: seq<Event>, source: IpAddr)
    requires gate.Valid()
    ensures PerformAll(gate.cfg, table, Flatten(gate, table, events)) == Run(gate, table, events)
    ensures Allowed(gate.cfg, table, Flatten(gate, table, events), source) == Admissions(gate, table, events, source)
    decreases |events|
  {
    if events != [] {
      var event, rest, next := events[0], events[1..], Apply(gate, table, events[0]);
      RequestSections(gate, table, event, source, event.at);
      FlattenPerforms(gate, next, rest, source);
      Append(gate.cfg, table, SectionsOf(gate, table, event), Flatten(gate, next, rest), source, event.at);
    }
  }

  lemma {:induction false} FlattenTicks(gate: Gate, table: Table, events: seq<Event>, source: IpAddr, clock: Instant)
    requires gate.Valid()
    ensures EndClock(clock, Flatten(gate, table, events)) == EndOf(events, clock)
    ensures Backward(clock, Flatten(gate, table, events)) == Setback(clock, events)
    decreases |events|
  {
    if events != [] {
      var event, rest, next := events[0], events[1..], Apply(gate, table, events[0]);
      RequestSections(gate, table, event, source, clock);
      FlattenTicks(gate, next, rest, source, event.at);
      Append(gate.cfg, table, SectionsOf(gate, table, event), Flatten(gate, next, rest), source, clock);
      assert EndOf(rest, event.at) == EndOf(events, clock);
    }
  }

  /** Every run of the gate, ordered or not, is one of the interleavings of its critical sections. */
  lemma GateRunInterleaves(gate: Gate, table: Table, events: seq<Event>, source: IpAddr, clock: Instant)
    requires gate.Valid()
    ensures var sections := Flatten(gate, table, events);
            && PerformAll(gate.cfg, table, sections) == Run(gate, table, events)
            && Allowed(gate.cfg, table, sections, source) == Admissions(gate, table, events, source)
            && EndClock(clock, sections) == EndOf(events, clock)
            && Backward(clock, sections) == Setback(clock, events)
  {
    FlattenPerforms(gate, table, events, source);
    FlattenTicks(gate, table, events, source, clock);
  }

  lemma {:induction false} FlattenSpares(gate: Gate, table: Table, events: seq<Event>, source: IpAddr)
    requires gate.Valid() && Spares(events, source) && PrunesAfter(events, REQUEST)
    ensures NeverEvicts(Flatten(gate, table, events), source)
    ensures NeverPrunesEarly(Flatten(gate, table, events), REQUEST)
    decreases |events|
  {
    if events != [] {
      var rest, next := events[1..], Apply(gate, table, events[0]);
      assert events[0] in events && forall e | e in rest :: e in events;
      FlattenSpares(gate, next, rest, source);
      assert forall s | s in SectionsOf(gate, table, events[0]) ::
               && (s.Checked? ==> s.victim != Some(source)) && (s.Pruned? ==> REQUEST <= s.idle);
    }
  }

  /**
   The rate limit: from any table on, in any window of events in which the address is not evicted and
   no prune forgets entries younger than a minute, the admitted requests never exceed one full bucket
   plus what the window's length, and every step its instants take back, refills.
   */
  lemma RateBoundAnyOrder(gate: Gate, table: Table, window: seq<Event>, source: IpAddr)
    requires gate.Valid() && window != [] && Spares(window, source) && PrunesAfter(window, REQUEST)
    ensures var start := window[0].at;
            Admissions(gate, table, window, source) * REQUEST
            <= gate.cfg.Capacity() + gate.cfg.rate * (EndOf(window, start) - start + Setback(start, window))
  {
    var start := window[0].at;
    GateRunInterleaves(gate, table, window, source, start);
    FlattenSpares(gate, table, window, source);
    RateBoundInterleaved(gate.cfg, table, Flatten(gate, table, window), source, start);
  }

  lemma {:induction false} OrderedNeverSetsBack(events: seq<Event>, from: Instant, to: Instant)
    requires Ordered(events, from, to)
    ensures Setback(from, events) == 0
    decreases |events|
  {
    if events != [] {
      OrderedNeverSetsBack(events[1..], events[0].at, to);
    }
  }

  /** With ordered instants, the bound is one full bucket plus the refill of the window's length. */
  lemma RateBound(gate: Gate, table: Table, window: seq<Event>, source: IpAddr)
    requires gate.Valid() && window != [] && Legal(gate, table, window, window[0].at)
    requires Spares(window, source) && PrunesAfter(window, REQUEST)
    ensures var start := window[0].at;
            Admissions(gate, table, window, source) * REQUEST
            <= gate.cfg.Capacity() + gate.cfg.rate * (EndOf(window, start) - start)
  {
    var start := window[0].at;
    RateBoundAnyOrder(gate, table, window, source);
    LegalIsOrdered(gate, table, window, start, EndOf(window, start));
    OrderedNeverSetsBack(window, start, EndOf(window, start));
  }

  /** In the operator's terms: in so many minutes, at most `rate` requests for each of them and one bucket more. */
  lemma RatePerMinute(gate: Gate, table: Table, window: seq<Event>, source: IpAddr, minutes: nat)
    requires gate.Valid() && window != [] && Legal(gate, table, window, window[0].at)
    requires Spares(window, source) && PrunesAfter(window, REQUEST)
    requires EndOf(window, 0) <= window[0].at + minutes * 60_000_000_000
    ensures Admissions(gate, table, window, source) <= gate.cfg.rate * (minutes + 1)
  {
    RateBound(gate, table, window, source);
    LegalIsOrdered(gate, table, window, window[0].at, EndOf(window, 0));
    WholeMinutes(gate.cfg.rate, EndOf(window, 0) - window[0].at, minutes, Admissions(gate, table, window, source));
  }

  lemma WholeMinutes(rate: nat, length: nat, minutes: nat, admitted: nat)
    requires admitted * REQUEST <= rate * REQUEST + rate * length && length <= minutes * REQUEST
    ensures admitted <= rate * (minutes + 1)
  {
    MulMono(rate, length, minutes * REQUEST);
    MulSplit(rate, minutes, 1);
    assert rate * (minutes * REQUEST) == (rate * minutes) * REQUEST;
  }

  // ------------------------------------------------ the retry hints

  lemma {:induction false} RefusedRunKeepsPotential(gate: Gate, entry: Option<ClientState>, events: seq<Event>,
                                                    source: IpAddr, from: Instant, later: Instant)
    requires gate.Valid() && EntryInv(gate.cfg, entry, from) && Unlocked(entry)
    requires Ordered(events, from, later) && PrunesAfter(events, REQUEST) && EndsBy(events, later)
    requires EntryAdmissions(gate, entry, events, source) == 0
    ensures var after := EntryRun(gate, entry, events, source);
            Unlocked(after) && Potential(gate.cfg, after, later) == Potential(gate.cfg, entry, later)
    decreases |events|
  {
    if events != [] {
      var event, rest := events[0], events[1..];
      assert event in events && forall e | e in rest :: e in events;
      RefusalKeepsPotential(gate, entry, event, source, later);
      EntryStepInv(gate, entry, event, source);
      RefusedRunKeepsPotential(gate, EntryAfter(gate, entry, event, source), rest, source, event.at, later);
    }
  }

  predicate Unlocked(entry: Option<ClientState>) {
    entry.Some? ==> entry.value.lockedUntil.None?
  }

  lemma HintBounds(cfg: Config, missing: nat)
    requires cfg.Valid() && 1 <= missing
    ensures var r := RetryHint(cfg, missing);
            1 <= r && cfg.rate * ((r - 1) * SECOND) < missing <= cfg.rate * (r * SECOND)
  {
    var per := cfg.rate * SECOND;
    var r := (missing + per - 1) / per;
    assert per >= 1;
    assert per * r <= missing + per - 1 < per * r + per;
    assert r >= 1;
    MulSplit(per, r, -1);
    assert per * r == cfg.rate * (r * SECOND);
    assert per * (r - 1) == cfg.rate * ((r - 1) * SECOND);
  }

  /** After a refusal for lack of tokens, the hint brackets the instant at which a request fits again. */
  lemma RefusalHint(cfg: Config, entry: Option<ClientState>, now: Instant, later: Instant)
    requires cfg.Valid() && EntryInv(cfg, entry, now) && now <= later
    requires CheckEntry(cfg, entry, now).1.RateLimited?
    ensures var (after, decision) := CheckEntry(cfg, entry, now);
            var hint := decision.retryAfterSeconds;
            && after.lockedUntil.None? && EntryInv(cfg, Some(after), now) && 1 <= hint
            && (now + hint * SECOND <= later ==> REQUEST <= Potential(cfg, Some(after), later))
            && (later <= now + (hint - 1) * SECOND ==> Potential(cfg, Some(after), later) < REQUEST)
  {
    var (after, decision) := CheckEntry(cfg, entry, now);
    var hint := decision.retryAfterSeconds;
    HintBounds(cfg, REQUEST - after.tokens);
    if now + hint * SECOND <= later {
      MulMono(cfg.rate, hint * SECOND, later - now);
      MulMono(REQUEST, 1, cfg.rate);
    }
    if later <= now + (hint - 1) * SECOND {
      MulMono(cfg.rate, later - now, (hint - 1) * SECOND);
    }
  }

  lemma UnlockedCheck(cfg: Config, entry: Option<ClientState>, at: Instant)
    requires cfg.Valid() && Unlocked(entry)
    ensures var decision := CheckEntry(cfg, entry, at).1;
            if REQUEST <= Potential(cfg, entry, at) then decision == Allow else decision.RateLimited?
  {
  }

  /**
   The hint of a rate-limited request is exact. Whatever refused requests, other traffic and
   prunes come in between, a check `hint` seconds later is allowed, and every check up to
   `hint - 1` seconds later is refused again.
   */
  lemma RetryHintExact(gate: Gate, table: Table, now: Instant, source: IpAddr, between: seq<Event>, later: Instant)
    requires gate.Valid() && TableInv(gate.cfg, table, now)
    requires CheckTable(gate.cfg, table, source, now, None).1.RateLimited?
    requires var refused := CheckTable(gate.cfg, table, source, now, None).0;
             Legal(gate, refused, between, now) && Admissions(gate, refused, between, source) == 0
    requires EndOf(between, now) <= later && Spares(between, source) && PrunesAfter(between, REQUEST)
    ensures var (refused, decision) := CheckTable(gate.cfg, table, source, now, None);
            var hint := decision.retryAfterSeconds;
            var retry := CheckTable(gate.cfg, Run(gate, refused, between), source, later, None).1;
            && (now + hint * SECOND <= later ==> retry == Allow)
            && (later <= now + (hint - 1) * SECOND ==> retry.RateLimited?)
  {
    var cfg, refused := gate.cfg, CheckTable(gate.cfg, table, source, now, None).0;
    var entry := Some(refused[source]);
    LegalIsOrdered(gate, refused, between, now, later);
    RefusalHint(cfg, Lookup(table, source), now, later);
    AdmissionsProject(gate, refused, between, source);
    RunProjects(gate, refused, between, source);
    RefusedRunKeepsPotential(gate, entry, between, source, now, later);
    UnlockedCheck(cfg, EntryRun(gate, entry, between, source), later);
  }

  // ------------------------------------------------ the lockout

  /**
   While a lockout lasts, every request of its address is refused before any credential is
   compared, whatever it supplies, and no such refusal moves the expiry.
   */
  lemma {:induction false} LockoutHolds(gate: Gate, table: Table, events: seq<Event>, source: IpAddr, from: Instant)
    requires gate.Valid() && Legal(gate, table, events, from) && Spares(events, source)
    requires source in table && table[source].lockedUntil.Some?
    requires forall e | e in events :: e.at < table[source].lockedUntil.value
    ensures Lookup(Run(gate, table, events), source) == Some(table[source])
    ensures AllLockedOut(gate, table, events, source)
    decreases |events|
  {
    if events != [] {
      assert events[0] in events && forall e | e in events[1..] :: e in events;
      Projects(gate, table, events[0], source);
      LockoutHolds(gate, Apply(gate, table, events[0]), events[1..], source, events[0].at);
    }
  }

  predicate AllLockedOut(gate: Gate, table: Table, events: seq<Event>, source: IpAddr)
    requires gate.Valid()
    decreases |events|
  {
    events == [] || (
      && (SaysLockedOut(VerdictFor(gate, table, events[0], source)) || VerdictFor(gate, table, events[0], source).None?)
      && AllLockedOut(gate, Apply(gate, table, events[0]), events[1..], source))
  }

  /**
   The lockout hint counts whole seconds: it falls short of the wait by less than a second, and never
   exceeds it but for the least hint of one second. Waiting exactly the hint is enough if and only if
   at most a second, or a whole number of them, was left.
   */
  lemma LockoutHintExact(gate: Gate, state: ClientState, now: Instant)
    requires gate.Valid() && Locked(state, now)
    ensures var left := state.lockedUntil.value - now;
            var decision := CheckEntry(gate.cfg, Some(state), now).1;
            var hint := decision.retryAfterSeconds;
            && decision.LockedOut?
            && 1 <= hint && left < (hint + 1) * SECOND && (hint == 1 || hint * SECOND <= left)
            && (CheckEntry(gate.cfg, Some(state), now + hint * SECOND).1.LockedOut?
                <==> left > SECOND && left % SECOND != 0)
  {
    var left := state.lockedUntil.value - now;
    assert left == (left / SECOND) * SECOND + left % SECOND;
  }

  /**
   A run that meets the condition: one wrong guess at a threshold of one locks the address for 300 s;
   half a second later the hint is 299 s, and a client that waits exactly that is refused again.
   */
  lemma LockoutHintFallsShort(source: IpAddr, right: string, wrong: string)
    requires wrong != right
    ensures var gate := Gate(Config(60, 1, 300 * SECOND), Some(right));
            var guess := Request(source, 0, wrong, None);
            var early := Request(source, SECOND / 2, right, None);
            var waited := Request(source, SECOND / 2 + 299 * SECOND, right, None);
            && Legal(gate, map[], [guess, early, waited], 0)
            && VerdictFor(gate, map[], guess, source) == Some(Unauthorized(true))
            && VerdictFor(gate, Run(gate, map[], [guess]), early, source) == Some(Throttled(LockedOut(299)))
            && SaysLockedOut(VerdictFor(gate, Run(gate, map[], [guess, early]), waited, source))
  {
    var gate := Gate(Config(60, 1, 300 * SECOND), Some(right));
    var guess := Request(source, 0, wrong, None);
    var early := Request(source, SECOND / 2, right, None);
    var waited := Request(source, SECOND / 2 + 299 * SECOND, right, None);
    var locked := Apply(gate, map[], guess);
    assert locked[source] == ClientState(59 * REQUEST, 0, 1, Some(300 * SECOND));
    var still := Apply(gate, locked, early);
    assert still[source] == locked[source];
    assert [guess, early, waited][1..] == [early, waited] && [early, waited][1..] == [waited];
    assert [guess, early][1..] == [early] && [guess][1..] == [] && [early][1..] == [] && [waited][1..] == [];
    assert Legal(gate, still, [waited], SECOND / 2);
    assert Legal(gate, locked, [early, waited], 0);
    assert Run(gate, map[], [guess]) == locked;
    assert Run(gate, locked, [early]) == still;
  }

  /** The metric of locked sources counts exactly the addresses whose next check would say so. */
  lemma LockedSourcesExact(cfg: Config, table: Table, source: IpAddr, now: Instant)
    requires cfg.Valid()
    ensures source in LockedSet(table, now) <==> CheckTable(cfg, table, source, now, None).1.LockedOut?
  {
    assert Evict(table, None) == table;
  }
}
