/**
 What the perimeter guarantees over whole runs of the gate and of the watchdog's
 prune. Instants never decrease along a legal run, and each request is one atomic step.
 */
module PerimeterRuns {
  import opened Wrappers
  import opened Defense
  import opened Auth

  /** `victim` records which of the oldest entries the table dropped to make room, if any. */
  datatype Event =
    | Request(source: IpAddr, at: Instant, supplied: string, victim: Option<IpAddr>)
    | Prune(at: Instant, idle: nat)

  function Apply(gate: Gate, table: Table, event: Event): Table
    requires gate.Valid()
  {
    match event
    case Request(source, at, supplied, victim) => GateTable(gate, table, source, at, supplied, victim).0
    case Prune(at, idle) => PruneTable(table, at, idle)
  }

  function Run(gate: Gate, table: Table, events: seq<Event>): Table
    requires gate.Valid()
    decreases |events|
  {
    if events == [] then table else Run(gate, Apply(gate, table, events[0]), events[1..])
  }

  /** The verdict of a request from `source`; `None` for every other event. */
  function VerdictFor(gate: Gate, table: Table, event: Event, source: IpAddr): Option<Verdict>
    requires gate.Valid()
  {
    if event.Request? && event.source == source then
      Some(GateTable(gate, table, source, event.at, event.supplied, event.victim).1)
    else
      None
  }

  predicate SaysLockedOut(verdict: Option<Verdict>) {
    verdict.Some? && verdict.value.Throttled? && verdict.value.decision.LockedOut?
  }

  /** The verdict of an event, which only a request has. */
  function VerdictOf(gate: Gate, table: Table, event: Event): Option<Verdict>
    requires gate.Valid()
  {
    if event.Request? then VerdictFor(gate, table, event, event.source) else None
  }

  /** Everything the clients of a run get to see. */
  function Verdicts(gate: Gate, table: Table, events: seq<Event>): seq<Option<Verdict>>
    requires gate.Valid()
    decreases |events|
  {
    if events == [] then []
    else [VerdictOf(gate, table, events[0])] + Verdicts(gate, Apply(gate, table, events[0]), events[1..])
  }

  /** A run the code can produce: ordered instants, and evictions only of an oldest entry when room is needed. */
  ghost predicate Legal(gate: Gate, table: Table, events: seq<Event>, from: Instant)
    requires gate.Valid()
    decreases |events|
  {
    events == [] || (
      && from <= events[0].at
      && (events[0].Request? ==> VictimOk(table, events[0].source, events[0].victim))
      && Legal(gate, Apply(gate, table, events[0]), events[1..], events[0].at))
  }

  function EndOf(events: seq<Event>, from: Instant): Instant {
    if events == [] then from else events[|events| - 1].at
  }

  predicate Spares(events: seq<Event>, source: IpAddr) {
    forall e | e in events :: e.Request? ==> e.victim != Some(source)
  }

  predicate PrunesAfter(events: seq<Event>, idle: nat) {
    forall e | e in events :: e.Prune? ==> idle <= e.idle
  }

  predicate EndsBy(events: seq<Event>, to: Instant) {
    forall e | e in events :: e.at <= to
  }

  ghost predicate EntryInv(cfg: Config, entry: Option<ClientState>, now: Instant) {
    entry.Some? ==> EntryOk(cfg, entry.value) && entry.value.lastSeen <= now
  }

  ghost predicate TableInv(cfg: Config, table: Table, now: Instant) {
    && TableOk(cfg, table)
    && |table| <= MAX_TRACKED_CLIENTS
    && forall address | address in table :: table[address].lastSeen <= now
  }

  // ------------------------------------------------ reachability and isolation

  lemma RequestSize(gate: Gate, table: Table, event: Event)
    requires gate.Valid() && event.Request? && |table| <= MAX_TRACKED_CLIENTS
    requires VictimOk(table, event.source, event.victim)
    ensures |Apply(gate, table, event)| <= MAX_TRACKED_CLIENTS
  {
    var room := Evict(table, event.victim);
    assert Apply(gate, table, event).Keys == room.Keys + {event.source};
    if event.victim.Some? {
      assert room.Keys == table.Keys - {event.victim.value};
    }
  }

  lemma RequestEntry(gate: Gate, entry: Option<ClientState>, at: Instant, supplied: string)
    requires gate.Valid() && EntryInv(gate.cfg, entry, at)
    ensures EntryInv(gate.cfg, Some(GateEntry(gate, entry, at, supplied).0), at)
  {
  }

  /** One gate step keeps the table bounded and touches no entry but its own and the one it evicts. */
  lemma GateIsolates(gate: Gate, table: Table, event: Event, from: Instant)
    requires gate.Valid() && event.Request?
    requires TableInv(gate.cfg, table, from) && Legal(gate, table, [event], from)
    ensures TableInv(gate.cfg, Apply(gate, table, event), event.at)
    ensures forall other | other != event.source && other in Apply(gate, table, event) ::
              other in table && Apply(gate, table, event)[other] == table[other]
    ensures forall other | other != event.source && other in table && other !in Apply(gate, table, event) ::
              NeedsRoom(table, event.source) && event.victim == Some(other) && IsOldest(table, other)
  {
    RequestSize(gate, table, event);
    RequestEntry(gate, Lookup(Evict(table, event.victim), event.source), event.at, event.supplied);
  }

  lemma StepKeepsInv(gate: Gate, table: Table, event: Event, from: Instant)
    requires gate.Valid() && TableInv(gate.cfg, table, from) && Legal(gate, table, [event], from)
    ensures TableInv(gate.cfg, Apply(gate, table, event), event.at)
  {
    if event.Request? {
      GateIsolates(gate, table, event, from);
    } else {
      var after := Apply(gate, table, event);
      SubsetSize(after.Keys, table.Keys);
    }
  }

  /** Every table a run can reach, from the empty one on, satisfies the invariant. */
  lemma {:induction false} ReachableInv(gate: Gate, table: Table, events: seq<Event>, from: Instant)
    requires gate.Valid() && TableInv(gate.cfg, table, from) && Legal(gate, table, events, from)
    ensures TableInv(gate.cfg, Run(gate, table, events), EndOf(events, from))
    decreases |events|
  {
    if events != [] {
      StepKeepsInv(gate, table, events[0], from);
      ReachableInv(gate, Apply(gate, table, events[0]), events[1..], events[0].at);
      assert EndOf(events[1..], events[0].at) == EndOf(events, from);
    }
  }

  lemma {:induction false} RunSplit(gate: Gate, table: Table, past: seq<Event>, rest: seq<Event>)
    requires gate.Valid()
    ensures Run(gate, table, past + rest) == Run(gate, Run(gate, table, past), rest)
    decreases |past|
  {
    if past == [] {
      assert past + rest == rest;
    } else {
      assert (past + rest)[0] == past[0] && (past + rest)[1..] == past[1..] + rest;
      RunSplit(gate, Apply(gate, table, past[0]), past[1..], rest);
    }
  }

  lemma {:induction false} LegalSplit(gate: Gate, table: Table, past: seq<Event>, rest: seq<Event>, from: Instant)
    requires gate.Valid() && Legal(gate, table, past + rest, from)
    ensures Legal(gate, table, past, from)
    ensures Legal(gate, Run(gate, table, past), rest, EndOf(past, from))
    decreases |past|
  {
    if past == [] {
      assert past + rest == rest;
    } else {
      assert (past + rest)[1..] == past[1..] + rest;
      LegalSplit(gate, Apply(gate, table, past[0]), past[1..], rest, past[0].at);
      assert EndOf(past[1..], past[0].at) == EndOf(past, from);
    }
  }

  // ------------------------------------------------ one address of a run

  function EntryAfter(gate: Gate, entry: Option<ClientState>, event: Event, source: IpAddr): Option<ClientState>
    requires gate.Valid()
  {
    match event
    case Request(s, at, supplied, _) =>
      if s == source then Some(GateEntry(gate, entry, at, supplied).0) else entry
    case Prune(at, idle) =>
      if entry.Some? && Keeps(entry.value, at, idle) then entry else None
  }

  function EntryVerdict(gate: Gate, entry: Option<ClientState>, event: Event, source: IpAddr): Option<Verdict>
    requires gate.Valid()
  {
    if event.Request? && event.source == source then
      Some(GateEntry(gate, entry, event.at, event.supplied).1)
    else
      None
  }

  /** Away from its own eviction, an address evolves by its own entry alone. */
  lemma Projects(gate: Gate, table: Table, event: Event, source: IpAddr)
    requires gate.Valid() && Spares([event], source)
    ensures Lookup(Apply(gate, table, event), source) == EntryAfter(gate, Lookup(table, source), event, source)
    ensures VerdictFor(gate, table, event, source) == EntryVerdict(gate, Lookup(table, source), event, source)
  {
    assert event in [event];
    if event.Request? {
      assert Lookup(Evict(table, event.victim), source) == Lookup(table, source);
    }
  }

  function EntryRun(gate: Gate, entry: Option<ClientState>, events: seq<Event>, source: IpAddr): Option<ClientState>
    requires gate.Valid()
    decreases |events|
  {
    if events == [] then entry
    else EntryRun(gate, EntryAfter(gate, entry, events[0], source), events[1..], source)
  }

  predicate Ordered(events: seq<Event>, from: Instant, to: Instant)
    decreases |events|
  {
    if events == [] then from <= to else from <= events[0].at && Ordered(events[1..], events[0].at, to)
  }

  lemma {:induction false} RunProjects(gate: Gate, table: Table, events: seq<Event>, source: IpAddr)
    requires gate.Valid() && Spares(events, source)
    ensures Lookup(Run(gate, table, events), source) == EntryRun(gate, Lookup(table, source), events, source)
    decreases |events|
  {
    if events != [] {
      assert events[0] in events && forall e | e in events[1..] :: e in events;
      Projects(gate, table, events[0], source);
      RunProjects(gate, Apply(gate, table, events[0]), events[1..], source);
    }
  }

  lemma {:induction false} LegalIsOrdered(gate: Gate, table: Table, events: seq<Event>, from: Instant, to: Instant)
    requires gate.Valid() && Legal(gate, table, events, from) && EndOf(events, from) <= to
    ensures Ordered(events, from, to) && EndsBy(events, to) && from <= EndOf(events, from)
    decreases |events|
  {
    if events != [] {
      assert EndOf(events[1..], events[0].at) == EndOf(events, from);
      LegalIsOrdered(gate, Apply(gate, table, events[0]), events[1..], events[0].at, to);
      assert forall e | e in events :: e == events[0] || e in events[1..];
    }
  }

  // ------------------------------------------------ facts about one entry

  lemma EntryStepInv(gate: Gate, entry: Option<ClientState>, event: Event, source: IpAddr)
    requires gate.Valid() && EntryInv(gate.cfg, entry, event.at)
    ensures EntryInv(gate.cfg, EntryAfter(gate, entry, event, source), event.at)
  {
  }

  // ------------------------------------------------ throttling is no oracle

  /** The two runs differ at most in the credentials of requests that the first one throttles. */
  ghost predicate SameButThrottled(gate: Gate, table: Table, one: seq<Event>, other: seq<Event>)
    requires gate.Valid()
    decreases |one|
  {
    if one == [] || other == [] then one == other
    else
      && (one[0] == other[0]
          || (one[0].Request? && other[0].Request?
              && other[0] == one[0].(supplied := other[0].supplied)
              && VerdictOf(gate, table, one[0]).value.Throttled?))
      && SameButThrottled(gate, Apply(gate, table, one[0]), one[1..], other[1..])
  }

  /** Over a whole run, no answer and no stored entry depends on a credential the perimeter throttled. */
  lemma {:induction false} ThrottledCredentialsUnseen(gate: Gate, table: Table, one: seq<Event>, other: seq<Event>)
    requires gate.Valid() && SameButThrottled(gate, table, one, other)
    ensures Verdicts(gate, table, one) == Verdicts(gate, table, other)
    ensures Run(gate, table, one) == Run(gate, table, other)
    decreases |one|
  {
    if one != [] && other != [] {
      if one[0] != other[0] {
        ThrottlingIsBlind(gate, table, one[0].source, one[0].at, one[0].supplied, other[0].supplied, one[0].victim);
      }
      ThrottledCredentialsUnseen(gate, Apply(gate, table, one[0]), one[1..], other[1..]);
    }
  }
}
