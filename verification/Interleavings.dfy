/**
 The rate limit over every interleaving of the perimeter's critical sections, at any instants.

 A request reads the clock before it takes the lock, and takes the lock once to be checked and once
 more for its credential. Concurrent requests may therefore interleave between the two, and their
 instants may reach the table out of order.
 */
module Interleavings {
  import opened Wrappers
  import opened Defense

  /** One critical section. Only a success has no instant. */
  datatype Section =
    | Checked(source: IpAddr, at: Instant, victim: Option<IpAddr>)
    | Failed(source: IpAddr, at: Instant)
    | Succeeded(source: IpAddr)
    | Pruned(at: Instant, idle: nat)

  function Perform(cfg: Config, table: Table, section: Section): Table
    requires cfg.Valid()
  {
    match section
    case Checked(source, at, victim) => CheckTable(cfg, table, source, at, victim).0
    case Failed(source, at) => FailureTable(cfg, table, source, at).0
    case Succeeded(source) => SuccessTable(table, source)
    case Pruned(at, idle) => PruneTable(table, at, idle)
  }

  function PerformAll(cfg: Config, table: Table, sections: seq<Section>): Table
    requires cfg.Valid()
    decreases |sections|
  {
    if sections == [] then table else PerformAll(cfg, Perform(cfg, table, sections[0]), sections[1..])
  }

  function AllowedBy(cfg: Config, table: Table, section: Section, source: IpAddr): nat
    requires cfg.Valid()
  {
    if section.Checked? && section.source == source
       && CheckTable(cfg, table, source, section.at, section.victim).1 == Allow
    then 1 else 0
  }

  /** Checks of `source` that were allowed. */
  function Allowed(cfg: Config, table: Table, sections: seq<Section>, source: IpAddr): nat
    requires cfg.Valid()
    decreases |sections|
  {
    if sections == [] then 0
    else
      AllowedBy(cfg, table, sections[0], source)
      + Allowed(cfg, Perform(cfg, table, sections[0]), sections[1..], source)
  }

  /** The instant after a section, for a clock that read `clock` before it. */
  function ClockAfter(clock: Instant, section: Section): Instant {
    if section.Succeeded? then clock else section.at
  }

  function EndClock(clock: Instant, sections: seq<Section>): Instant
    decreases |sections|
  {
    if sections == [] then clock else EndClock(ClockAfter(clock, sections[0]), sections[1..])
  }

  /** Total forward movement of the instants. */
  function Forward(clock: Instant, sections: seq<Section>): nat
    decreases |sections|
  {
    if sections == [] then 0
    else
      var next := ClockAfter(clock, sections[0]);
      Since(next, clock) + Forward(next, sections[1..])
  }

  /** Total backward movement of the instants. */
  function Backward(clock: Instant, sections: seq<Section>): nat
    decreases |sections|
  {
    if sections == [] then 0
    else
      var next := ClockAfter(clock, sections[0]);
      Since(clock, next) + Backward(next, sections[1..])
  }

  lemma {:induction false} ForwardIsNetPlusBackward(clock: Instant, sections: seq<Section>)
    ensures Forward(clock, sections) == EndClock(clock, sections) - clock + Backward(clock, sections)
    decreases |sections|
  {
    if sections != [] {
      ForwardIsNetPlusBackward(ClockAfter(clock, sections[0]), sections[1..]);
    }
  }

  predicate NeverEvicts(sections: seq<Section>, source: IpAddr) {
    forall s | s in sections :: s.Checked? ==> s.victim != Some(source)
  }

  predicate NeverPrunesEarly(sections: seq<Section>, idle: nat) {
    forall s | s in sections :: s.Pruned? ==> idle <= s.idle
  }

  // ------------------------------------------------ tokens to spend

  /** Tokens the address could spend at instant `at`. */
  function Potential(cfg: Config, entry: Option<ClientState>, at: Instant): nat {
    if entry.None? then cfg.Capacity() else Refilled(cfg, entry.value, at)
  }

  /** A dropped entry had a full bucket, so forgetting it changes nothing. */
  lemma IdleIsFull(cfg: Config, state: ClientState, at: Instant)
    requires REQUEST <= Since(at, state.lastSeen)
    ensures forall later | at <= later :: Refilled(cfg, state, later) == cfg.Capacity()
  {
    forall later | at <= later ensures Refilled(cfg, state, later) == cfg.Capacity() {
      MulMono(cfg.rate, REQUEST, Since(later, state.lastSeen));
    }
  }

  /** Moving the clock forward pays in what the time refills; moving it back never adds tokens. */
  lemma ClockRefills(cfg: Config, entry: Option<ClientState>, clock: Instant, next: Instant)
    ensures Potential(cfg, entry, next) <= Potential(cfg, entry, clock) + cfg.rate * Since(next, clock)
  {
    MulMono(cfg.rate, 0, Since(next, clock));
    if entry.Some? {
      var last := entry.value.lastSeen;
      MulMono(cfg.rate, Since(next, last), Since(clock, last) + Since(next, clock));
      MulSplit(cfg.rate, Since(clock, last), Since(next, clock));
    }
  }

  lemma CheckSpends(cfg: Config, entry: Option<ClientState>, at: Instant)
    requires cfg.Valid()
    ensures var (after, decision) := CheckEntry(cfg, entry, at);
            Potential(cfg, Some(after), at) + (if decision == Allow then REQUEST else 0) == Potential(cfg, entry, at)
  {
    MulMono(cfg.rate, 0, 0);
    if entry.None? {
      assert Refilled(cfg, Fresh(cfg, at), at) == cfg.Capacity();
    }
  }

  lemma FailureKeeps(cfg: Config, entry: Option<ClientState>, at: Instant)
    requires cfg.Valid()
    ensures Potential(cfg, Some(FailureEntry(cfg, entry, at).0), at) <= Potential(cfg, entry, at)
  {
    if entry.Some? {
      MulMono(cfg.rate, 0, Since(at, entry.value.lastSeen));
    }
  }

  /** No section adds tokens at its own instant, and an allowed check pays for its request. */
  lemma SectionSpends(cfg: Config, table: Table, section: Section, source: IpAddr, clock: Instant)
    requires cfg.Valid()
    requires section.Checked? ==> section.victim != Some(source)
    requires section.Pruned? ==> REQUEST <= section.idle
    ensures var next := ClockAfter(clock, section);
            Potential(cfg, Lookup(Perform(cfg, table, section), source), next)
            + AllowedBy(cfg, table, section, source) * REQUEST
            <= Potential(cfg, Lookup(table, source), next)
  {
    var entry := Lookup(table, source);
    match section
    case Checked(s, at, victim) =>
      assert Lookup(Evict(table, victim), source) == entry;
      if s == source {
        CheckSpends(cfg, entry, at);
      }
    case Failed(s, at) =>
      if s == source {
        FailureKeeps(cfg, entry, at);
      }
    case Succeeded(s) =>
    case Pruned(at, idle) =>
      if entry.Some? && !Keeps(entry.value, at, idle) {
        IdleIsFull(cfg, entry.value, at);
      }
  }

  lemma SparesTail(sections: seq<Section>, source: IpAddr)
    requires sections != [] && NeverEvicts(sections, source) && NeverPrunesEarly(sections, REQUEST)
    ensures NeverEvicts([sections[0]], source) && NeverPrunesEarly([sections[0]], REQUEST)
    ensures NeverEvicts(sections[1..], source) && NeverPrunesEarly(sections[1..], REQUEST)
  {
  }

  lemma StepSpends(cfg: Config, table: Table, section: Section, source: IpAddr, clock: Instant)
    requires cfg.Valid() && NeverEvicts([section], source) && NeverPrunesEarly([section], REQUEST)
    ensures var next := ClockAfter(clock, section);
            Potential(cfg, Lookup(Perform(cfg, table, section), source), next)
            + AllowedBy(cfg, table, section, source) * REQUEST
            <= Potential(cfg, Lookup(table, source), clock) + cfg.rate * Since(next, clock)
  {
    assert section in [section];
    ClockRefills(cfg, Lookup(table, source), clock, ClockAfter(clock, section));
    SectionSpends(cfg, table, section, source, clock);
  }

  lemma SumSpends(rate: nat, first: nat, later: nat, allowed: nat, rest: nat, before: nat, after: nat)
    requires after + allowed * REQUEST <= before + rate * first && rest * REQUEST <= after + rate * later
    ensures (allowed + rest) * REQUEST <= before + rate * (first + later)
  {
    MulSplit(rate, first, later);
  }

  lemma {:induction false} RateBoundFrom(cfg: Config, table: Table, sections: seq<Section>, source: IpAddr,
                                         clock: Instant)
    requires cfg.Valid() && NeverEvicts(sections, source) && NeverPrunesEarly(sections, REQUEST)
    ensures Allowed(cfg, table, sections, source) * REQUEST
         <= Potential(cfg, Lookup(table, source), clock) + cfg.rate * Forward(clock, sections)
    decreases |sections|
  {
    if sections == [] {
      MulMono(cfg.rate, 0, 0);
    } else {
      var section, rest := sections[0], sections[1..];
      var table', next := Perform(cfg, table, section), ClockAfter(clock, section);
      SparesTail(sections, source);
      StepSpends(cfg, table, section, source, clock);
      RateBoundFrom(cfg, table', rest, source, next);
      SumSpends(cfg.rate, Since(next, clock), Forward(next, rest),
                AllowedBy(cfg, table, section, source), Allowed(cfg, table', rest, source),
                Potential(cfg, Lookup(table, source), clock), Potential(cfg, Lookup(table', source), next));
    }
  }

  /**
   The rate limit without any order: whatever table the sections find, however the sections of
   concurrent requests interleave and in whatever order their instants come, the allowed checks never
   exceed one full bucket plus the refill of the net time elapsed and of every step the clock took back.
   */
  lemma RateBoundInterleaved(cfg: Config, table: Table, sections: seq<Section>, source: IpAddr, start: Instant)
    requires cfg.Valid() && NeverEvicts(sections, source) && NeverPrunesEarly(sections, REQUEST)
    ensures Allowed(cfg, table, sections, source) * REQUEST
         <= cfg.Capacity() + cfg.rate * (EndClock(start, sections) - start + Backward(start, sections))
  {
    RateBoundFrom(cfg, table, sections, source, start);
    ForwardIsNetPlusBackward(start, sections);
  }

  /** The backward term cannot be dropped: one late check lets the same minute refill twice. */
  lemma BackwardTermIsNeeded(source: IpAddr)
    ensures var cfg := Config(1, 1, SECOND);
            var late := [Checked(source, REQUEST, None), Checked(source, 0, None), Checked(source, REQUEST, None)];
            && Allowed(cfg, map[], late, source) == 2
            && EndClock(REQUEST, late) == REQUEST && Backward(REQUEST, late) == REQUEST
            && cfg.Capacity() == REQUEST
  {
    var cfg := Config(1, 1, SECOND);
    var late := [Checked(source, REQUEST, None), Checked(source, 0, None), Checked(source, REQUEST, None)];
    var one := Perform(cfg, map[], late[0]);
    var two := Perform(cfg, one, late[1]);
    assert one[source] == ClientState(0, REQUEST, 0, None);
    assert two[source] == ClientState(0, 0, 0, None);
    assert late[1..] == [late[1], late[2]] && late[1..][1..] == [late[2]] && late[1..][1..][1..] == [];
    assert AllowedBy(cfg, map[], late[0], source) == 1;
    assert AllowedBy(cfg, one, late[1], source) == 0;
    assert AllowedBy(cfg, two, late[2], source) == 1;
    assert Allowed(cfg, two, [late[2]], source) == 1;
    assert Allowed(cfg, one, [late[1], late[2]], source) == 1;
    assert Backward(REQUEST, [late[1], late[2]]) == REQUEST + Backward(0, [late[2]]);
    assert EndClock(0, [late[2]]) == REQUEST;
  }
}
