/** When an address loses its entry: evicted only under a crowd of other addresses, pruned exactly when idle. */
module Evictions {
  import opened Wrappers
  import opened Defense
  import opened Auth
  import opened PerimeterRuns

  ghost predicate RequestedAt(events: seq<Event>, address: IpAddr, at: Instant) {
    exists e | e in events :: e.Request? && e.source == address && e.at == at
  }

  /** The other addresses that made a request at or after `since`. */
  ghost function Callers(events: seq<Event>, since: Instant, source: IpAddr): set<IpAddr> {
    set e | e in events && e.Request? && e.source != source && since <= e.at :: e.source
  }

  /** A sighting kept in the table is the one it started with, or the instant of a request of that address. */
  lemma {:induction false} SightingsAreRequests(gate: Gate, table: Table, events: seq<Event>)
    requires gate.Valid()
    ensures var after := Run(gate, table, events);
            forall a | a in after ::
              (a in table && after[a].lastSeen == table[a].lastSeen) || RequestedAt(events, a, after[a].lastSeen)
    decreases |events|
  {
    if events != [] {
      var event, next := events[0], Apply(gate, table, events[0]);
      SightingsAreRequests(gate, next, events[1..]);
      var after := Run(gate, table, events);
      forall a | a in after
        ensures (a in table && after[a].lastSeen == table[a].lastSeen) || RequestedAt(events, a, after[a].lastSeen)
      {
        assert event in events && forall e | e in events[1..] :: e in events;
        if !RequestedAt(events[1..], a, after[a].lastSeen) {
          StepSighting(gate, table, event, a);
        }
      }
    }
  }

  /**
   What a prune leaves: after any run, an address is still tracked only if a lockout of it lies ahead,
   or it made a request less than `idle` ago.
   */
  lemma PruneLeavesTheRecent(gate: Gate, past: seq<Event>, now: Instant, idle: nat, source: IpAddr)
    requires gate.Valid() && Legal(gate, map[], past + [Prune(now, idle)], 0)
    ensures var before, after := Run(gate, map[], past), Run(gate, map[], past + [Prune(now, idle)]);
            && (source in after <==> source in before
                                     && ((before[source].lockedUntil.Some? && now < before[source].lockedUntil.value)
                                         || (1 <= idle && now < before[source].lastSeen + idle)))
            && (source in after ==>
                  && after[source] == before[source]
                  && RequestedAt(past, source, after[source].lastSeen))
  {
    var prune := Prune(now, idle);
    LegalSplit(gate, map[], past, [prune], 0);
    ReachableInv(gate, map[], past, 0);
    RunSplit(gate, map[], past, [prune]);
    assert [prune][1..] == [] && Run(gate, Run(gate, map[], past), [prune])
        == Apply(gate, Run(gate, map[], past), prune);
    SightingsAreRequests(gate, map[], past);
  }

  lemma StepSighting(gate: Gate, table: Table, event: Event, a: IpAddr)
    requires gate.Valid() && a in Apply(gate, table, event)
    ensures var seen := Apply(gate, table, event)[a].lastSeen;
            || (a in table && seen == table[a].lastSeen)
            || (event.Request? && event.source == a && event.at == seen)
  {
  }

  /** The addresses that fill the table, the victim left out and the newcomer included. */
  lemma CrowdSize(table: Table, newcomer: IpAddr, victim: IpAddr)
    requires MAX_TRACKED_CLIENTS <= |table| && victim in table && newcomer !in table
    ensures MAX_TRACKED_CLIENTS <= |table.Keys - {victim} + {newcomer}|
  {
    var others := table.Keys - {victim};
    assert table.Keys == others + {victim};
    assert |others + {newcomer}| == |others| + 1;
  }

  lemma CrowdCalled(gate: Gate, past: seq<Event>, request: Event, source: IpAddr)
    requires gate.Valid() && request.Request? && request.source != source
    requires var table := Run(gate, map[], past);
             IsOldest(table, source) && table[source].lastSeen <= request.at
    ensures var table := Run(gate, map[], past);
            table.Keys - {source} + {request.source} <= Callers(past + [request], table[source].lastSeen, source)
  {
    var table, all := Run(gate, map[], past), past + [request];
    SightingsAreRequests(gate, map[], past);
    assert request in all && forall e | e in past :: e in all;
    forall a | a in table && a != source ensures a in Callers(all, table[source].lastSeen, source) {
      var e :| e in past && e.Request? && e.source == a && e.at == table[a].lastSeen;
      assert e in all;
    }
  }

  /**
   An eviction takes a crowd: from the victim's last sighting on, a full table's worth of distinct
   other addresses made requests, the one that needs the room included.
   */
  lemma EvictionTakesACrowd(gate: Gate, past: seq<Event>, request: Event, source: IpAddr, from: Instant)
    requires gate.Valid() && Legal(gate, map[], past + [request], from)
    requires request.Request? && request.victim == Some(source)
    ensures var table := Run(gate, map[], past);
            && source in table && table[source].lastSeen <= request.at
            && 20_000 <= |Callers(past + [request], table[source].lastSeen, source)|
  {
    var table := Run(gate, map[], past);
    LegalSplit(gate, map[], past, [request], from);
    ReachableInv(gate, map[], past, from);
    CrowdSize(table, request.source, source);
    CrowdCalled(gate, past, request, source);
    SubsetSize(table.Keys - {source} + {request.source}, Callers(past + [request], table[source].lastSeen, source));
  }

  /** The last sighting of `source` after `past`, or the start of the window that follows. */
  function SightedBefore(gate: Gate, past: seq<Event>, window: seq<Event>, source: IpAddr): Instant
    requires gate.Valid() && window != []
  {
    var table := Run(gate, map[], past);
    if source in table then table[source].lastSeen else window[0].at
  }

  /**
   An address is not evicted in a window unless, since it was last seen before the window, at least
   20,000 distinct other addresses made requests. A prune may still drop its entry.
   */
  lemma SparedUnlessCrowded(gate: Gate, past: seq<Event>, window: seq<Event>, source: IpAddr, from: Instant)
    requires gate.Valid() && window != [] && Legal(gate, map[], past + window, from)
    requires |Callers(past + window, SightedBefore(gate, past, window, source), source)| < 20_000
    ensures Spares(window, source)
  {
    forall e | e in window && e.Request? ensures e.victim != Some(source) {
      var i :| 0 <= i < |window| && window[i] == e;
      if e.victim == Some(source) {
        var before, rest := past + window[..i], window[i + 1..];
        assert past + window == (before + [e]) + rest;
        LegalSplit(gate, map[], before + [e], rest, from);
        EvictionTakesACrowd(gate, before, e, source, from);
        var seen := Run(gate, map[], before)[source].lastSeen;
        SeenSince(gate, past, window, i, source, from);
        SubsetSize(Callers(before + [e], seen, source),
                   Callers(past + window, SightedBefore(gate, past, window, source), source));
      }
    }
  }

  /** Inside the window, the last sighting never lies before the one the window found. */
  lemma SeenSince(gate: Gate, past: seq<Event>, window: seq<Event>, i: nat, source: IpAddr, from: Instant)
    requires gate.Valid() && i < |window| && Legal(gate, map[], past + window, from)
    requires source in Run(gate, map[], past + window[..i])
    ensures SightedBefore(gate, past, window, source) <= Run(gate, map[], past + window[..i])[source].lastSeen
  {
    var table := Run(gate, map[], past);
    LegalSplit(gate, map[], past, window, from);
    ReachableInv(gate, map[], past, from);
    LegalIsOrdered(gate, table, window, EndOf(past, from), EndOf(window, EndOf(past, from)));
    OrderedFromFirst(window, EndOf(past, from), EndOf(window, EndOf(past, from)));
    RunSplit(gate, map[], past, window[..i]);
    SightingsAreRequests(gate, table, window[..i]);
  }

  lemma {:induction false} OrderedFromFirst(events: seq<Event>, from: Instant, to: Instant)
    requires events != [] && Ordered(events, from, to)
    ensures from <= events[0].at && forall e | e in events :: events[0].at <= e.at
    decreases |events|
  {
    assert forall e | e in events :: e == events[0] || e in events[1..];
    if |events| > 1 {
      OrderedFromFirst(events[1..], events[0].at, to);
    }
  }
}
