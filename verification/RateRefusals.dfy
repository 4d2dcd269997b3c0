/** The other side of the rate limit: a request is refused for lack of tokens only when it would break the bound. */
module RateRefusals {
  import opened Wrappers
  import opened Defense
  import opened Auth
  import opened PerimeterRuns
  import opened Interleavings
  import opened RateLimit

  lemma {:induction false} AdmissionsAppend(gate: Gate, table: Table, events: seq<Event>, last: Event, source: IpAddr)
    requires gate.Valid()
    ensures Admissions(gate, table, events + [last], source)
         == Admissions(gate, table, events, source)
            + AdmissionOf(VerdictFor(gate, Run(gate, table, events), last, source))
    decreases |events|
  {
    if events == [] {
      assert [last][1..] == [];
    } else {
      assert (events + [last])[0] == events[0] && (events + [last])[1..] == events[1..] + [last];
      AdmissionsAppend(gate, Apply(gate, table, events[0]), events[1..], last, source);
    }
  }

  /** Requests of `source` admitted since event `k` of a run from the empty table. */
  function AdmittedSince(gate: Gate, events: seq<Event>, k: nat, source: IpAddr): nat
    requires gate.Valid() && k <= |events|
  {
    Admissions(gate, Run(gate, map[], events[..k]), events[k..], source)
  }

  lemma AdmittedSinceGrows(gate: Gate, events: seq<Event>, last: Event, k: nat, source: IpAddr)
    requires gate.Valid() && k <= |events|
    ensures AdmittedSince(gate, events + [last], k, source)
         == AdmittedSince(gate, events, k, source)
            + AdmissionOf(VerdictFor(gate, Run(gate, map[], events), last, source))
  {
    assert events == events[..k] + events[k..];
    assert (events + [last])[..k] == events[..k] && (events + [last])[k..] == events[k..] + [last];
    RunSplit(gate, map[], events[..k], events[k..]);
    AdmissionsAppend(gate, Run(gate, map[], events[..k]), events[k..], last, source);
  }

  /** The bucket holds at least what the bound leaves of a full one filled at `start` and `admitted` requests since. */
  predicate HoldsRest(cfg: Config, potential: nat, admitted: nat, start: Instant, at: Instant) {
    start <= at && cfg.Capacity() + cfg.rate * (at - start) <= potential + admitted * REQUEST
  }

  /** An admitted request costs its tokens and nothing else, now and later. */
  lemma AdmissionCosts(gate: Gate, entry: Option<ClientState>, event: Event, source: IpAddr, later: Instant)
    requires gate.Valid() && EntryInv(gate.cfg, entry, event.at) && event.at <= later
    requires AdmissionOf(EntryVerdict(gate, entry, event, source)) == 1
    ensures Potential(gate.cfg, EntryAfter(gate, entry, event, source), later)
         == Min(Potential(gate.cfg, entry, event.at) - REQUEST + gate.cfg.rate * (later - event.at),
                gate.cfg.Capacity())
  {
    CheckSpends(gate.cfg, entry, event.at);
    RefillComposes(gate.cfg, EntryAfter(gate, entry, event, source).value, event.at, later);
  }

  /** An event that admits nothing from `source` takes no token from it, an eviction or a prune included. */
  lemma RefusalTakesNothing(gate: Gate, table: Table, event: Event, source: IpAddr, from: Instant, later: Instant)
    requires gate.Valid() && TableInv(gate.cfg, table, from) && Legal(gate, table, [event], from) && event.at <= later
    requires AdmissionOf(VerdictFor(gate, table, event, source)) == 0
    ensures var after := Potential(gate.cfg, Lookup(Apply(gate, table, event), source), later);
            after == gate.cfg.Capacity() || after == Potential(gate.cfg, Lookup(table, source), later)
  {
    if source in Apply(gate, table, event) {
      SparedIfKept(gate, table, event, source);
      Projects(gate, table, event, source);
      var entry := Lookup(table, source);
      if event.Request? {
        RefusalKeepsPotential(gate, entry, event, source, later);
      }
    }
  }

  lemma SparedIfKept(gate: Gate, table: Table, event: Event, source: IpAddr)
    requires gate.Valid() && Legal(gate, table, [event], event.at)
    requires source in Apply(gate, table, event)
    ensures Spares([event], source)
  {
  }

  lemma AdmittedStep(gate: Gate, table: Table, event: Event, source: IpAddr, from: Instant, later: Instant)
    requires gate.Valid() && TableInv(gate.cfg, table, from) && Legal(gate, table, [event], from) && event.at <= later
    requires AdmissionOf(VerdictFor(gate, table, event, source)) == 1
    ensures Potential(gate.cfg, Lookup(Apply(gate, table, event), source), later)
         == Min(Potential(gate.cfg, Lookup(table, source), event.at) - REQUEST + gate.cfg.rate * (later - event.at),
                gate.cfg.Capacity())
  {
    SparedIfKept(gate, table, event, source);
    Projects(gate, table, event, source);
    AdmissionCosts(gate, Lookup(table, source), event, source, later);
  }

  lemma RestSpends(cfg: Config, before: nat, after: nat, admitted: nat, start: Instant, at: Instant, later: Instant)
    requires HoldsRest(cfg, before, admitted, start, at) && at <= later
    requires after == Min(before - REQUEST + cfg.rate * (later - at), cfg.Capacity())
    ensures after == cfg.Capacity() || HoldsRest(cfg, after, admitted + 1, start, later)
  {
    MulSplit(cfg.rate, at - start, later - at);
  }

  /** Tokens of the address at `later`, after a run from the empty table. */
  function Tokens(gate: Gate, events: seq<Event>, source: IpAddr, later: Instant): nat
    requires gate.Valid()
  {
    Potential(gate.cfg, Lookup(Run(gate, map[], events), source), later)
  }

  /** The bucket is full, or was filled at event `k` and has paid for the requests admitted since. */
  predicate FilledAt(gate: Gate, events: seq<Event>, k: nat, source: IpAddr, later: Instant)
    requires gate.Valid()
  {
    || Tokens(gate, events, source, later) == gate.cfg.Capacity()
    || (k < |events|
        && HoldsRest(gate.cfg, Tokens(gate, events, source, later), AdmittedSince(gate, events, k, source),
                     events[k].at, later))
  }

  lemma RunAppend(gate: Gate, events: seq<Event>, last: Event)
    requires gate.Valid() && Legal(gate, map[], events + [last], 0)
    ensures Legal(gate, map[], events, 0) && Legal(gate, Run(gate, map[], events), [last], EndOf(events, 0))
    ensures TableInv(gate.cfg, Run(gate, map[], events), EndOf(events, 0))
    ensures EndOf(events, 0) <= last.at
    ensures Run(gate, map[], events + [last]) == Apply(gate, Run(gate, map[], events), last)
  {
    LegalSplit(gate, map[], events, [last], 0);
    ReachableInv(gate, map[], events, 0);
    RunSplit(gate, map[], events, [last]);
    assert Run(gate, Apply(gate, Run(gate, map[], events), last), []) == Apply(gate, Run(gate, map[], events), last);
  }

  lemma FilledBeforeRefusal(gate: Gate, events: seq<Event>, last: Event, k: nat, source: IpAddr, later: Instant)
    requires gate.Valid() && Legal(gate, map[], events + [last], 0) && last.at <= later
    requires AdmissionOf(VerdictFor(gate, Run(gate, map[], events), last, source)) == 0
    requires FilledAt(gate, events, k, source, later)
    ensures FilledAt(gate, events + [last], k, source, later)
  {
    RunAppend(gate, events, last);
    RefusalTakesNothing(gate, Run(gate, map[], events), last, source, EndOf(events, 0), later);
    if k < |events| {
      AdmittedSinceGrows(gate, events, last, k, source);
    }
  }

  lemma TokensAfterAdmission(gate: Gate, events: seq<Event>, last: Event, source: IpAddr, later: Instant)
    requires gate.Valid() && Legal(gate, map[], events + [last], 0) && last.at <= later
    requires AdmissionOf(VerdictFor(gate, Run(gate, map[], events), last, source)) == 1
    ensures Tokens(gate, events + [last], source, later)
         == Min(Tokens(gate, events, source, last.at) - REQUEST + gate.cfg.rate * (later - last.at),
                gate.cfg.Capacity())
  {
    RunAppend(gate, events, last);
    AdmittedStep(gate, Run(gate, map[], events), last, source, EndOf(events, 0), later);
  }

  lemma FilledBeforeAdmission(gate: Gate, events: seq<Event>, last: Event, k: nat, source: IpAddr, later: Instant)
    requires gate.Valid() && Legal(gate, map[], events + [last], 0) && last.at <= later
    requires AdmissionOf(VerdictFor(gate, Run(gate, map[], events), last, source)) == 1
    requires k <= |events|
    requires HoldsRest(gate.cfg, Tokens(gate, events, source, last.at), AdmittedSince(gate, events, k, source),
                       (events + [last])[k].at, last.at)
    ensures FilledAt(gate, events + [last], k, source, later)
  {
    TokensAfterAdmission(gate, events, last, source, later);
    AdmittedSinceGrows(gate, events, last, k, source);
    RestSpends(gate.cfg, Tokens(gate, events, source, last.at), Tokens(gate, events + [last], source, later),
               AdmittedSince(gate, events, k, source), (events + [last])[k].at, last.at, later);
  }

  lemma FullIsFilled(gate: Gate, events: seq<Event>, source: IpAddr, at: Instant)
    requires gate.Valid() && Tokens(gate, events, source, at) == gate.cfg.Capacity()
    ensures HoldsRest(gate.cfg, Tokens(gate, events, source, at), AdmittedSince(gate, events, |events|, source), at, at)
  {
    MulMono(gate.cfg.rate, 0, 0);
  }

  lemma FilledOnAdmission(gate: Gate, events: seq<Event>, last: Event, k: nat, source: IpAddr, later: Instant)
    returns (j: nat)
    requires gate.Valid() && Legal(gate, map[], events + [last], 0) && last.at <= later
    requires AdmissionOf(VerdictFor(gate, Run(gate, map[], events), last, source)) == 1
    requires FilledAt(gate, events, k, source, last.at)
    ensures FilledAt(gate, events + [last], j, source, later)
  {
    j := k;
    if Tokens(gate, events, source, last.at) == gate.cfg.Capacity() {
      j := |events|;
      FullIsFilled(gate, events, source, last.at);
    }
    FilledBeforeAdmission(gate, events, last, j, source, later);
  }

  /** Nothing but admitted requests empties a bucket: it is full, or was filled at one of the run's events. */
  lemma {:induction false} FilledAtSomeEvent(gate: Gate, past: seq<Event>, source: IpAddr, later: Instant)
    returns (k: nat)
    requires gate.Valid() && Legal(gate, map[], past, 0) && EndOf(past, 0) <= later
    ensures FilledAt(gate, past, k, source, later)
    decreases |past|
  {
    if past == [] {
      return 0;
    }
    var n := |past| - 1;
    var init, last := past[..n], past[n];
    assert past == init + [last];
    RunAppend(gate, init, last);
    if AdmissionOf(VerdictFor(gate, Run(gate, map[], init), last, source)) == 0 {
      k := FilledAtSomeEvent(gate, init, source, later);
      FilledBeforeRefusal(gate, init, last, k, source, later);
    } else {
      k := FilledAtSomeEvent(gate, init, source, last.at);
      k := FilledOnAdmission(gate, init, last, k, source, later);
    }
  }

  /** The bound: one full bucket plus the refill of the time from `start` to `at`. */
  predicate Fits(cfg: Config, admitted: nat, start: Instant, at: Instant) {
    admitted * REQUEST <= cfg.Capacity() + cfg.rate * (at - start)
  }

  /** Admitting `request` would exceed one bucket plus the refill, over the window from event `k` on. */
  predicate WouldExceed(gate: Gate, past: seq<Event>, request: Event, k: nat, source: IpAddr)
    requires gate.Valid() && k < |past|
  {
    !Fits(gate.cfg, AdmittedSince(gate, past, k, source) + 1, past[k].at, request.at)
  }

  predicate SaysRateLimited(verdict: Option<Verdict>) {
    verdict.Some? && verdict.value.Throttled? && verdict.value.decision.RateLimited?
  }

  lemma RefusedHadNoTokens(gate: Gate, past: seq<Event>, request: Event, source: IpAddr)
    requires gate.Valid() && Legal(gate, map[], past + [request], 0)
    requires SaysRateLimited(VerdictFor(gate, Run(gate, map[], past), request, source))
    ensures Tokens(gate, past, source, request.at) < REQUEST
    ensures Legal(gate, map[], past, 0) && EndOf(past, 0) <= request.at
  {
    RunAppend(gate, past, request);
    SparedIfKept(gate, Run(gate, map[], past), request, source);
    Projects(gate, Run(gate, map[], past), request, source);
    EntryHadNoTokens(gate, Lookup(Run(gate, map[], past), source), request, source);
  }

  lemma EntryHadNoTokens(gate: Gate, entry: Option<ClientState>, event: Event, source: IpAddr)
    requires gate.Valid() && SaysRateLimited(EntryVerdict(gate, entry, event, source))
    ensures Potential(gate.cfg, entry, event.at) < REQUEST
  {
    MulMono(REQUEST, 1, gate.cfg.rate);
    MulMono(gate.cfg.rate, 0, 0);
  }

  /**
   No request is refused for lack of tokens without a reason: after any run from the empty table,
   evictions and prunes of any kind included, admitting it would have broken the bound of some window.
   */
  lemma RefusedOnlyBeyondTheRate(gate: Gate, past: seq<Event>, request: Event, source: IpAddr)
    requires gate.Valid() && Legal(gate, map[], past + [request], 0)
    requires SaysRateLimited(VerdictFor(gate, Run(gate, map[], past), request, source))
    ensures exists k: nat | k < |past| :: WouldExceed(gate, past, request, k, source)
  {
    RefusedHadNoTokens(gate, past, request, source);
    var k := FilledAtSomeEvent(gate, past, source, request.at);
    ShortOfTokens(gate, past, request, k, source);
  }

  lemma ShortOfTokens(gate: Gate, past: seq<Event>, request: Event, k: nat, source: IpAddr)
    requires gate.Valid() && FilledAt(gate, past, k, source, request.at)
    requires Tokens(gate, past, source, request.at) < REQUEST
    ensures k < |past| && WouldExceed(gate, past, request, k, source)
  {
    MulMono(REQUEST, 1, gate.cfg.rate);
  }

  lemma WindowIsLegal(gate: Gate, events: seq<Event>, k: nat)
    requires gate.Valid() && Legal(gate, map[], events, 0) && k < |events|
    ensures Legal(gate, Run(gate, map[], events[..k]), events[k..], events[k].at)
  {
    assert events == events[..k] + events[k..];
    LegalSplit(gate, map[], events[..k], events[k..], 0);
  }

  /** The bound, for the window of a run from event `k` to its end. */
  predicate WithinTheRate(gate: Gate, events: seq<Event>, k: nat, source: IpAddr)
    requires gate.Valid() && k < |events|
  {
    Fits(gate.cfg, AdmittedSince(gate, events, k, source), events[k].at, events[|events| - 1].at)
  }

  lemma RateBoundSince(gate: Gate, events: seq<Event>, k: nat, source: IpAddr)
    requires gate.Valid() && Legal(gate, map[], events, 0) && k < |events|
    requires Spares(events, source) && PrunesAfter(events, REQUEST)
    ensures WithinTheRate(gate, events, k, source)
  {
    WindowIsLegal(gate, events, k);
    WindowIsSpared(events, k, source);
    RateBound(gate, Run(gate, map[], events[..k]), events[k..], source);
  }

  lemma WindowIsSpared(events: seq<Event>, k: nat, source: IpAddr)
    requires k < |events| && Spares(events, source) && PrunesAfter(events, REQUEST)
    ensures Spares(events[k..], source) && PrunesAfter(events[k..], REQUEST)
    ensures EndOf(events[k..], events[k].at) == events[|events| - 1].at
  {
    assert forall e | e in events[k..] :: e in events;
  }

  lemma OneMoreAdmitted(gate: Gate, past: seq<Event>, request: Event, k: nat, source: IpAddr)
    requires gate.Valid() && k < |past|
    requires AdmissionOf(VerdictFor(gate, Run(gate, map[], past), request, source)) == 1
    ensures AdmittedSince(gate, past + [request], k, source) == AdmittedSince(gate, past, k, source) + 1
  {
    AdmittedSinceGrows(gate, past, request, k, source);
  }

  lemma OneMoreWithinTheRate(gate: Gate, past: seq<Event>, request: Event, k: nat, source: IpAddr)
    requires gate.Valid() && k < |past| && WithinTheRate(gate, past + [request], k, source)
    requires AdmittedSince(gate, past + [request], k, source) == AdmittedSince(gate, past, k, source) + 1
    ensures !WouldExceed(gate, past, request, k, source)
  {
    assert (past + [request])[k] == past[k] && (past + [request])[|past|] == request;
  }

  /**
   The limiter is exact: a request that no lockout stops is refused for lack of tokens if and only if,
   over some window that ends with it, admitting it would exceed one bucket plus the window's refill.
   */
  lemma RateLimitedIff(gate: Gate, past: seq<Event>, request: Event, source: IpAddr)
    requires gate.Valid() && Legal(gate, map[], past + [request], 0)
    requires Spares(past + [request], source) && PrunesAfter(past + [request], REQUEST)
    requires request.Request? && request.source == source
    requires !SaysLockedOut(VerdictFor(gate, Run(gate, map[], past), request, source))
    ensures SaysRateLimited(VerdictFor(gate, Run(gate, map[], past), request, source))
       <==> exists k: nat | k < |past| :: WouldExceed(gate, past, request, k, source)
  {
    var verdict := VerdictFor(gate, Run(gate, map[], past), request, source);
    if SaysRateLimited(verdict) {
      RefusedOnlyBeyondTheRate(gate, past, request, source);
    } else {
      assert AdmissionOf(verdict) == 1;
      forall k: nat | k < |past| ensures !WouldExceed(gate, past, request, k, source) {
        RateBoundSince(gate, past + [request], k, source);
        OneMoreAdmitted(gate, past, request, k, source);
        OneMoreWithinTheRate(gate, past, request, k, source);
      }
    }
  }
}
