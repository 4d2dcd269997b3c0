/** How many credentials one address can try, whatever it does between attempts. */
module GuessBound {
  import opened Wrappers
  import opened Defense
  import opened Auth
  import opened PerimeterRuns
  import Interleavings
  import RateLimit

  function GuessOf(verdict: Option<Verdict>): nat {
    if verdict.Some? && verdict.value.Unauthorized? then 1 else 0
  }

  function SuccessOf(verdict: Option<Verdict>): nat {
    if verdict.Some? && verdict.value.Authorized? then 1 else 0
  }

  /** Failed credential comparisons of `source` along a run. */
  function Guesses(gate: Gate, table: Table, events: seq<Event>, source: IpAddr): nat
    requires gate.Valid()
    decreases |events|
  {
    if events == [] then 0
    else
      GuessOf(VerdictFor(gate, table, events[0], source))
      + Guesses(gate, Apply(gate, table, events[0]), events[1..], source)
  }

  /** Requests of `source` that were authorized along a run. */
  function Successes(gate: Gate, table: Table, events: seq<Event>, source: IpAddr): nat
    requires gate.Valid()
    decreases |events|
  {
    if events == [] then 0
    else
      SuccessOf(VerdictFor(gate, table, events[0], source))
      + Successes(gate, Apply(gate, table, events[0]), events[1..], source)
  }

  function EntrySuccesses(gate: Gate, entry: Option<ClientState>, events: seq<Event>, source: IpAddr): nat
    requires gate.Valid()
    decreases |events|
  {
    if events == [] then 0
    else
      SuccessOf(EntryVerdict(gate, entry, events[0], source))
      + EntrySuccesses(gate, EntryAfter(gate, entry, events[0], source), events[1..], source)
  }

  function EntryGuesses(gate: Gate, entry: Option<ClientState>, events: seq<Event>, source: IpAddr): nat
    requires gate.Valid()
    decreases |events|
  {
    if events == [] then 0
    else
      GuessOf(EntryVerdict(gate, entry, events[0], source))
      + EntryGuesses(gate, EntryAfter(gate, entry, events[0], source), events[1..], source)
  }

  lemma {:induction false} GuessesProject(gate: Gate, table: Table, events: seq<Event>, source: IpAddr)
    requires gate.Valid() && Spares(events, source)
    ensures Guesses(gate, table, events, source) == EntryGuesses(gate, Lookup(table, source), events, source)
    ensures Successes(gate, table, events, source) == EntrySuccesses(gate, Lookup(table, source), events, source)
    decreases |events|
  {
    if events != [] {
      assert events[0] in events && forall e | e in events[1..] :: e in events;
      Projects(gate, table, events[0], source);
      GuessesProject(gate, Apply(gate, table, events[0]), events[1..], source);
    }
  }

  /** Guesses left between `from` and `to` for an address whose counter starts over at `from`. */
  function Allowance(threshold: nat, period: nat, from: Instant, to: Instant): nat
    requires 1 <= period
  {
    if from <= to then threshold * ((to - from) / period + 1) else 0
  }

  lemma AllowanceShrinks(threshold: nat, period: nat, from: Instant, later: Instant, to: Instant)
    requires 1 <= period && from <= later
    ensures Allowance(threshold, period, later, to) <= Allowance(threshold, period, from, to)
  {
    if later <= to {
      DivMono(to - later, to - from, period);
      MulMono(threshold, (to - later) / period + 1, (to - from) / period + 1);
    } else if from <= to {
      MulMono(threshold, 0, (to - from) / period + 1);
    }
  }

  lemma DivMono(a: nat, b: nat, d: nat)
    requires a <= b && 1 <= d
    ensures a / d <= b / d
  {
    var q, p := a / d, b / d;
    assert d * q <= a && b < d * p + d;
    if p < q {
      MulMono(d, p + 1, q);
    }
  }

  /** A whole period costs a whole threshold of guesses. */
  lemma PeriodCosts(threshold: nat, period: nat, from: Instant, later: Instant, to: Instant)
    requires 1 <= period && from + period <= later && from <= to
    ensures Allowance(threshold, period, later, to) + threshold <= Allowance(threshold, period, from, to)
  {
    AllowanceShrinks(threshold, period, from + period, later, to);
    var d := to - from;
    if from + period <= to {
      assert (d - period) / period == d / period - 1 by {
        QuotientShift(d, period);
      }
      MulSplit(threshold, d / period, 1);
    } else {
      MulMono(threshold, 1, d / period + 1);
    }
  }

  lemma QuotientShift(d: nat, period: nat)
    requires 1 <= period <= d
    ensures (d - period) / period == d / period - 1
  {
    MulSplit(period, d / period, -1);
    QuotientUnique(d - period, period, d / period - 1, d % period);
  }

  lemma QuotientUnique(a: nat, d: nat, q: int, r: nat)
    requires a == d * q + r && r < d
    ensures a / d == q
  {
    var p := a / d;
    assert a == d * p + a % d;
    if p < q {
      MulMono(d, p + 1, q);
    } else if q < p {
      MulMono(d, q + 1, p);
    }
  }

  /**
   Guesses that can still come before `to`. A counter that was last touched inside the window
   has spent part of the allowance that began at that touch.
   */
  function Remaining(cfg: Config, period: nat, entry: Option<ClientState>, start: Instant, now: Instant, to: Instant)
    : int
    requires 1 <= period
  {
    if entry.None? then Allowance(cfg.threshold, period, now, to)
    else if entry.value.lockedUntil.Some? then
      Allowance(cfg.threshold, period, Max(entry.value.lockedUntil.value, now), to)
    else if start <= entry.value.lastSeen then
      Allowance(cfg.threshold, period, entry.value.lastSeen, to) - entry.value.failures
    else Allowance(cfg.threshold, period, now, to)
  }

  ghost predicate Window(cfg: Config, period: nat, entry: Option<ClientState>, start: Instant, now: Instant,
                         to: Instant) {
    && cfg.Valid() && 1 <= period <= cfg.lockout
    && EntryInv(cfg, entry, now) && start <= now <= to
  }

  lemma TimeSpendsGuesses(cfg: Config, period: nat, entry: Option<ClientState>, start: Instant,
                          now: Instant, later: Instant, to: Instant)
    requires Window(cfg, period, entry, start, now, to) && now <= later
    ensures Remaining(cfg, period, entry, start, later, to) <= Remaining(cfg, period, entry, start, now, to)
  {
    AllowanceShrinks(cfg.threshold, period, now, later, to);
    if entry.Some? && entry.value.lockedUntil.Some? {
      var until := entry.value.lockedUntil.value;
      AllowanceShrinks(cfg.threshold, period, Max(until, now), Max(until, later), to);
    }
  }

  /** The counter after a check that let the request through, or refused it for lack of tokens. */
  lemma CheckSpendsGuesses(cfg: Config, period: nat, entry: Option<ClientState>, start: Instant, now: Instant,
                           to: Instant)
    requires Window(cfg, period, entry, start, now, to)
    ensures var after := Some(CheckEntry(cfg, entry, now).0);
            Remaining(cfg, period, after, start, now, to) <= Remaining(cfg, period, entry, start, now, to)
  {
    if entry.Some? {
      var state := entry.value;
      AllowanceShrinks(cfg.threshold, period, state.lastSeen, now, to);
      if state.lockedUntil.Some? {
        AllowanceShrinks(cfg.threshold, period, Min(state.lockedUntil.value, now), now, to);
      }
    }
  }

  lemma FailureSpendsGuess(cfg: Config, period: nat, state: ClientState, start: Instant, now: Instant, to: Instant)
    requires Window(cfg, period, Some(state), start, now, to)
    requires state.lockedUntil.None? && state.lastSeen == now
    ensures var after := Some(FailureEntry(cfg, Some(state), now).0);
            Remaining(cfg, period, after, start, now, to) + 1 <= Remaining(cfg, period, Some(state), start, now, to)
  {
    if state.failures + 1 >= cfg.threshold {
      PeriodCosts(cfg.threshold, period, now, now + cfg.lockout, to);
    }
  }

  lemma PruneSpendsGuesses(cfg: Config, period: nat, entry: Option<ClientState>, idle: nat,
                           start: Instant, now: Instant, to: Instant)
    requires Window(cfg, period, entry, start, now, to) && period <= idle
    ensures var after := if entry.Some? && Keeps(entry.value, now, idle) then entry else None;
            Remaining(cfg, period, after, start, now, to) <= Remaining(cfg, period, entry, start, now, to)
  {
    if entry.Some? && !Keeps(entry.value, now, idle) && entry.value.lockedUntil.None? {
      PeriodCosts(cfg.threshold, period, entry.value.lastSeen, now, to);
    }
  }

  /** A success starts the count over: it gives back what had been counted, less than a threshold. */
  lemma SuccessReturnsGuesses(cfg: Config, period: nat, state: ClientState, start: Instant, now: Instant, to: Instant)
    requires Window(cfg, period, Some(state), start, now, to)
    requires state.lockedUntil.None? && state.lastSeen == now
    ensures Remaining(cfg, period, Some(SuccessEntry(state)), start, now, to)
         <= Remaining(cfg, period, Some(state), start, now, to) + (cfg.threshold - 1)
  {
  }

  lemma GuessStep(gate: Gate, period: nat, entry: Option<ClientState>, event: Event, source: IpAddr,
                  start: Instant, to: Instant)
    requires gate.Valid() && Window(gate.cfg, period, entry, start, event.at, to)
    requires event.Prune? ==> period <= event.idle
    ensures var verdict := EntryVerdict(gate, entry, event, source);
            Remaining(gate.cfg, period, EntryAfter(gate, entry, event, source), start, event.at, to) + GuessOf(verdict)
            <= Remaining(gate.cfg, period, entry, start, event.at, to) + (gate.cfg.threshold - 1) * SuccessOf(verdict)
  {
    if event.Prune? {
      PruneSpendsGuesses(gate.cfg, period, entry, event.idle, start, event.at, to);
    } else if event.source == source {
      CheckSpendsGuesses(gate.cfg, period, entry, start, event.at, to);
      var (checked, decision) := CheckEntry(gate.cfg, entry, event.at);
      if decision == Allow && gate.expected.Some? {
        FailureSpendsGuess(gate.cfg, period, checked, start, event.at, to);
        SuccessReturnsGuesses(gate.cfg, period, checked, start, event.at, to);
      }
    }
  }

  lemma {:induction false} EntryGuessBound(gate: Gate, period: nat, entry: Option<ClientState>, events: seq<Event>,
                                           source: IpAddr, start: Instant, now: Instant, to: Instant)
    requires gate.Valid() && Window(gate.cfg, period, entry, start, now, to)
    requires Ordered(events, now, to) && EndsBy(events, to) && PrunesAfter(events, period)
    ensures EntryGuesses(gate, entry, events, source)
         <= Remaining(gate.cfg, period, entry, start, now, to)
            + (gate.cfg.threshold - 1) * EntrySuccesses(gate, entry, events, source)
    decreases |events|
  {
    if events == [] {
      RemainingIsCount(gate.cfg, period, entry, start, now, to);
    } else {
      var event, rest := events[0], events[1..];
      var next := EntryAfter(gate, entry, event, source);
      assert event in events && forall e | e in rest :: e in events;
      TimeSpendsGuesses(gate.cfg, period, entry, start, now, event.at, to);
      GuessStep(gate, period, entry, event, source, start, to);
      EntryStepInv(gate, entry, event, source);
      EntryGuessBound(gate, period, next, rest, source, start, event.at, to);
      MulSplit(gate.cfg.threshold - 1, SuccessOf(EntryVerdict(gate, entry, event, source)),
               EntrySuccesses(gate, next, rest, source));
    }
  }

  lemma RemainingIsCount(cfg: Config, period: nat, entry: Option<ClientState>, start: Instant, now: Instant,
                         to: Instant)
    requires Window(cfg, period, entry, start, now, to)
    ensures 0 <= Remaining(cfg, period, entry, start, now, to)
  {
    if entry.Some? && entry.value.lockedUntil.None? {
      var last := entry.value.lastSeen;
      MulMono(cfg.threshold, 1, (to - last) / period + 1);
    }
  }

  lemma RemainingAtStart(cfg: Config, period: nat, entry: Option<ClientState>, start: Instant, to: Instant)
    requires Window(cfg, period, entry, start, start, to)
    ensures Remaining(cfg, period, entry, start, start, to) <= cfg.threshold * ((to - start) / period + 1)
  {
    if entry.Some? && entry.value.lockedUntil.Some? {
      AllowanceShrinks(cfg.threshold, period, start, Max(entry.value.lockedUntil.value, start), to);
    }
  }

  lemma OrderedWindow(gate: Gate, table: Table, window: seq<Event>, source: IpAddr, from: Instant)
    requires gate.Valid() && window != [] && TableInv(gate.cfg, table, from) && Legal(gate, table, window, from)
    ensures var start, to := window[0].at, EndOf(window, 0);
            && start <= to && Ordered(window, start, to) && EndsBy(window, to)
            && EntryInv(gate.cfg, Lookup(table, source), start)
  {
    LegalIsOrdered(gate, table, window, window[0].at, EndOf(window, 0));
  }

  lemma WindowGuessBound(gate: Gate, period: nat, entry: Option<ClientState>, window: seq<Event>, source: IpAddr)
    requires gate.Valid() && window != []
    requires var start, to := window[0].at, EndOf(window, 0);
             && Window(gate.cfg, period, entry, start, start, to) && Ordered(window, start, to) && EndsBy(window, to)
    requires PrunesAfter(window, period)
    ensures EntryGuesses(gate, entry, window, source)
         <= gate.cfg.threshold * ((EndOf(window, 0) - window[0].at) / period + 1)
            + (gate.cfg.threshold - 1) * EntrySuccesses(gate, entry, window, source)
  {
    EntryGuessBound(gate, period, entry, window, source, window[0].at, window[0].at, EndOf(window, 0));
    RemainingAtStart(gate.cfg, period, entry, window[0].at, EndOf(window, 0));
  }

  /**
   The guess bound: after any past, and whatever credentials come in the window, an address gets at
   most `threshold` failed comparisons, `threshold` more for every whole lockout the window lasts, and
   `threshold - 1` more for every request of its own that was authorized. With the watchdog pruning
   entries idle for at least `idle`, a period is the shorter of the two.
   */
  lemma GuessBound(gate: Gate, past: seq<Event>, window: seq<Event>, source: IpAddr, idle: nat)
    requires gate.Valid() && 1 <= idle && Legal(gate, map[], past + window, 0) && window != []
    requires Spares(window, source) && PrunesAfter(window, idle)
    ensures var length := EndOf(window, 0) - window[0].at;
            var table := Run(gate, map[], past);
            Guesses(gate, table, window, source)
            <= gate.cfg.threshold * (length / Min(gate.cfg.lockout, idle) + 1)
               + (gate.cfg.threshold - 1) * Successes(gate, table, window, source)
  {
    var table := Run(gate, map[], past);
    LegalSplit(gate, map[], past, window, 0);
    ReachableInv(gate, map[], past, 0);
    OrderedWindow(gate, table, window, source, EndOf(past, 0));
    GuessesProject(gate, table, window, source);
    WindowGuessBound(gate, Min(gate.cfg.lockout, idle), Lookup(table, source), window, source);
  }

  /** An address that is never authorized in the window, right credential or not, gets the threshold per period. */
  lemma StrangerGuessBound(gate: Gate, past: seq<Event>, window: seq<Event>, source: IpAddr, idle: nat)
    requires gate.Valid() && 1 <= idle && Legal(gate, map[], past + window, 0) && window != []
    requires Spares(window, source) && PrunesAfter(window, idle)
    requires Successes(gate, Run(gate, map[], past), window, source) == 0
    ensures var length := EndOf(window, 0) - window[0].at;
            Guesses(gate, Run(gate, map[], past), window, source)
            <= gate.cfg.threshold * (length / Min(gate.cfg.lockout, idle) + 1)
  {
    GuessBound(gate, past, window, source, idle);
  }

  // ------------------------------------------------ the bound is met

  /**
   With `counted` failures already counted: wrong credentials up to one short of the threshold, then the
   right one, `n` times; then wrong ones up to the threshold.
   */
  function Greedy(source: IpAddr, right: string, wrong: string, threshold: nat, counted: nat, n: nat): seq<Event>
    decreases n, threshold - counted
  {
    if counted + 1 < threshold then
      [Request(source, 0, wrong, None)] + Greedy(source, right, wrong, threshold, counted + 1, n)
    else if n == 0 then [Request(source, 0, wrong, None)]
    else [Request(source, 0, right, None)] + Greedy(source, right, wrong, threshold, 0, n - 1)
  }

  predicate FromOneAtOnce(events: seq<Event>, source: IpAddr) {
    forall e | e in events :: e.Request? && e.source == source && e.at == 0 && e.victim == None
  }

  lemma {:induction false} GreedyAtOnce(source: IpAddr, right: string, wrong: string, threshold: nat, counted: nat,
                                        n: nat)
    ensures FromOneAtOnce(Greedy(source, right, wrong, threshold, counted, n), source)
    decreases n, threshold - counted
  {
    if counted + 1 < threshold {
      GreedyAtOnce(source, right, wrong, threshold, counted + 1, n);
    } else if n != 0 {
      GreedyAtOnce(source, right, wrong, threshold, 0, n - 1);
    }
  }

  /** A tracked address needs no room, so its requests can follow each other. */
  lemma {:induction false} OneAddressIsLegal(gate: Gate, table: Table, events: seq<Event>, source: IpAddr)
    requires gate.Valid() && FromOneAtOnce(events, source) && !NeedsRoom(table, source)
    ensures Legal(gate, table, events, 0)
    decreases |events|
  {
    if events != [] {
      assert events[0] in events && forall e | e in events[1..] :: e in events;
      assert source in Apply(gate, table, events[0]);
      OneAddressIsLegal(gate, Apply(gate, table, events[0]), events[1..], source);
    }
  }

  /** An address with `counted` failures against it and a request's worth of tokens for each event to come. */
  predicate CanAfford(cfg: Config, entry: Option<ClientState>, counted: nat, events: seq<Event>) {
    && counted < cfg.threshold
    && REQUEST * |events| <= Interleavings.Potential(cfg, entry, 0) <= cfg.Capacity()
    && match entry
       case None => counted == 0
       case Some(state) => state.lastSeen == 0 && state.failures == counted && state.lockedUntil.None?
  }

  lemma GreedyStep(gate: Gate, entry: Option<ClientState>, counted: nat, events: seq<Event>, source: IpAddr)
    requires gate.Valid() && gate.expected.Some? && events != []
    requires FromOneAtOnce(events, source) && CanAfford(gate.cfg, entry, counted, events)
    ensures var after := EntryAfter(gate, entry, events[0], source);
            var verdict := EntryVerdict(gate, entry, events[0], source);
            if events[0].supplied == gate.expected.value then
              verdict == Some(Authorized) && CanAfford(gate.cfg, after, 0, events[1..])
            else
              && verdict == Some(Unauthorized(counted + 1 == gate.cfg.threshold))
              && (counted + 1 < gate.cfg.threshold ==> CanAfford(gate.cfg, after, counted + 1, events[1..]))
  {
    assert events[0] in events;
    MulSplit(REQUEST, 1, |events| - 1);
    MulMono(gate.cfg.rate, 0, 0);
  }

  lemma {:induction false} GreedyGuesses(gate: Gate, entry: Option<ClientState>, source: IpAddr, right: string,
                                         wrong: string, counted: nat, n: nat)
    requires gate.Valid() && gate.expected == Some(right) && wrong != right
    requires CanAfford(gate.cfg, entry, counted, Greedy(source, right, wrong, gate.cfg.threshold, counted, n))
    ensures var greedy := Greedy(source, right, wrong, gate.cfg.threshold, counted, n);
            && EntryGuesses(gate, entry, greedy, source)
               == gate.cfg.threshold - counted + (gate.cfg.threshold - 1) * n
            && EntrySuccesses(gate, entry, greedy, source) == n
    decreases n, gate.cfg.threshold - counted
  {
    var threshold := gate.cfg.threshold;
    var greedy := Greedy(source, right, wrong, threshold, counted, n);
    GreedyAtOnce(source, right, wrong, threshold, counted, n);
    GreedyStep(gate, entry, counted, greedy, source);
    var after := EntryAfter(gate, entry, greedy[0], source);
    if counted + 1 < threshold {
      assert greedy[0].supplied == wrong && greedy[1..] == Greedy(source, right, wrong, threshold, counted + 1, n);
      GreedyGuesses(gate, after, source, right, wrong, counted + 1, n);
    } else if n != 0 {
      assert greedy[0].supplied == right && greedy[1..] == Greedy(source, right, wrong, threshold, 0, n - 1);
      GreedyGuesses(gate, after, source, right, wrong, 0, n - 1);
      MulSplit(threshold - 1, n - 1, 1);
    } else {
      assert greedy == [Request(source, 0, wrong, None)];
      assert EntryGuesses(gate, after, [], source) == 0 == EntrySuccesses(gate, after, [], source);
    }
  }

  /**
   The bound cannot be lowered: whatever the threshold and the number of successes, if the bucket is
   large enough, a run from the empty table, all at one instant, makes as many guesses as it allows.
   */
  lemma GuessBoundIsMet(cfg: Config, source: IpAddr, right: string, wrong: string, n: nat)
    requires cfg.Valid() && wrong != right
    requires |Greedy(source, right, wrong, cfg.threshold, 0, n)| <= cfg.rate
    ensures var gate, window := Gate(cfg, Some(right)), Greedy(source, right, wrong, cfg.threshold, 0, n);
            && Legal(gate, map[], window, 0) && Spares(window, source)
            && window != [] && window[0].at == EndOf(window, 0)
            && Successes(gate, map[], window, source) == n
            && Guesses(gate, map[], window, source) == cfg.threshold + (cfg.threshold - 1) * n
  {
    var gate, window := Gate(cfg, Some(right)), Greedy(source, right, wrong, cfg.threshold, 0, n);
    GreedyAtOnce(source, right, wrong, cfg.threshold, 0, n);
    OneAddressIsLegal(gate, map[], window, source);
    GuessesProject(gate, map[], window, source);
    MulMono(REQUEST, |window|, cfg.rate);
    GreedyGuesses(gate, None, source, right, wrong, 0, n);
  }

  // ------------------------------------------------ no early lockout

  function Counted(entry: Option<ClientState>): nat {
    if entry.Some? then entry.value.failures else 0
  }

  /** An event counts at most its own failed comparison, and a right credential starts the count over. */
  lemma CountStep(gate: Gate, entry: Option<ClientState>, event: Event, source: IpAddr)
    requires gate.Valid() && RateLimit.Unlocked(entry)
    requires Counted(entry) + GuessOf(EntryVerdict(gate, entry, event, source)) < gate.cfg.threshold
    ensures var after, verdict := EntryAfter(gate, entry, event, source), EntryVerdict(gate, entry, event, source);
            && RateLimit.Unlocked(after)
            && Counted(after) <= Counted(entry) + GuessOf(verdict)
            && (verdict.Some? && verdict.value.Authorized? ==> Counted(after) == 0)
            && !SaysLockedOut(verdict)
  {
  }

  predicate NeverLockedOut(gate: Gate, table: Table, events: seq<Event>, source: IpAddr)
    requires gate.Valid()
    decreases |events|
  {
    events == [] || (
      && !SaysLockedOut(VerdictFor(gate, table, events[0], source))
      && NeverLockedOut(gate, Apply(gate, table, events[0]), events[1..], source))
  }

  /**
   The other side of the bound: an address with fewer than `threshold` failures counted, old and new
   together, is never locked out, however the failures are spread.
   */
  lemma {:induction false} NoEarlyLockout(gate: Gate, table: Table, events: seq<Event>, source: IpAddr)
    requires gate.Valid() && Spares(events, source) && RateLimit.Unlocked(Lookup(table, source))
    requires Counted(Lookup(table, source)) + Guesses(gate, table, events, source) < gate.cfg.threshold
    ensures NeverLockedOut(gate, table, events, source)
    ensures RateLimit.Unlocked(Lookup(Run(gate, table, events), source))
    decreases |events|
  {
    if events != [] {
      assert events[0] in events && forall e | e in events[1..] :: e in events;
      Projects(gate, table, events[0], source);
      CountStep(gate, Lookup(table, source), events[0], source);
      NoEarlyLockout(gate, Apply(gate, table, events[0]), events[1..], source);
    }
  }

  /**
   The failure that completes the threshold locks the address for exactly `lockout`: until then not
   even the right credential passes, and from then on it does, as soon as the bucket holds a request.
   */
  lemma LockoutLastsExactly(gate: Gate, state: ClientState, now: Instant, at: Instant)
    requires gate.Valid() && gate.expected.Some? && EntryOk(gate.cfg, state) && state.lockedUntil.None? && now <= at
    ensures var (after, locks) := FailureEntry(gate.cfg, Some(state), now);
            var verdict := GateEntry(gate, Some(after), at, gate.expected.value).1;
            && (locks <==> state.failures + 1 == gate.cfg.threshold)
            && (locks ==>
                  && ((verdict.Throttled? && verdict.decision.LockedOut?) <==> at < now + gate.cfg.lockout)
                  && (now + gate.cfg.lockout <= at && REQUEST <= Refilled(gate.cfg, after, at) ==>
                        verdict == Authorized))
            && (!locks && REQUEST <= Refilled(gate.cfg, after, at) ==> verdict == Authorized)
  {
  }

  /** Of concurrent failures the one that locks decides: a later one is counted, but neither locks nor extends. */
  lemma LateFailure(cfg: Config, state: ClientState, now: Instant)
    requires cfg.Valid() && state.lockedUntil.Some? && state.failures < U32_MAX
    ensures var (after, locks) := FailureEntry(cfg, Some(state), now);
            && !locks && after.failures == state.failures + 1
            && forall at: Instant :: CheckEntry(cfg, Some(after), at).1.LockedOut? <==> at < state.lockedUntil.value
  {
  }

  /** A success forgives: whatever was counted or locked, the address is open and its count starts over. */
  lemma SuccessForgives(cfg: Config, table: Table, source: IpAddr, at: Instant)
    requires cfg.Valid() && source in table
    ensures var after := SuccessTable(table, source);
            && RateLimit.Unlocked(Lookup(after, source)) && Counted(Lookup(after, source)) == 0
            && !CheckTable(cfg, after, source, at, None).1.LockedOut?
            && forall other | other != source :: Lookup(after, other) == Lookup(table, other)
  {
  }

  /** A failure is a sighting: whatever the address had been doing, no prune forgets it before `idle` has passed. */
  lemma FailureIsSeen(cfg: Config, table: Table, source: IpAddr, now: Instant, at: Instant, idle: nat)
    requires cfg.Valid() && now <= at < now + idle
    ensures source in PruneTable(FailureTable(cfg, table, source, now).0, at, idle)
  {
  }
}
