/** The pressure each source puts on the authentication of a server, and the four rules that judge it. */
module Intrusion {
  import opened Wrappers
  import opened Models
  import opened Ordering

  datatype AuthOutcome = Failure | Success {
    function Name(): string {
      match this
      case Failure => "failure"
      case Success => "success"
    }
  }

  datatype AuthEvent = AuthEvent(
    service: string, source: string, username: Option<string>, outcome: AuthOutcome, count: U32, lastSeen: Time)

  datatype SourcePressure = SourcePressure(
    failures: U32, successes: U32, usernames: set<string>, services: set<string>, lastSeen: Option<Time>)

  const NO_PRESSURE: SourcePressure := SourcePressure(0, 0, {}, {}, None)

  datatype IntrusionPolicy = IntrusionPolicy(high: nat, critical: nat, sprayed: nat, distributed: nat) {
    predicate Valid() {
      1 <= high <= critical
    }
  }

  // ------------------------------------------------ pressure, as an algebra

  function Latest(a: Option<Time>, b: Option<Time>): Option<Time> {
    if a.None? then b else if b.None? then a else Some(Max(a.value, b.value))
  }

  function Plus(p: SourcePressure, q: SourcePressure): SourcePressure {
    SourcePressure(SatAdd32(p.failures, q.failures), SatAdd32(p.successes, q.successes),
                   p.usernames + q.usernames, p.services + q.services, Latest(p.lastSeen, q.lastSeen))
  }

  /** What one event adds to the pressure of `source`. */
  function Contribution(e: AuthEvent, source: string): SourcePressure {
    if e.source != source then NO_PRESSURE
    else
      SourcePressure(if e.outcome == Failure then e.count else 0,
                     if e.outcome == Success then e.count else 0,
                     if e.username.Some? then {e.username.value} else {},
                     {e.service}, Some(e.lastSeen))
  }

  function Pressure(events: seq<AuthEvent>, source: string): SourcePressure {
    if events == [] then NO_PRESSURE
    else Plus(Pressure(events[..|events| - 1], source), Contribution(events[|events| - 1], source))
  }

  function Sources(events: seq<AuthEvent>): set<string> {
    set e | e in events :: e.source
  }

  lemma PlusCommutes(p: SourcePressure, q: SourcePressure)
    ensures Plus(p, q) == Plus(q, p)
  {
  }

  lemma PlusAssociates(p: SourcePressure, q: SourcePressure, r: SourcePressure)
    ensures Plus(Plus(p, q), r) == Plus(p, Plus(q, r))
  {
  }

  lemma PlusNothing(p: SourcePressure)
    ensures Plus(p, NO_PRESSURE) == p && Plus(NO_PRESSURE, p) == p
  {
  }

  lemma {:induction false} PressureConcat(a: seq<AuthEvent>, b: seq<AuthEvent>, source: string)
    ensures Pressure(a + b, source) == Plus(Pressure(a, source), Pressure(b, source))
  {
    if b == [] {
      assert a + b == a;
      PlusNothing(Pressure(a, source));
    } else {
      var init, last := b[..|b| - 1], b[|b| - 1];
      assert (a + b)[..|a + b| - 1] == a + init;
      PressureConcat(a, init, source);
      PlusAssociates(Pressure(a, source), Pressure(init, source), Contribution(last, source));
    }
  }

  lemma PressureOfOne(e: AuthEvent, source: string)
    ensures Pressure([e], source) == Contribution(e, source)
  {
    assert [e][..0] == [];
    PlusNothing(Contribution(e, source));
  }

  lemma DropOne(a: seq<AuthEvent>, b: seq<AuthEvent>, j: nat)
    requires multiset(a) == multiset(b) && a != [] && j < |b| && b[j] == a[|a| - 1]
    ensures multiset(a[..|a| - 1]) == multiset(b[..j] + b[j + 1..])
    ensures b == b[..j] + [b[j]] + b[j + 1..]
  {
    var init, left, right := a[..|a| - 1], b[..j], b[j + 1..];
    assert a == init + [b[j]];
    assert b == left + [b[j]] + right;
    assert multiset(init) == multiset(a) - multiset{b[j]};
    assert multiset(left + right) == multiset(b) - multiset{b[j]};
  }

  lemma MoveLast(left: seq<AuthEvent>, e: AuthEvent, right: seq<AuthEvent>, source: string)
    ensures Pressure(left + [e] + right, source) == Plus(Pressure(left + right, source), Contribution(e, source))
  {
    PressureConcat(left, right, source);
    PressureConcat(left + [e], right, source);
    PressureConcat(left, [e], source);
    PressureOfOne(e, source);
    var l, r, c := Pressure(left, source), Pressure(right, source), Contribution(e, source);
    PlusAssociates(l, c, r);
    PlusCommutes(c, r);
    PlusAssociates(l, r, c);
  }

  /** Pressure does not depend on the order in which events were reported. */
  lemma {:induction false} PressurePermutes(a: seq<AuthEvent>, b: seq<AuthEvent>, source: string)
    requires multiset(a) == multiset(b)
    ensures Pressure(a, source) == Pressure(b, source)
    decreases |a|
  {
    if a == [] {
      assert |multiset(a)| == |multiset(b)|;
    } else {
      assert a[|a| - 1] in multiset(b);
      var j :| 0 <= j < |b| && b[j] == a[|a| - 1];
      DropOne(a, b, j);
      PressurePermutes(a[..|a| - 1], b[..j] + b[j + 1..], source);
      MoveLast(b[..j], b[j], b[j + 1..], source);
    }
  }

  lemma PressureOfBag(a: seq<AuthEvent>, b: seq<AuthEvent>, e: AuthEvent, source: string)
    requires multiset(a) == multiset(b) + multiset{e}
    ensures Pressure(a, source) == Plus(Pressure(b, source), Contribution(e, source))
  {
    PressurePermutes(a, b + [e], source);
    assert (b + [e])[..|b|] == b;
  }

  lemma {:induction false} PressureSeen(events: seq<AuthEvent>, source: string)
    ensures source in Sources(events) <==> Pressure(events, source).services != {}
    ensures source !in Sources(events) ==> Pressure(events, source) == NO_PRESSURE
  {
    if events != [] {
      var past, last := events[..|events| - 1], events[|events| - 1];
      assert events == past + [last];
      PressureSeen(past, source);
      PlusNothing(Pressure(past, source));
      assert source in Sources(events) <==> source in Sources(past) || last.source == source;
    }
  }

  // ------------------------------------------------ the rules

  datatype AuthRule = Bruteforce | Spray | SuccessAfterBurst

  function RuleName(rule: AuthRule): string {
    match rule
    case Bruteforce => RuleId(Category.Intrusion, "auth.bruteforce")
    case Spray => RuleId(Category.Intrusion, "auth.spray")
    case SuccessAfterBurst => RuleId(Category.Intrusion, "auth.success_after_burst")
  }

  function DistributedRule(): string {
    RuleId(Category.Intrusion, "auth.distributed")
  }

  predicate Fires(policy: IntrusionPolicy, rule: AuthRule, p: SourcePressure) {
    && p.failures > 0
    && match rule
       case Bruteforce => p.failures >= policy.high
       case Spray => |p.usernames| >= policy.sprayed
       case SuccessAfterBurst => p.successes > 0 && p.failures >= policy.high
  }

  function SeverityBy(policy: IntrusionPolicy, rule: AuthRule, p: SourcePressure): Severity {
    match rule
    case Bruteforce => if p.failures >= policy.critical then Critical else High
    case Spray => High
    case SuccessAfterBurst => Critical
  }

  function EvidenceBy(policy: IntrusionPolicy, rule: AuthRule, p: SourcePressure, at: Time): seq<Evidence> {
    var observedAt := if p.lastSeen.Some? then p.lastSeen.value else at;
    match rule
    case Bruteforce => [Metric("auth.failures.by_source", p.failures, policy.high, observedAt),
                        Names("auth.services", p.services, observedAt)]
    case Spray => [Metric("auth.usernames.distinct", |p.usernames|, policy.sprayed, observedAt)]
    case SuccessAfterBurst => [Metric("auth.success_after_failures", p.successes, 1, observedAt),
                               Names("auth.usernames", p.usernames, observedAt)]
  }

  function Finding(policy: IntrusionPolicy, agent: Uuid, rule: AuthRule, source: string, p: SourcePressure, at: Time)
    : IncidentCandidate
  {
    IncidentCandidate(Fingerprint(agent, RuleName(rule), source), agent, SeverityBy(policy, rule, p),
                      Category.Intrusion, EvidenceBy(policy, rule, p, at), source)
  }

  function OneFinding(policy: IntrusionPolicy, agent: Uuid, rule: AuthRule, source: string, p: SourcePressure, at: Time)
    : seq<IncidentCandidate>
  {
    if Fires(policy, rule, p) then [Finding(policy, agent, rule, source, p, at)] else []
  }

  function SourceFindings(policy: IntrusionPolicy, agent: Uuid, source: string, p: SourcePressure, at: Time)
    : seq<IncidentCandidate>
  {
    OneFinding(policy, agent, Bruteforce, source, p, at)
    + OneFinding(policy, agent, Spray, source, p, at)
    + OneFinding(policy, agent, SuccessAfterBurst, source, p, at)
  }

  function AllSourceFindings(policy: IntrusionPolicy, agent: Uuid, events: seq<AuthEvent>, sources: seq<string>,
                             at: Time)
    : seq<IncidentCandidate>
  {
    if sources == [] then []
    else
      var last := sources[|sources| - 1];
      AllSourceFindings(policy, agent, events, sources[..|sources| - 1], at)
      + SourceFindings(policy, agent, last, Pressure(events, last), at)
  }

  /** The sources that failed at least once. */
  function Pressing(events: seq<AuthEvent>, among: set<string>): set<string> {
    set source | source in among && Pressure(events, source).failures > 0
  }

  function DistributedFinding(policy: IntrusionPolicy, agent: Uuid, sources: nat, at: Time): IncidentCandidate {
    IncidentCandidate(Fingerprint(agent, DistributedRule(), ""), agent, High, Category.Intrusion,
                      [Metric("auth.sources.distinct", sources, policy.distributed, at)], "")
  }

  function SpreadFindings(policy: IntrusionPolicy, agent: Uuid, sources: nat, at: Time): seq<IncidentCandidate> {
    if sources >= policy.distributed then [DistributedFinding(policy, agent, sources, at)] else []
  }

  /** Sources in address order. */
  ghost function SourceOrder(events: seq<AuthEvent>): seq<string> {
    StringOrder();
    SortedKeys(StringLe, Sources(events))
  }

  method OrderSources(ghost events: seq<AuthEvent>, keys: set<string>) returns (sources: seq<string>)
    requires keys == Sources(events)
    ensures sources == SourceOrder(events)
    ensures forall source :: source in sources <==> source in keys
    ensures forall i | 0 <= i < |sources| :: sources[i] !in sources[..i]
    ensures Prefix(sources, |sources|) == keys
  {
    StringOrder();
    sources := SortKeys(StringLe, keys);
    SortedKeysCover(StringLe, keys);
    forall i | 0 <= i < |sources| ensures sources[i] !in sources[..i] {
      SortedSource(keys, i);
    }
  }

  /** Every authentication finding of one report, sources in address order. */
  ghost function AuthFindings(policy: IntrusionPolicy, agent: Uuid, events: seq<AuthEvent>, at: Time)
    : seq<IncidentCandidate>
  {
    AllSourceFindings(policy, agent, events, SourceOrder(events), at)
    + SpreadFindings(policy, agent, |Pressing(events, Sources(events))|, at)
  }

  method Press(pressure: SourcePressure, event: AuthEvent) returns (entry: SourcePressure)
    ensures entry == Plus(pressure, Contribution(event, event.source))
  {
    entry := pressure;
    match event.outcome {
      case Failure => entry := entry.(failures := SatAdd32(entry.failures, event.count));
      case Success => entry := entry.(successes := SatAdd32(entry.successes, event.count));
    }
    if event.username.Some? {
      entry := entry.(usernames := entry.usernames + {event.username.value});
    }
    entry := entry.(services := entry.services + {event.service},
                    lastSeen := Some(if entry.lastSeen.Some? then Max(entry.lastSeen.value, event.lastSeen)
                                     else event.lastSeen));
  }

  lemma OneMore(events: seq<AuthEvent>, i: nat, source: string)
    requires i < |events|
    ensures Sources(events[..i + 1]) == Sources(events[..i]) + {events[i].source}
    ensures Pressure(events[..i + 1], source)
         == if events[i].source == source then Plus(Pressure(events[..i], source), Contribution(events[i], source))
            else Pressure(events[..i], source)
    ensures source !in Sources(events[..i]) ==> Pressure(events[..i], source) == NO_PRESSURE
  {
    assert events[..i + 1][..i] == events[..i];
    assert events[..i + 1] == events[..i] + [events[i]];
    PlusNothing(Pressure(events[..i], source));
    PressureSeen(events[..i], source);
  }

  method PressureBySource(events: seq<AuthEvent>) returns (bySource: map<string, SourcePressure>)
    ensures bySource.Keys == Sources(events)
    ensures forall source | source in bySource :: bySource[source] == Pressure(events, source)
  {
    bySource := map[];
    for i := 0 to |events|
      invariant bySource.Keys == Sources(events[..i])
      invariant forall source | source in bySource :: bySource[source] == Pressure(events[..i], source)
    {
      var event := events[i];
      forall source
        ensures Pressure(events[..i + 1], source)
             == if event.source == source then Plus(Pressure(events[..i], source), Contribution(event, source))
                else Pressure(events[..i], source)
      {
        OneMore(events, i, source);
      }
      OneMore(events, i, event.source);
      var entry := if event.source in bySource then bySource[event.source] else NO_PRESSURE;
      entry := Press(entry, event);
      bySource := bySource[event.source := entry];
    }
    assert events[..|events|] == events;
  }

  function Prefix(sources: seq<string>, i: nat): set<string>
    requires i <= |sources|
  {
    set source | source in sources[..i]
  }

  lemma PressingGrows(events: seq<AuthEvent>, sources: seq<string>, i: nat)
    requires i < |sources| && sources[i] !in sources[..i]
    ensures |Pressing(events, Prefix(sources, i + 1))|
         == |Pressing(events, Prefix(sources, i))| + if Pressure(events, sources[i]).failures > 0 then 1 else 0
  {
    var before, after := Pressing(events, Prefix(sources, i)), Pressing(events, Prefix(sources, i + 1));
    assert sources[..i + 1] == sources[..i] + [sources[i]];
    assert after == if Pressure(events, sources[i]).failures > 0 then before + {sources[i]} else before;
  }

  lemma SortedSource(keys: set<string>, i: nat)
    requires TotalOrder(StringLe) && i < |keys|
    ensures SortedKeys(StringLe, keys)[i] !in SortedKeys(StringLe, keys)[..i]
  {
    forall j | 0 <= j < i ensures SortedKeys(StringLe, keys)[j] != SortedKeys(StringLe, keys)[i] {
      SortedKeysAscend(StringLe, keys, j, i);
    }
  }

  method Judge(policy: IntrusionPolicy, agent: Uuid, source: string, pressure: SourcePressure, at: Time)
    returns (findings: seq<IncidentCandidate>)
    requires pressure.failures > 0
    ensures findings == SourceFindings(policy, agent, source, pressure, at)
  {
    findings := [];
    if pressure.failures >= policy.high {
      findings := findings + [Finding(policy, agent, Bruteforce, source, pressure, at)];
    }
    if |pressure.usernames| >= policy.sprayed {
      findings := findings + [Finding(policy, agent, Spray, source, pressure, at)];
    }
    if pressure.successes > 0 && pressure.failures >= policy.high {
      findings := findings + [Finding(policy, agent, SuccessAfterBurst, source, pressure, at)];
    }
  }

  method JudgeAll(policy: IntrusionPolicy, agent: Uuid, ghost events: seq<AuthEvent>,
                  bySource: map<string, SourcePressure>, sources: seq<string>, at: Time)
    returns (findings: seq<IncidentCandidate>, pressured: nat)
    requires forall source | source in sources :: source in bySource && bySource[source] == Pressure(events, source)
    requires forall i | 0 <= i < |sources| :: sources[i] !in sources[..i]
    ensures findings == AllSourceFindings(policy, agent, events, sources, at)
    ensures pressured == |Pressing(events, Prefix(sources, |sources|))|
  {
    findings, pressured := [], 0;
    for i := 0 to |sources|
      invariant findings == AllSourceFindings(policy, agent, events, sources[..i], at)
      invariant pressured == |Pressing(events, Prefix(sources, i))|
    {
      PressingGrows(events, sources, i);
      OneMoreSource(policy, agent, events, sources, i, at);
      var pressure := bySource[sources[i]];
      if pressure.failures == 0 {
        continue;
      }
      pressured := pressured + 1;
      var own := Judge(policy, agent, sources[i], pressure, at);
      findings := findings + own;
    }
    assert sources[..|sources|] == sources;
  }

  method Authentication(policy: IntrusionPolicy, agent: Uuid, events: seq<AuthEvent>, at: Time)
    returns (findings: seq<IncidentCandidate>)
    ensures findings == AuthFindings(policy, agent, events, at)
  {
    var bySource := PressureBySource(events);
    var sources := OrderSources(events, bySource.Keys);
    var pressured;
    findings, pressured := JudgeAll(policy, agent, events, bySource, sources, at);
    if pressured >= policy.distributed {
      findings := findings + [DistributedFinding(policy, agent, pressured, at)];
    }
  }

  lemma OneMoreSource(policy: IntrusionPolicy, agent: Uuid, events: seq<AuthEvent>, sources: seq<string>, i: nat,
                      at: Time)
    requires i < |sources|
    ensures var p := Pressure(events, sources[i]);
            AllSourceFindings(policy, agent, events, sources[..i + 1], at)
            == AllSourceFindings(policy, agent, events, sources[..i], at)
               + if p.failures == 0 then [] else SourceFindings(policy, agent, sources[i], p, at)
  {
    assert sources[..i + 1][..i] == sources[..i];
  }
}
