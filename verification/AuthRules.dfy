/** What the authentication rules conclude of a report, in counts of its events. */
module AuthRules {
  import opened Wrappers
  import opened Models
  import opened Detect
  import opened Intrusion
  import opened AuthDetection

  /** The counts of the events of `source` with this outcome, added up. */
  function Total(events: seq<AuthEvent>, source: string, outcome: AuthOutcome): nat {
    if events == [] then 0
    else
      var last := events[|events| - 1];
      Total(events[..|events| - 1], source, outcome)
      + if last.source == source && last.outcome == outcome then last.count else 0
  }

  /** The user names tried from `source`. */
  function Tried(events: seq<AuthEvent>, source: string): set<string> {
    set e | e in events && e.source == source && e.username.Some? :: e.username.value
  }

  function Services(events: seq<AuthEvent>, source: string): set<string> {
    set e | e in events && e.source == source :: e.service
  }

  /** The latest event of `source`, if there is one. */
  ghost predicate IsLatest(events: seq<AuthEvent>, source: string, seen: Option<Time>) {
    && (seen.None? <==> forall e | e in events :: e.source != source)
    && (seen.Some? ==>
          && (exists e | e in events :: e.source == source && e.lastSeen == seen.value)
          && forall e | e in events && e.source == source :: e.lastSeen <= seen.value)
  }

  lemma {:induction false} TotalsExactly(events: seq<AuthEvent>, source: string)
    ensures Pressure(events, source).failures == Min(Total(events, source, Failure), U32_MAX)
    ensures Pressure(events, source).successes == Min(Total(events, source, Success), U32_MAX)
  {
    if events != [] {
      TotalsExactly(events[..|events| - 1], source);
    }
  }

  lemma {:induction false} NamesExactly(events: seq<AuthEvent>, source: string)
    ensures Pressure(events, source).usernames == Tried(events, source)
    ensures Pressure(events, source).services == Services(events, source)
  {
    if events != [] {
      var past, last := events[..|events| - 1], events[|events| - 1];
      assert events == past + [last];
      NamesExactly(past, source);
    }
  }

  lemma {:induction false} LatestExactly(events: seq<AuthEvent>, source: string)
    ensures IsLatest(events, source, Pressure(events, source).lastSeen)
  {
    if events != [] {
      var past, last := events[..|events| - 1], events[|events| - 1];
      assert events == past + [last];
      LatestExactly(past, source);
    }
  }

  /** The pressure of a source is what its events add up to: saturated counts, the names tried, the last sighting. */
  lemma PressureExactly(events: seq<AuthEvent>, source: string)
    ensures var p := Pressure(events, source);
            && p.failures == Min(Total(events, source, Failure), U32_MAX)
            && p.successes == Min(Total(events, source, Success), U32_MAX)
            && p.usernames == Tried(events, source) && p.services == Services(events, source)
            && IsLatest(events, source, p.lastSeen)
  {
    TotalsExactly(events, source);
    NamesExactly(events, source);
    LatestExactly(events, source);
  }

  // ------------------------------------------------ the rules, by name

  lemma RuleNames()
    ensures RuleName(Bruteforce) == "intrusion." + "auth.bruteforce"
    ensures RuleName(Spray) == "intrusion." + "auth.spray"
    ensures RuleName(SuccessAfterBurst) == "intrusion." + "auth.success_after_burst"
    ensures DistributedRule() == "intrusion." + "auth.distributed"
  {
    assert Category.Intrusion.Name() + "." == "intrusion.";
  }

  /** A finding under a rule's fingerprint is that rule's finding. */
  lemma FindingOfRule(policy: IntrusionPolicy, agent: Uuid, events: seq<AuthEvent>, at: Time, rule: AuthRule,
                      source: string, c: IncidentCandidate)
    requires c in AuthFindings(policy, agent, events, at)
    requires c.fingerprint == Fingerprint(agent, RuleName(rule), source)
    ensures Fires(policy, rule, Pressure(events, source))
    ensures c == Finding(policy, agent, rule, source, Pressure(events, source), at)
  {
    FindingsOf(policy, agent, events, at, c);
    DistributedApart(agent, rule, source);
    var s, r :| RaisedBy(policy, agent, events, at, r, s, c);
    RuleAndSourceUnique(agent, r, s, rule, source);
  }

  lemma SeenInReport(events: seq<AuthEvent>, source: string)
    requires Pressure(events, source).failures > 0
    ensures Pressure(events, source).lastSeen.Some?
  {
    PressureSeen(events, source);
    LatestExactly(events, source);
    var e :| e in events && e.source == source;
  }

  /** Failed attempts from `source`, as far as a counter reaches. */
  function Failures(events: seq<AuthEvent>, source: string): nat {
    Min(Total(events, source, Failure), 4_294_967_295)
  }

  function Successes(events: seq<AuthEvent>, source: string): nat {
    Min(Total(events, source, Success), 4_294_967_295)
  }

  /**
   Brute force, from the events: reported for an address iff its failures reach the threshold, critical
   iff they reach the critical one, with their number and the services tried as evidence.
   */
  lemma BruteforceExactly(policy: IntrusionPolicy, agent: Uuid, events: seq<AuthEvent>, at: Time, source: string)
    ensures var findings := AuthFindings(policy, agent, events, at);
            var f := Fingerprint(agent, "intrusion." + "auth.bruteforce", source);
            var failures := Failures(events, source);
            && (Reported(findings, f) <==> failures > 0 && failures >= policy.high)
            && forall c | c in findings && c.fingerprint == f ::
                 && c.severity == (if failures >= policy.critical then Critical else High)
                 && exists seen :: IsLatest(events, source, Some(seen))
                      && c.evidence == [Metric("auth.failures.by_source", failures, policy.high, seen),
                                        Names("auth.services", Services(events, source), seen)]
  {
    RuleNames();
    PressureExactly(events, source);
    ReportsExactly(policy, agent, events, at, Bruteforce, source);
    forall c | c in AuthFindings(policy, agent, events, at)
               && c.fingerprint == Fingerprint(agent, RuleName(Bruteforce), source)
      ensures c == Finding(policy, agent, Bruteforce, source, Pressure(events, source), at)
      ensures Pressure(events, source).lastSeen.Some?
    {
      FindingOfRule(policy, agent, events, at, Bruteforce, source, c);
      SeenInReport(events, source);
    }
  }

  /** A spray, from the events: enough distinct names tried from an address that failed at least once. */
  lemma SprayExactly(policy: IntrusionPolicy, agent: Uuid, events: seq<AuthEvent>, at: Time, source: string)
    ensures var findings := AuthFindings(policy, agent, events, at);
            var f := Fingerprint(agent, "intrusion." + "auth.spray", source);
            var tried := |Tried(events, source)|;
            && (Reported(findings, f) <==> Failures(events, source) > 0 && tried >= policy.sprayed)
            && forall c | c in findings && c.fingerprint == f ::
                 && c.severity == High
                 && exists seen :: IsLatest(events, source, Some(seen))
                      && c.evidence == [Metric("auth.usernames.distinct", tried, policy.sprayed, seen)]
  {
    RuleNames();
    PressureExactly(events, source);
    ReportsExactly(policy, agent, events, at, Spray, source);
    forall c | c in AuthFindings(policy, agent, events, at)
               && c.fingerprint == Fingerprint(agent, RuleName(Spray), source)
      ensures c == Finding(policy, agent, Spray, source, Pressure(events, source), at)
      ensures Pressure(events, source).lastSeen.Some?
    {
      FindingOfRule(policy, agent, events, at, Spray, source, c);
      SeenInReport(events, source);
    }
  }

  /** Access after a burst, from the events: a success from an address whose failures reach the threshold. */
  lemma BurstExactly(policy: IntrusionPolicy, agent: Uuid, events: seq<AuthEvent>, at: Time, source: string)
    ensures var findings := AuthFindings(policy, agent, events, at);
            var f := Fingerprint(agent, "intrusion." + "auth.success_after_burst", source);
            var failures, successes := Failures(events, source), Successes(events, source);
            && (Reported(findings, f) <==> successes > 0 && failures > 0 && failures >= policy.high)
            && forall c | c in findings && c.fingerprint == f ::
                 && c.severity == Critical
                 && exists seen :: IsLatest(events, source, Some(seen))
                      && c.evidence == [Metric("auth.success_after_failures", successes, 1, seen),
                                        Names("auth.usernames", Tried(events, source), seen)]
  {
    RuleNames();
    PressureExactly(events, source);
    ReportsExactly(policy, agent, events, at, SuccessAfterBurst, source);
    forall c | c in AuthFindings(policy, agent, events, at)
               && c.fingerprint == Fingerprint(agent, RuleName(SuccessAfterBurst), source)
      ensures c == Finding(policy, agent, SuccessAfterBurst, source, Pressure(events, source), at)
      ensures Pressure(events, source).lastSeen.Some?
    {
      FindingOfRule(policy, agent, events, at, SuccessAfterBurst, source, c);
      SeenInReport(events, source);
    }
  }

  /** The addresses with a failed attempt. */
  function Failing(events: seq<AuthEvent>): set<string> {
    set e | e in events && e.outcome == Failure && e.count > 0 :: e.source
  }

  lemma {:induction false} TotalPositive(events: seq<AuthEvent>, source: string)
    ensures Total(events, source, Failure) > 0 <==> source in Failing(events)
  {
    if events != [] {
      var past, last := events[..|events| - 1], events[|events| - 1];
      assert events == past + [last];
      TotalPositive(past, source);
      assert source in Failing(events)
        <==> source in Failing(past) || (last.source == source && last.outcome == Failure && last.count > 0);
    }
  }

  lemma PressingIsFailing(events: seq<AuthEvent>)
    ensures Pressing(events, Sources(events)) == Failing(events)
  {
    forall source ensures source in Pressing(events, Sources(events)) <==> source in Failing(events) {
      TotalsExactly(events, source);
      TotalPositive(events, source);
      PressureSeen(events, source);
    }
  }

  /** Distributed pressure, from the events: enough addresses with a failed attempt, each counted once. */
  lemma DistributedExactly(policy: IntrusionPolicy, agent: Uuid, events: seq<AuthEvent>, at: Time)
    ensures var findings := AuthFindings(policy, agent, events, at);
            var f := Fingerprint(agent, "intrusion." + "auth.distributed", "");
            var sources := |Failing(events)|;
            && (Reported(findings, f) <==> sources >= policy.distributed)
            && forall c | c in findings && c.fingerprint == f ::
                 && c.severity == High
                 && c.evidence == [Metric("auth.sources.distinct", sources, policy.distributed, at)]
  {
    RuleNames();
    PressingIsFailing(events);
    SpreadReported(policy, agent, events, at);
    forall c | c in AuthFindings(policy, agent, events, at)
               && c.fingerprint == Fingerprint(agent, DistributedRule(), "")
      ensures c == DistributedFinding(policy, agent, |Failing(events)|, at)
    {
      FindingsOf(policy, agent, events, at, c);
      if source, rule :| RaisedBy(policy, agent, events, at, rule, source, c) {
        DistributedApart(agent, rule, source);
      }
    }
  }
}
