/** What the authentication rules conclude, and how their conclusions change with the report. */
module AuthDetection {
  import opened Wrappers
  import opened Models
  import opened Ordering
  import opened Detect
  import opened Intrusion

  ghost predicate RaisedBy(policy: IntrusionPolicy, agent: Uuid, events: seq<AuthEvent>, at: Time,
                           rule: AuthRule, source: string, c: IncidentCandidate) {
    var p := Pressure(events, source);
    Fires(policy, rule, p) && c == Finding(policy, agent, rule, source, p, at)
  }

  lemma InSourceFindings(policy: IntrusionPolicy, agent: Uuid, events: seq<AuthEvent>, source: string, at: Time,
                         c: IncidentCandidate)
    ensures c in SourceFindings(policy, agent, source, Pressure(events, source), at)
       <==> exists rule :: RaisedBy(policy, agent, events, at, rule, source, c)
  {
    var p := Pressure(events, source);
    var a := OneFinding(policy, agent, Bruteforce, source, p, at);
    var b := OneFinding(policy, agent, Spray, source, p, at);
    var d := OneFinding(policy, agent, SuccessAfterBurst, source, p, at);
    assert c in a <==> RaisedBy(policy, agent, events, at, Bruteforce, source, c);
    assert c in b <==> RaisedBy(policy, agent, events, at, Spray, source, c);
    assert c in d <==> RaisedBy(policy, agent, events, at, SuccessAfterBurst, source, c);
    assert c in a + b + d <==> c in a || c in b || c in d;
    if rule :| RaisedBy(policy, agent, events, at, rule, source, c) {
      assert rule == Bruteforce || rule == Spray || rule == SuccessAfterBurst;
    }
  }

  lemma {:induction false} InAllSourceFindings(policy: IntrusionPolicy, agent: Uuid, events: seq<AuthEvent>,
                                               sources: seq<string>, at: Time, c: IncidentCandidate)
    ensures c in AllSourceFindings(policy, agent, events, sources, at)
       <==> exists source, rule :: source in sources && RaisedBy(policy, agent, events, at, rule, source, c)
  {
    if sources != [] {
      var past, last := sources[..|sources| - 1], sources[|sources| - 1];
      assert sources == past + [last];
      InAllSourceFindings(policy, agent, events, past, at, c);
      InSourceFindings(policy, agent, events, last, at, c);
    }
  }

  ghost predicate Spread(policy: IntrusionPolicy, events: seq<AuthEvent>) {
    |Pressing(events, Sources(events))| >= policy.distributed
  }

  /** A report raises exactly one finding for each rule that fires on a source, and one if the pressure is spread. */
  lemma FindingsOf(policy: IntrusionPolicy, agent: Uuid, events: seq<AuthEvent>, at: Time, c: IncidentCandidate)
    ensures c in AuthFindings(policy, agent, events, at)
       <==> || (exists source, rule :: RaisedBy(policy, agent, events, at, rule, source, c))
            || (Spread(policy, events)
                && c == DistributedFinding(policy, agent, |Pressing(events, Sources(events))|, at))
  {
    StringOrder();
    SortedKeysCover(StringLe, Sources(events));
    InAllSourceFindings(policy, agent, events, SourceOrder(events), at, c);
    forall source, rule | RaisedBy(policy, agent, events, at, rule, source, c) ensures source in SourceOrder(events) {
      PressureSeen(events, source);
    }
  }

  lemma RuleNamespaced(agent: Uuid, rule: AuthRule, source: string)
    ensures Namespaced(Fingerprint(agent, RuleName(rule), source), agent, Category.Intrusion)
  {
    var name := match rule case Bruteforce => "auth.bruteforce" case Spray => "auth.spray"
                case SuccessAfterBurst => "auth.success_after_burst";
    assert RuleName(rule) == RuleId(Category.Intrusion, name);
  }

  lemma SpreadNamespaced(agent: Uuid)
    ensures Namespaced(Fingerprint(agent, DistributedRule(), ""), agent, Category.Intrusion)
  {
    assert DistributedRule() == RuleId(Category.Intrusion, "auth.distributed");
  }

  /** The authentication rules keep the engine's naming: every finding is namespaced by its agent and category. */
  lemma FindingsFromEngine(policy: IntrusionPolicy, agent: Uuid, events: seq<AuthEvent>, at: Time, c: IncidentCandidate)
    ensures c in AuthFindings(policy, agent, events, at) ==>
              FromEngine(c) && c.assetId == agent && c.category == Category.Intrusion
  {
    FindingsOf(policy, agent, events, at, c);
    if source, rule :| RaisedBy(policy, agent, events, at, rule, source, c) {
      RuleNamespaced(agent, rule, source);
    } else {
      SpreadNamespaced(agent);
    }
  }

  // ------------------------------------------------ by fingerprint

  lemma RuleMark(agent: Uuid, rule: AuthRule, source: string)
    ensures var f := Fingerprint(agent, RuleName(rule), source);
            && |f| > UUID_LENGTH + 17
            && f[UUID_LENGTH + 16] == (if rule == Bruteforce then 'b' else 's')
            && f[UUID_LENGTH + 17] == match rule
                                      case Bruteforce => 'r'
                                      case Spray => 'p'
                                      case SuccessAfterBurst => 'u'
  {
    var name := RuleName(rule);
    var f := Fingerprint(agent, name, source);
    assert f[UUID_LENGTH + 16] == name[15] && f[UUID_LENGTH + 17] == name[16];
  }

  lemma RuleAndSourceUnique(agent: Uuid, r: AuthRule, a: string, q: AuthRule, b: string)
    requires Fingerprint(agent, RuleName(r), a) == Fingerprint(agent, RuleName(q), b)
    ensures r == q && a == b
  {
    RuleMark(agent, r, a);
    RuleMark(agent, q, b);
    FingerprintKey(agent, RuleName(r), a, b);
  }

  lemma DistributedApart(agent: Uuid, rule: AuthRule, source: string)
    ensures Fingerprint(agent, RuleName(rule), source) != Fingerprint(agent, DistributedRule(), "")
  {
    RuleMark(agent, rule, source);
    var g := Fingerprint(agent, DistributedRule(), "");
    assert g[UUID_LENGTH + 16] == DistributedRule()[15] == 'd';
  }

  /** By fingerprint, a rule reports a source if and only if the source's pressure makes it fire. */
  lemma ReportsExactly(policy: IntrusionPolicy, agent: Uuid, events: seq<AuthEvent>, at: Time, rule: AuthRule,
                       source: string)
    ensures Reported(AuthFindings(policy, agent, events, at), Fingerprint(agent, RuleName(rule), source))
       <==> Fires(policy, rule, Pressure(events, source))
  {
    var findings, f := AuthFindings(policy, agent, events, at), Fingerprint(agent, RuleName(rule), source);
    var own := Finding(policy, agent, rule, source, Pressure(events, source), at);
    if Fires(policy, rule, Pressure(events, source)) {
      assert RaisedBy(policy, agent, events, at, rule, source, own);
      FindingsOf(policy, agent, events, at, own);
      var i :| 0 <= i < |findings| && findings[i] == own;
    }
    if i :| 0 <= i < |findings| && findings[i].fingerprint == f {
      FindingsOf(policy, agent, events, at, findings[i]);
      DistributedApart(agent, rule, source);
      var s, r :| RaisedBy(policy, agent, events, at, r, s, findings[i]);
      RuleAndSourceUnique(agent, r, s, rule, source);
    }
  }

  lemma SpreadReported(policy: IntrusionPolicy, agent: Uuid, events: seq<AuthEvent>, at: Time)
    ensures Reported(AuthFindings(policy, agent, events, at), Fingerprint(agent, DistributedRule(), ""))
       <==> Spread(policy, events)
  {
    var findings, f := AuthFindings(policy, agent, events, at), Fingerprint(agent, DistributedRule(), "");
    var spread := DistributedFinding(policy, agent, |Pressing(events, Sources(events))|, at);
    if Spread(policy, events) {
      FindingsOf(policy, agent, events, at, spread);
      var i :| 0 <= i < |findings| && findings[i] == spread;
    }
    if i :| 0 <= i < |findings| && findings[i].fingerprint == f {
      FindingsOf(policy, agent, events, at, findings[i]);
      if source, rule :| RaisedBy(policy, agent, events, at, rule, source, findings[i]) {
        DistributedApart(agent, rule, source);
      }
    }
  }

  /** An access granted after a burst is never reported without the burst itself, for the same address. */
  lemma SuccessComesWithBurst(policy: IntrusionPolicy, agent: Uuid, events: seq<AuthEvent>, at: Time, source: string)
    ensures Reported(AuthFindings(policy, agent, events, at), Fingerprint(agent, RuleName(SuccessAfterBurst), source))
       ==> Reported(AuthFindings(policy, agent, events, at), Fingerprint(agent, RuleName(Bruteforce), source))
  {
    ReportsExactly(policy, agent, events, at, SuccessAfterBurst, source);
    ReportsExactly(policy, agent, events, at, Bruteforce, source);
  }

  // ------------------------------------------------ monotone and order-blind

  predicate Grows(p: SourcePressure, q: SourcePressure) {
    && p.failures <= q.failures && p.successes <= q.successes
    && p.usernames <= q.usernames && p.services <= q.services
  }

  ghost predicate GrowsEverywhere(events: seq<AuthEvent>, more: seq<AuthEvent>) {
    forall source: string :: Grows(Pressure(events, source), Pressure(more, source))
  }

  /** The finding is still there, under the same fingerprint and at least as severe. */
  ghost predicate Kept(c: IncidentCandidate, findings: seq<IncidentCandidate>) {
    exists d :: d in findings && d.fingerprint == c.fingerprint && c.severity.Rank() <= d.severity.Rank()
  }

  lemma FiresGrows(policy: IntrusionPolicy, rule: AuthRule, p: SourcePressure, q: SourcePressure)
    requires Grows(p, q) && Fires(policy, rule, p)
    ensures Fires(policy, rule, q)
    ensures SeverityBy(policy, rule, p).Rank() <= SeverityBy(policy, rule, q).Rank()
  {
    SubsetSize(p.usernames, q.usernames);
  }

  lemma PressingGrowsWith(events: seq<AuthEvent>, more: seq<AuthEvent>)
    requires GrowsEverywhere(events, more)
    ensures |Pressing(events, Sources(events))| <= |Pressing(more, Sources(more))|
  {
    forall source | source in Pressing(events, Sources(events)) ensures source in Pressing(more, Sources(more)) {
      assert Grows(Pressure(events, source), Pressure(more, source));
      PressureSeen(more, source);
    }
    SubsetSize(Pressing(events, Sources(events)), Pressing(more, Sources(more)));
  }

  lemma FindingKept(policy: IntrusionPolicy, agent: Uuid, events: seq<AuthEvent>, more: seq<AuthEvent>, at: Time,
                    c: IncidentCandidate)
    requires GrowsEverywhere(events, more) && c in AuthFindings(policy, agent, events, at)
    ensures Kept(c, AuthFindings(policy, agent, more, at))
  {
    FindingsOf(policy, agent, events, at, c);
    if source, rule :| RaisedBy(policy, agent, events, at, rule, source, c) {
      assert Grows(Pressure(events, source), Pressure(more, source));
      FiresGrows(policy, rule, Pressure(events, source), Pressure(more, source));
      var d := Finding(policy, agent, rule, source, Pressure(more, source), at);
      assert RaisedBy(policy, agent, more, at, rule, source, d);
      FindingsOf(policy, agent, more, at, d);
    } else {
      PressingGrowsWith(events, more);
      var d := DistributedFinding(policy, agent, |Pressing(more, Sources(more))|, at);
      FindingsOf(policy, agent, more, at, d);
    }
  }

  /** Reporting more events removes no authentication finding and makes none less severe. */
  lemma DetectionIsMonotone(policy: IntrusionPolicy, agent: Uuid, events: seq<AuthEvent>, more: seq<AuthEvent>,
                            at: Time)
    ensures forall c | c in AuthFindings(policy, agent, events, at) ::
              Kept(c, AuthFindings(policy, agent, events + more, at))
  {
    forall source: string ensures Grows(Pressure(events, source), Pressure(events + more, source)) {
      PressureConcat(events, more, source);
    }
    forall c | c in AuthFindings(policy, agent, events, at)
      ensures Kept(c, AuthFindings(policy, agent, events + more, at))
    {
      FindingKept(policy, agent, events, events + more, at, c);
    }
  }

  /** All that the rules can tell apart: of a source without failures, they only see that it was there. */
  predicate Alike(p: SourcePressure, q: SourcePressure) {
    && p.failures == q.failures
    && (p.services == {} <==> q.services == {})
    && (p.failures > 0 ==> p == q)
  }

  ghost predicate SamePressure(a: seq<AuthEvent>, b: seq<AuthEvent>) {
    forall source: string :: Alike(Pressure(a, source), Pressure(b, source))
  }

  lemma {:induction false} SameSourceFindings(policy: IntrusionPolicy, agent: Uuid, a: seq<AuthEvent>,
                                              b: seq<AuthEvent>,
                                              sources: seq<string>, at: Time)
    requires SamePressure(a, b)
    ensures AllSourceFindings(policy, agent, a, sources, at) == AllSourceFindings(policy, agent, b, sources, at)
  {
    if sources != [] {
      SameSourceFindings(policy, agent, a, b, sources[..|sources| - 1], at);
      assert Alike(Pressure(a, sources[|sources| - 1]), Pressure(b, sources[|sources| - 1]));
    }
  }

  /** The findings depend on the pressure of the failing sources alone: if it is equal, so is the whole list. */
  lemma FindingsFollowPressure(policy: IntrusionPolicy, agent: Uuid, a: seq<AuthEvent>, b: seq<AuthEvent>, at: Time)
    requires SamePressure(a, b)
    ensures AuthFindings(policy, agent, a, at) == AuthFindings(policy, agent, b, at)
  {
    forall source ensures source in Sources(a) <==> source in Sources(b) {
      assert Alike(Pressure(a, source), Pressure(b, source));
      PressureSeen(a, source);
      PressureSeen(b, source);
    }
    assert Sources(a) == Sources(b);
    assert Pressing(a, Sources(a)) == Pressing(b, Sources(b)) by {
      assert forall source | source in Sources(a) :: Alike(Pressure(a, source), Pressure(b, source));
    }
    SameSourceFindings(policy, agent, a, b, SourceOrder(a), at);
  }

  /** Permuting a report changes no finding, not even its evidence or place. */
  lemma DetectionIgnoresOrder(policy: IntrusionPolicy, agent: Uuid, a: seq<AuthEvent>, b: seq<AuthEvent>, at: Time)
    requires multiset(a) == multiset(b)
    ensures AuthFindings(policy, agent, a, at) == AuthFindings(policy, agent, b, at)
  {
    forall source: string ensures Alike(Pressure(a, source), Pressure(b, source)) {
      PressurePermutes(a, b, source);
    }
    FindingsFollowPressure(policy, agent, a, b, at);
  }
}
