/** Categories, severities, evidence and findings, and how a finding is named. */
module Models {
  import opened Wrappers

  const UUID_LENGTH: nat := 36
  type Uuid = s: string | |s| == UUID_LENGTH witness seq(UUID_LENGTH, _ => '0')

  /** Timestamps are nanoseconds; unlike the perimeter's instants they may run backwards. */
  type Time = int
  const SECOND: int := 1_000_000_000

  datatype Severity = Info | Low | Medium | High | Critical {
    function Rank(): nat {
      match this
      case Info => 0
      case Low => 1
      case Medium => 2
      case High => 3
      case Critical => 4
    }
  }

  function Worse(a: Severity, b: Severity): Severity {
    if b.Rank() > a.Rank() then b else a
  }

  lemma RankInjective(a: Severity, b: Severity)
    requires a.Rank() == b.Rank()
    ensures a == b
  {
  }

  datatype Category = Resource | Exposure | Intrusion | Integrity | Hygiene | Availability {
    function Name(): string {
      match this
      case Resource => "resource"
      case Exposure => "exposure"
      case Intrusion => "intrusion"
      case Integrity => "integrity"
      case Hygiene => "hygiene"
      case Availability => "availability"
    }
  }

  datatype IncidentStatus = Open | Acknowledged | Resolved

  datatype Evidence =
    | Metric(kind: string, observed: int, threshold: int, at: Time)
    | Names(kind: string, names: set<string>, at: Time)
    | Change(kind: string, previous: string, current: string, at: Time)
    | Mode(kind: string, mode: nat, at: Time)

  /**
   A finding before deduplication. `body` stands for what no rule of the lifecycle reads: title,
   summary, root cause, confidence, recommended actions, runbook and techniques.
   */
  datatype IncidentCandidate = IncidentCandidate(
    fingerprint: string, assetId: Uuid, severity: Severity, category: Category,
    evidence: seq<Evidence>, body: string)

  datatype Incident = Incident(
    id: nat, fingerprint: string, assetId: Uuid, severity: Severity, category: Category, status: IncidentStatus,
    firstSeen: Time, lastSeen: Time, occurrences: nat, evidence: seq<Evidence>, body: string)

  datatype WatchedFile = WatchedFile(path: string, digest: string, mode: Option<nat>) {
    /** The write bit for others, `0o002`, of the permission bits. */
    predicate IsWorldWritable() {
      mode.Some? && mode.value / 2 % 2 == 1
    }
  }

  /** The parts of a security surface that the incident lifecycle reads. */
  datatype SecuritySignals = SecuritySignals(watchedFiles: seq<WatchedFile>, gaps: seq<string>) {
    predicate HasGap(surface: string) {
      surface in gaps
    }
  }

  function RuleId(category: Category, name: string): string {
    category.Name() + "." + name
  }

  /** The key that deduplicates a finding across cycles. */
  function Fingerprint(agent: Uuid, ruleId: string, key: string): string {
    if key == "" then agent + ":" + ruleId else agent + ":" + ruleId + ":" + key
  }

  /** Every rule is namespaced by its category, and every fingerprint by its agent and rule. */
  ghost predicate Namespaced(fingerprint: string, agent: Uuid, category: Category) {
    exists name, key :: fingerprint == Fingerprint(agent, RuleId(category, name), key)
  }

  ghost predicate FromEngine(c: IncidentCandidate) {
    Namespaced(c.fingerprint, c.assetId, c.category)
  }

  lemma FingerprintPrefix(fingerprint: string, agent: Uuid, category: Category)
    requires Namespaced(fingerprint, agent, category)
    ensures |fingerprint| > UUID_LENGTH + 4 && fingerprint[..UUID_LENGTH] == agent
    ensures fingerprint[UUID_LENGTH + 1] == category.Name()[0]
    ensures fingerprint[UUID_LENGTH + 4] == category.Name()[3]
  {
    var name, key :| fingerprint == Fingerprint(agent, RuleId(category, name), key);
    var rule := RuleId(category, name);
    assert fingerprint[..UUID_LENGTH] == agent;
    assert fingerprint[UUID_LENGTH + 1] == rule[0] && fingerprint[UUID_LENGTH + 4] == rule[3];
  }

  /** A fingerprint determines the asset and the category it was raised for. */
  lemma FingerprintDetermines(fingerprint: string, a: Uuid, c: Category, b: Uuid, d: Category)
    requires Namespaced(fingerprint, a, c) && Namespaced(fingerprint, b, d)
    ensures a == b && c == d
  {
    FingerprintPrefix(fingerprint, a, c);
    FingerprintPrefix(fingerprint, b, d);
  }

  /** Within one rule, the fingerprint determines the key. */
  lemma FingerprintKey(agent: Uuid, ruleId: string, k: string, l: string)
    requires Fingerprint(agent, ruleId, k) == Fingerprint(agent, ruleId, l)
    ensures k == l
  {
    var p := agent + ":" + ruleId;
    var f, g := Fingerprint(agent, ruleId, k), Fingerprint(agent, ruleId, l);
    assert k != "" ==> f[|p| + 1..] == k;
    assert l != "" ==> g[|p| + 1..] == l;
    assert k == "" ==> |f| == |p|;
    assert l == "" ==> |g| == |p|;
  }
}
