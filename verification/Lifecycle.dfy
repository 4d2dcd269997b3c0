/** The steps of the control plane: ingesting one envelope, sweeping for silence, and an operator's decision. */
module Lifecycle {
  import opened Wrappers
  import opened Models
  import opened Detect
  import opened IntegrityRules
  import opened AvailabilityRules
  import opened Posture
  import opened Tables
  import opened Storage

  const MINUTE: int := 60 * SECOND
  const HOUR: int := 60 * MINUTE

  /**
   One accepted request body. `earlier` and `later` are the findings of the detectors that run before
   (exposure, intrusion) and after (hygiene, resource) the integrity detector.
   */
  datatype Envelope = Envelope(
    agent: Uuid, observedAt: Time, registers: bool, security: Option<SecuritySignals>,
    earlier: seq<IncidentCandidate>, later: seq<IncidentCandidate>)

  datatype Outcome = Accepted(touched: nat, score: nat) | BadTimestamp | UnknownAsset

  /** The detectors of one envelope name its agent, and leave integrity and availability to their own rules. */
  ghost predicate FromOtherDetectors(agent: Uuid, findings: seq<IncidentCandidate>) {
    forall c | c in findings ::
      FromEngine(c) && c.assetId == agent && c.category != Integrity && c.category != Availability
  }

  predicate InWindow(observedAt: Time, receivedAt: Time) {
    receivedAt - 24 * HOUR <= observedAt <= receivedAt + 5 * MINUTE
  }

  /** Categories that may close on their own: only those whose surface was actually inspected. */
  function SelfHealing(security: SecuritySignals): seq<Category> {
    (if security.HasGap("listeners") then [] else [Exposure])
    + (if security.HasGap("firewall") || security.HasGap("security-updates") then [] else [Hygiene])
  }

  function Heals(envelope: Envelope): seq<Category> {
    if envelope.security.Some? then SelfHealing(envelope.security.value) else []
  }

  function Findings(baselines: Baselines, e: Envelope): seq<IncidentCandidate> {
    e.earlier
    + (if e.security.Some? then
         IntegrityFindings(e.agent, e.security.value.watchedFiles, BaselineOf(baselines, e.agent), e.observedAt)
       else [])
    + e.later
  }

  ghost function Candidates(baselines: Baselines, e: Envelope): seq<IncidentCandidate> {
    Analyzed(Findings(baselines, e))
  }

  function Fingerprints(candidates: seq<IncidentCandidate>): set<string> {
    set c | c in candidates :: c.fingerprint
  }

  function UpsertAll(s: Store, candidates: seq<IncidentCandidate>, at: Time): Store {
    if candidates == [] then s
    else
      Tables.UpsertIncident(UpsertAll(s, candidates[..|candidates| - 1], at), candidates[|candidates| - 1], at)
  }

  function Registered(s: Store, e: Envelope, receivedAt: Time): Store {
    if e.registers then Tables.UpsertAsset(s, e.agent, receivedAt) else s
  }

  function Sampled(s: Store, e: Envelope, receivedAt: Time): Store {
    Tables.StoreSample(Registered(s, e, receivedAt), e.agent, receivedAt)
  }

  ghost function AllUpserted(s: Store, e: Envelope, receivedAt: Time): Store {
    UpsertAll(Sampled(s, e, receivedAt), Candidates(s.baselines, e), e.observedAt)
  }

  ghost function Healed(s: Store, e: Envelope, receivedAt: Time): Store {
    Tables.AutoResolve(AllUpserted(s, e, receivedAt), e.agent, Heals(e), Fingerprints(Candidates(s.baselines, e)))
  }

  function Rebased(s: Store, e: Envelope): Store {
    if e.security.Some? then s.(baselines := MoveBaseline(s.baselines, e.agent, e.security.value.watchedFiles)) else s
  }

  /** Sample, detect and upsert, close, move the baseline, score: in that order. */
  ghost function Ingest(s: Store, e: Envelope, receivedAt: Time): (Store, Outcome) {
    if !InWindow(e.observedAt, receivedAt) then (s, BadTimestamp)
    else if e.agent !in Registered(s, e, receivedAt).assets then (Registered(s, e, receivedAt), UnknownAsset)
    else
      var detected := Rebased(Healed(s, e, receivedAt), e);
      var score := Headline(Grouped(detected.incidents, Some(e.agent)));
      (Tables.StorePosture(detected, e.agent, score), Accepted(|Candidates(s.baselines, e)|, score))
  }

  function SweepOne(s: Store, policy: SilencePolicy, agent: Uuid, lastSeen: Time, now: Time): Store {
    match AgentSilence(policy, agent, lastSeen, now)
    case Some(c) => Tables.UpsertIncident(s, c, now)
    case None => Tables.AutoResolve(s, agent, [Availability], {})
  }

  /** `order` is the order in which the database returned the assets. */
  function Sweep(s: Store, policy: SilencePolicy, order: seq<Uuid>, now: Time): Store
    requires forall agent | agent in order :: agent in s.assets
  {
    if order == [] then s
    else
      var agent := order[|order| - 1];
      SweepOne(Sweep(s, policy, order[..|order| - 1], now), policy, agent, s.assets[agent].lastSeen, now)
  }

  ghost predicate Enumerates(order: seq<Uuid>, agents: set<Uuid>) {
    && (forall i, j | 0 <= i < j < |order| :: order[i] != order[j])
    && (forall agent :: agent in order <==> agent in agents)
  }

  function SilentAssets(s: Store, policy: SilencePolicy, now: Time): set<Uuid> {
    set agent | agent in s.assets && Silent(policy, s.assets[agent].lastSeen, now)
  }

  lemma NothingHeals(s: Store, agent: Uuid, still: set<string>)
    ensures Tables.AutoResolve(s, agent, [], still) == s
  {
    assert ClosedAmong(s.incidents, s.incidents.Keys, agent, [], still) == {};
    assert CloseAll(s.incidents, {}) == s.incidents;
    assert Closures(s.incidents, {}) == {};
  }

  class ControlPlane {
    const database: Database
    const policy: SilencePolicy

    constructor (database: Database, policy: SilencePolicy)
      ensures this.database == database && this.policy == policy
    {
      this.database, this.policy := database, policy;
    }

    method SelfHealingCategories(security: SecuritySignals) returns (categories: seq<Category>)
      ensures categories == SelfHealing(security)
    {
      categories := [];
      if !security.HasGap("listeners") {
        categories := categories + [Exposure];
      }
      if !security.HasGap("firewall") && !security.HasGap("security-updates") {
        categories := categories + [Hygiene];
      }
    }

    method Detection(e: Envelope) returns (candidates: seq<IncidentCandidate>)
      ensures candidates == Candidates(database.baselines, e)
    {
      var findings := e.earlier;
      if e.security.Some? {
        var baseline := database.FileBaseline(e.agent);
        var changed := DetectIntegrity(e.agent, e.security.value.watchedFiles, baseline, e.observedAt);
        findings := findings + changed;
      }
      findings := findings + e.later;
      assert findings == Findings(database.baselines, e);
      candidates := Analyze(findings);
    }

    method UpsertCandidates(candidates: seq<IncidentCandidate>, at: Time) returns (fingerprints: set<string>)
      modifies database
      ensures database.Contents() == UpsertAll(old(database.Contents()), candidates, at)
      ensures database.auditLog == old(database.auditLog)
      ensures fingerprints == Fingerprints(candidates)
    {
      fingerprints := {};
      for i := 0 to |candidates|
        invariant database.Contents() == UpsertAll(old(database.Contents()), candidates[..i], at)
        invariant database.auditLog == old(database.auditLog)
        invariant fingerprints == Fingerprints(candidates[..i])
      {
        assert candidates[..i + 1][..i] == candidates[..i];
        assert candidates[..i + 1] == candidates[..i] + [candidates[i]];
        fingerprints := fingerprints + {candidates[i].fingerprint};
        var _ := database.UpsertIncident(candidates[i], at);
      }
      assert candidates[..|candidates|] == candidates;
    }

    method Heal(e: Envelope, fingerprints: set<string>)
      modifies database
      ensures database.Contents() == Tables.AutoResolve(old(database.Contents()), e.agent, Heals(e), fingerprints)
      ensures old(database.auditLog) <= database.auditLog
    {
      NothingHeals(database.Contents(), e.agent, fingerprints);
      if e.security.Some? {
        var categories := SelfHealingCategories(e.security.value);
        if categories != [] {
          var _ := database.AutoResolve(e.agent, categories, fingerprints);
        }
      }
    }

    method IngestTelemetry(e: Envelope, receivedAt: Time) returns (outcome: Outcome)
      modifies database
      ensures (database.Contents(), outcome) == Ingest(old(database.Contents()), e, receivedAt)
      ensures old(database.auditLog) <= database.auditLog
    {
      if !InWindow(e.observedAt, receivedAt) {
        return BadTimestamp;
      }
      if e.registers {
        database.UpsertAsset(e.agent, receivedAt);
      }
      if e.agent !in database.assets {
        return UnknownAsset;
      }
      database.StoreSample(e.agent, receivedAt);
      var candidates := Detection(e);
      var fingerprints := UpsertCandidates(candidates, e.observedAt);
      Heal(e, fingerprints);
      if e.security.Some? {
        database.UpdateFileBaseline(e.agent, e.security.value.watchedFiles);
      }
      var own := database.OpenFindingCounts(Some(e.agent));
      var posture := ComputeFromCounts(own, if e.security.Some? then e.security.value.gaps else []);
      database.StorePosture(e.agent, posture.score);
      outcome := Accepted(|candidates|, posture.score);
    }

    method SweepAsset(agent: Uuid, lastSeen: Time, now: Time) returns (silent: bool)
      modifies database
      ensures database.Contents() == SweepOne(old(database.Contents()), policy, agent, lastSeen, now)
      ensures database.assets == old(database.assets)
      ensures silent <==> Silent(policy, lastSeen, now)
      ensures old(database.auditLog) <= database.auditLog
    {
      var candidate := AgentSilence(policy, agent, lastSeen, now);
      silent := candidate.Some?;
      if candidate.Some? {
        var _ := database.UpsertIncident(candidate.value, now);
      } else {
        var _ := database.AutoResolve(agent, [Availability], {});
      }
    }

    method SweepSilence(order: seq<Uuid>, now: Time) returns (raised: nat)
      requires Enumerates(order, database.assets.Keys)
      modifies database
      ensures database.Contents() == Sweep(old(database.Contents()), policy, order, now)
      ensures raised == |SilentAssets(old(database.Contents()), policy, now)|
      ensures old(database.auditLog) <= database.auditLog
    {
      raised := 0;
      ghost var before := database.Contents();
      for i := 0 to |order|
        invariant database.assets == before.assets
        invariant database.Contents() == Sweep(before, policy, order[..i], now)
        invariant raised == |SilentAmong(before.assets, policy, order[..i], now)|
        invariant old(database.auditLog) <= database.auditLog
      {
        var agent := order[i];
        SweepStep(before, policy, order, i, now);
        var silent := SweepAsset(agent, database.assets[agent].lastSeen, now);
        if silent {
          raised := raised + 1;
        }
      }
      SweepDone(before, policy, order, now);
    }
  }

  lemma SweepStep(s: Store, policy: SilencePolicy, order: seq<Uuid>, i: nat, now: Time)
    requires Enumerates(order, s.assets.Keys) && i < |order|
    ensures order[i] in s.assets
    ensures Sweep(s, policy, order[..i + 1], now)
         == SweepOne(Sweep(s, policy, order[..i], now), policy, order[i], s.assets[order[i]].lastSeen, now)
    ensures |SilentAmong(s.assets, policy, order[..i + 1], now)|
         == |SilentAmong(s.assets, policy, order[..i], now)|
            + if Silent(policy, s.assets[order[i]].lastSeen, now) then 1 else 0
  {
    assert order[..i + 1][..i] == order[..i];
    assert order[..i + 1] == order[..i] + [order[i]];
    SilentGrows(s.assets, policy, order[..i], order[i], now);
  }

  lemma SweepDone(s: Store, policy: SilencePolicy, order: seq<Uuid>, now: Time)
    requires Enumerates(order, s.assets.Keys)
    ensures order[..|order|] == order
    ensures SilentAmong(s.assets, policy, order, now) == SilentAssets(s, policy, now)
  {
  }

  function SilentAmong(assets: map<Uuid, Asset>, policy: SilencePolicy, order: seq<Uuid>, now: Time): set<Uuid> {
    set agent | agent in order && agent in assets && Silent(policy, assets[agent].lastSeen, now)
  }

  lemma SilentGrows(assets: map<Uuid, Asset>, policy: SilencePolicy, order: seq<Uuid>, agent: Uuid, now: Time)
    requires agent !in order && agent in assets
    ensures |SilentAmong(assets, policy, order + [agent], now)|
         == |SilentAmong(assets, policy, order, now)| + if Silent(policy, assets[agent].lastSeen, now) then 1 else 0
  {
    var before, after := SilentAmong(assets, policy, order, now), SilentAmong(assets, policy, order + [agent], now);
    assert after == if Silent(policy, assets[agent].lastSeen, now) then before + {agent} else before;
  }
}
