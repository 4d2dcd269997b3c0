/** What every step keeps true of the tables, and what it does to one incident row. */
module LifecycleInv {
  import opened Wrappers
  import opened Models
  import opened Detect
  import opened Posture
  import opened IntegrityRules
  import opened AvailabilityRules
  import opened Tables
  import opened Lifecycle

  ghost predicate RowOk(s: Store, f: string, row: Row) {
    && Coherent(row, f)
    && Namespaced(f, row.assetId, row.category)
    && row.assetId in s.assets
    && row.id < s.issued
    && 1 <= row.record.occurrences <= U64_MAX
  }

  /** Every closure in the trail is of the incident that carries that fingerprint and identifier. */
  ghost predicate TrailOk(s: Store) {
    forall id, f | AutoResolved(id, f) in s.trail :: f in s.incidents && s.incidents[f].id == id
  }

  ghost predicate StoreInv(s: Store) {
    && (forall f | f in s.incidents :: RowOk(s, f, s.incidents[f]))
    && UniqueIds(s.incidents)
    && TrailOk(s)
  }

  lemma EmptyInv()
    ensures StoreInv(EMPTY)
  {
  }

  // ------------------------------------------------ the invariant, table by table

  lemma UpsertedRowOk(s: Store, c: IncidentCandidate, at: Time)
    requires StoreInv(s) && FromEngine(c) && c.assetId in s.assets
    ensures var after := Tables.UpsertIncident(s, c, at);
            && RowOk(after, c.fingerprint, after.incidents[c.fingerprint])
            && after.incidents[c.fingerprint].id
               == if c.fingerprint in s.incidents then s.incidents[c.fingerprint].id else s.issued
  {
    var f := c.fingerprint;
    if f in s.incidents {
      assert RowOk(s, f, s.incidents[f]);
      FingerprintDetermines(f, c.assetId, c.category, s.incidents[f].assetId, s.incidents[f].category);
    }
  }

  lemma UpsertKeepsInv(s: Store, c: IncidentCandidate, at: Time)
    requires StoreInv(s) && FromEngine(c) && c.assetId in s.assets
    ensures StoreInv(Tables.UpsertIncident(s, c, at))
  {
    var after := Tables.UpsertIncident(s, c, at);
    UpsertedRowOk(s, c, at);
    forall g | g in after.incidents && g != c.fingerprint ensures RowOk(after, g, after.incidents[g]) {
      assert RowOk(s, g, s.incidents[g]);
    }
  }

  lemma ResolveKeepsRows(s: Store, agent: Uuid, categories: seq<Category>, still: set<string>)
    requires StoreInv(s)
    ensures var after := Tables.AutoResolve(s, agent, categories, still);
            && after.incidents.Keys == s.incidents.Keys
            && forall f | f in after.incidents ::
                 RowOk(after, f, after.incidents[f]) && after.incidents[f].id == s.incidents[f].id
  {
    var after := Tables.AutoResolve(s, agent, categories, still);
    forall f | f in after.incidents
      ensures RowOk(after, f, after.incidents[f]) && after.incidents[f].id == s.incidents[f].id
    {
      assert RowOk(s, f, s.incidents[f]);
    }
  }

  lemma ResolveKeepsTrail(s: Store, agent: Uuid, categories: seq<Category>, still: set<string>)
    requires StoreInv(s)
    ensures forall id, f | AutoResolved(id, f) in Tables.AutoResolve(s, agent, categories, still).trail ::
              f in s.incidents && s.incidents[f].id == id
  {
    var after := Tables.AutoResolve(s, agent, categories, still);
    forall id, f | AutoResolved(id, f) in after.trail ensures f in s.incidents && s.incidents[f].id == id {
      if AutoResolved(id, f) !in s.trail {
        var closed := ClosedAmong(s.incidents, s.incidents.Keys, agent, categories, still);
        assert AutoResolved(id, f) in Closures(s.incidents, closed);
        assert RowOk(s, f, s.incidents[f]);
      }
    }
  }

  lemma ResolveKeepsInv(s: Store, agent: Uuid, categories: seq<Category>, still: set<string>)
    requires StoreInv(s)
    ensures StoreInv(Tables.AutoResolve(s, agent, categories, still))
  {
    ResolveKeepsRows(s, agent, categories, still);
    ResolveKeepsTrail(s, agent, categories, still);
  }

  lemma StatusKeepsRow(s: Store, id: nat, status: IncidentStatus, actor: string, f: string)
    requires StoreInv(s) && f in s.incidents
    ensures var after := Tables.SetStatus(s, id, status, actor);
            && after.incidents.Keys == s.incidents.Keys
            && RowOk(after, f, after.incidents[f]) && after.incidents[f].id == s.incidents[f].id
  {
    assert RowOk(s, f, s.incidents[f]);
  }

  lemma StatusKeepsInv(s: Store, id: nat, status: IncidentStatus, actor: string)
    requires StoreInv(s)
    ensures StoreInv(Tables.SetStatus(s, id, status, actor))
  {
    var after := Tables.SetStatus(s, id, status, actor);
    assert after.incidents.Keys == s.incidents.Keys;
    forall f | f in after.incidents
      ensures RowOk(after, f, after.incidents[f]) && after.incidents[f].id == s.incidents[f].id
    {
      StatusKeepsRow(s, id, status, actor, f);
    }
    forall i, f | AutoResolved(i, f) in after.trail ensures AutoResolved(i, f) in s.trail {
    }
  }

  /** The invariant reads neither the baselines nor anything of an asset but its existence. */
  lemma SameIncidentsKeepInv(s: Store, after: Store)
    requires StoreInv(s) && after.incidents == s.incidents && after.trail == s.trail && after.issued == s.issued
    requires s.assets.Keys <= after.assets.Keys
    ensures StoreInv(after)
  {
    forall f | f in after.incidents ensures RowOk(after, f, after.incidents[f]) {
      assert RowOk(s, f, s.incidents[f]);
    }
  }

  // ------------------------------------------------ one row through the upserts of a cycle

  function Find(candidates: seq<IncidentCandidate>, f: string): Option<IncidentCandidate> {
    if candidates == [] then None
    else
      var last := candidates[|candidates| - 1];
      if last.fingerprint == f then Some(last) else Find(candidates[..|candidates| - 1], f)
  }

  lemma {:induction false} FindReports(candidates: seq<IncidentCandidate>, f: string)
    ensures Find(candidates, f).Some? <==> Reported(candidates, f)
    ensures Find(candidates, f).Some? <==> f in Fingerprints(candidates)
    ensures Find(candidates, f).Some? ==>
              Find(candidates, f).value in candidates && Find(candidates, f).value.fingerprint == f
  {
    if candidates != [] {
      var past, last := candidates[..|candidates| - 1], candidates[|candidates| - 1];
      assert candidates == past + [last];
      FindReports(past, f);
      ReportedConcat(past, [last], f);
      assert [last][0] == last;
      assert Fingerprints(candidates) == Fingerprints(past) + {last.fingerprint};
    }
  }

  function Upserted(before: Option<Row>, report: Option<IncidentCandidate>, at: Time, id: nat): Option<Row> {
    if report.Some? then Some(UpsertRow(before, report.value, at, id)) else before
  }

  ghost predicate EngineFindings(agents: set<Uuid>, candidates: seq<IncidentCandidate>) {
    forall c | c in candidates :: FromEngine(c) && c.assetId in agents
  }

  lemma {:induction false} UpsertAllRow(s: Store, candidates: seq<IncidentCandidate>, at: Time, f: string)
    returns (id: nat)
    requires Distinct(candidates)
    ensures var after := UpsertAll(s, candidates, at);
            && RowAt(after.incidents, f) == Upserted(RowAt(s.incidents, f), Find(candidates, f), at, id)
            && after.assets == s.assets && after.baselines == s.baselines && after.trail == s.trail
    ensures s.issued <= id <= UpsertAll(s, candidates, at).issued
  {
    if candidates == [] {
      id := s.issued;
    } else {
      var past, last := candidates[..|candidates| - 1], candidates[|candidates| - 1];
      id := UpsertAllRow(s, past, at, f);
      if last.fingerprint == f {
        id := UpsertAll(s, past, at).issued;
        FindReports(past, f);
      }
    }
  }

  lemma {:induction false} UpsertAllInv(s: Store, candidates: seq<IncidentCandidate>, at: Time)
    requires StoreInv(s) && EngineFindings(s.assets.Keys, candidates)
    ensures StoreInv(UpsertAll(s, candidates, at)) && UpsertAll(s, candidates, at).assets == s.assets
  {
    if candidates != [] {
      var past := candidates[..|candidates| - 1];
      assert forall c | c in past :: c in candidates;
      UpsertAllInv(s, past, at);
      UpsertKeepsInv(UpsertAll(s, past, at), candidates[|candidates| - 1], at);
    }
  }

  // ------------------------------------------------ one row through a resolution

  function Settled(before: Option<Row>, f: string, agent: Uuid, categories: seq<Category>, still: set<string>)
    : Option<Row>
  {
    if before.Some? && Closes(before.value, f, agent, categories, still) then Some(ResolvedRow(before.value))
    else before
  }

  function ClosureCount(before: Option<Row>, f: string, agent: Uuid, categories: seq<Category>, still: set<string>)
    : nat
  {
    if before.Some? && Closes(before.value, f, agent, categories, still) then 1 else 0
  }

  lemma ResolveRow(s: Store, agent: Uuid, categories: seq<Category>, still: set<string>, f: string)
    ensures var after := Tables.AutoResolve(s, agent, categories, still);
            && RowAt(after.incidents, f) == Settled(RowAt(s.incidents, f), f, agent, categories, still)
            && after.assets == s.assets && after.baselines == s.baselines && after.issued == s.issued
  {
  }

  /** A resolution leaves one audit entry for each row it closes, and no other. */
  lemma ResolveTrail(s: Store, agent: Uuid, categories: seq<Category>, still: set<string>, f: string)
    requires f in s.incidents
    ensures var id := s.incidents[f].record.id;
            Tables.AutoResolve(s, agent, categories, still).trail[AutoResolved(id, f)]
            == s.trail[AutoResolved(id, f)] + ClosureCount(RowAt(s.incidents, f), f, agent, categories, still)
  {
    var closed := ClosedAmong(s.incidents, s.incidents.Keys, agent, categories, still);
    var entry := AutoResolved(s.incidents[f].record.id, f);
    assert entry in Closures(s.incidents, closed) <==> f in closed;
  }

  // ------------------------------------------------ the candidates of a cycle

  lemma CandidatesFromEngine(baselines: Baselines, e: Envelope)
    requires FromOtherDetectors(e.agent, e.earlier) && FromOtherDetectors(e.agent, e.later)
    ensures Distinct(Candidates(baselines, e))
    ensures forall c | c in Candidates(baselines, e) ::
              FromEngine(c) && c.assetId == e.agent && c.category != Availability
    ensures forall f :: Reported(Candidates(baselines, e), f) <==> Reported(Findings(baselines, e), f)
  {
    var raw, merged, result := Findings(baselines, e), Merged(Findings(baselines, e)), Candidates(baselines, e);
    AnalyzeOrders(raw);
    MergeLosesNothing(raw);
    RawFromEngine(baselines, e);
    forall c | c in result ensures FromEngine(c) && c.assetId == e.agent && c.category != Availability {
      assert c in multiset(merged);
      var k :| 0 <= k < |merged| && merged[k] == c;
      assert StandsFor(raw, c.fingerprint, c);
      var i :| Leads(raw, i) && raw[i].fingerprint == c.fingerprint && c == raw[i].(evidence := c.evidence);
      assert raw[i] in raw;
      assert FromEngine(raw[i]);
    }
  }

  lemma RawFromEngine(baselines: Baselines, e: Envelope)
    requires FromOtherDetectors(e.agent, e.earlier) && FromOtherDetectors(e.agent, e.later)
    ensures forall c | c in Findings(baselines, e) ::
              FromEngine(c) && c.assetId == e.agent && c.category != Availability
  {
    if e.security.Some? {
      IntegrityReports(e.agent, e.security.value.watchedFiles, BaselineOf(baselines, e.agent), e.observedAt, "");
    }
  }

  // ------------------------------------------------ ingest

  predicate Accepts(s: Store, e: Envelope, receivedAt: Time) {
    InWindow(e.observedAt, receivedAt) && e.agent in Registered(s, e, receivedAt).assets
  }

  ghost predicate EnvelopeOk(e: Envelope) {
    FromOtherDetectors(e.agent, e.earlier) && FromOtherDetectors(e.agent, e.later)
  }

  /** An accepted envelope is its upserts, then its closures; the rest touches neither incidents nor trail. */
  lemma IngestParts(s: Store, e: Envelope, receivedAt: Time)
    requires Accepts(s, e, receivedAt)
    ensures var (after, outcome) := Ingest(s, e, receivedAt);
            var healed := Healed(s, e, receivedAt);
            && outcome.Accepted?
            && outcome.score == Headline(Grouped(after.incidents, Some(e.agent)))
            && after.incidents == healed.incidents && after.trail == healed.trail && after.issued == healed.issued
            && after.assets.Keys == healed.assets.Keys
            && e.agent in after.assets && after.assets[e.agent].postureScore == Some(outcome.score)
            && after.baselines == (if e.security.Some? then
                                     MoveBaseline(healed.baselines, e.agent, e.security.value.watchedFiles)
                                   else healed.baselines)
  {
    UpsertAllAssets(Sampled(s, e, receivedAt), Candidates(s.baselines, e), e.observedAt);
  }

  lemma {:induction false} UpsertAllAssets(s: Store, candidates: seq<IncidentCandidate>, at: Time)
    ensures var after := UpsertAll(s, candidates, at);
            after.assets == s.assets && after.baselines == s.baselines && after.trail == s.trail
  {
    if candidates != [] {
      UpsertAllAssets(s, candidates[..|candidates| - 1], at);
    }
  }

  lemma IngestInv(s: Store, e: Envelope, receivedAt: Time)
    requires StoreInv(s) && EnvelopeOk(e) && Accepts(s, e, receivedAt)
    ensures StoreInv(AllUpserted(s, e, receivedAt)) && StoreInv(Ingest(s, e, receivedAt).0)
  {
    var sampled := Sampled(s, e, receivedAt);
    IngestParts(s, e, receivedAt);
    CandidatesFromEngine(s.baselines, e);
    SameIncidentsKeepInv(s, sampled);
    UpsertAllInv(sampled, Candidates(s.baselines, e), e.observedAt);
    ResolveKeepsInv(AllUpserted(s, e, receivedAt), e.agent, Heals(e), Fingerprints(Candidates(s.baselines, e)));
    SameIncidentsKeepInv(Healed(s, e, receivedAt), Ingest(s, e, receivedAt).0);
  }

  /** An accepted envelope, seen from one row: first its report, then its closure. */
  lemma IngestRow(s: Store, e: Envelope, receivedAt: Time, f: string) returns (id: nat)
    requires StoreInv(s) && EnvelopeOk(e) && Accepts(s, e, receivedAt)
    ensures RowAt(AllUpserted(s, e, receivedAt).incidents, f)
         == Upserted(RowAt(s.incidents, f), Find(Candidates(s.baselines, e), f), e.observedAt, id)
    ensures RowAt(Ingest(s, e, receivedAt).0.incidents, f)
         == Settled(Upserted(RowAt(s.incidents, f), Find(Candidates(s.baselines, e), f), e.observedAt, id),
                    f, e.agent, Heals(e), Fingerprints(Candidates(s.baselines, e)))
  {
    var sampled := Sampled(s, e, receivedAt);
    IngestParts(s, e, receivedAt);
    CandidatesFromEngine(s.baselines, e);
    id := UpsertAllRow(sampled, Candidates(s.baselines, e), e.observedAt, f);
    ResolveRow(AllUpserted(s, e, receivedAt), e.agent, Heals(e), Fingerprints(Candidates(s.baselines, e)), f);
  }

  /** A rejected envelope leaves incidents, baselines and the trail alone. */
  lemma RejectedIngest(s: Store, e: Envelope, receivedAt: Time)
    requires StoreInv(s) && !Accepts(s, e, receivedAt)
    ensures !Ingest(s, e, receivedAt).1.Accepted? && Ingest(s, e, receivedAt).0 == s
  {
  }

  // ------------------------------------------------ sweep

  function Owner(f: string): Option<Uuid> {
    if |f| >= UUID_LENGTH then Some(f[..UUID_LENGTH]) else None
  }

  function SilenceReport(s: Store, policy: SilencePolicy, now: Time, f: string): Option<IncidentCandidate> {
    if Owner(f).Some? && Owner(f).value in s.assets && SilenceFingerprint(Owner(f).value) == f then
      AgentSilence(policy, Owner(f).value, s.assets[Owner(f).value].lastSeen, now)
    else None
  }

  /** A sweep, seen from one row of a registered asset. */
  function Swept(s: Store, policy: SilencePolicy, now: Time, before: Option<Row>, f: string, id: nat): Option<Row> {
    if Owner(f).None? || Owner(f).value !in s.assets then before
    else
      var agent := Owner(f).value;
      if Silent(policy, s.assets[agent].lastSeen, now) then
        Upserted(before, SilenceReport(s, policy, now, f), now, id)
      else
        Settled(before, f, agent, [Availability], {})
  }

  lemma OwnerOfRow(s: Store, f: string)
    requires StoreInv(s) && f in s.incidents
    ensures Owner(f) == Some(s.incidents[f].assetId)
  {
    assert RowOk(s, f, s.incidents[f]);
    FingerprintPrefix(f, s.incidents[f].assetId, s.incidents[f].category);
  }

  lemma SweepOneInv(s: Store, policy: SilencePolicy, agent: Uuid, lastSeen: Time, now: Time)
    requires StoreInv(s) && agent in s.assets
    ensures StoreInv(SweepOne(s, policy, agent, lastSeen, now))
    ensures SweepOne(s, policy, agent, lastSeen, now).assets == s.assets
  {
    if Silent(policy, lastSeen, now) {
      SilenceFromEngine(policy, agent, lastSeen, now);
      UpsertKeepsInv(s, AgentSilence(policy, agent, lastSeen, now).value, now);
    } else {
      ResolveKeepsInv(s, agent, [Availability], {});
    }
  }

  lemma SweepOneRow(s: Store, policy: SilencePolicy, agent: Uuid, now: Time, f: string)
    requires StoreInv(s) && agent in s.assets
    ensures var after := SweepOne(s, policy, agent, s.assets[agent].lastSeen, now);
            && RowAt(after.incidents, f)
               == (if Owner(f) == Some(agent) then Swept(s, policy, now, RowAt(s.incidents, f), f, s.issued)
                   else RowAt(s.incidents, f))
            && after.baselines == s.baselines && s.issued <= after.issued
  {
    var lastSeen := s.assets[agent].lastSeen;
    if Silent(policy, lastSeen, now) {
      SilenceFromEngine(policy, agent, lastSeen, now);
    } else {
      ResolveRow(s, agent, [Availability], {}, f);
      if f in s.incidents {
        OwnerOfRow(s, f);
      }
    }
  }

  lemma {:induction false} SweepInv(s: Store, policy: SilencePolicy, order: seq<Uuid>, now: Time)
    requires StoreInv(s) && forall agent | agent in order :: agent in s.assets
    ensures StoreInv(Sweep(s, policy, order, now)) && Sweep(s, policy, order, now).assets == s.assets
    ensures Sweep(s, policy, order, now).baselines == s.baselines
  {
    if order != [] {
      var past, agent := order[..|order| - 1], order[|order| - 1];
      assert agent in order && forall a | a in past :: a in order;
      SweepInv(s, policy, past, now);
      SweepOneInv(Sweep(s, policy, past, now), policy, agent, s.assets[agent].lastSeen, now);
      SweepOneRow(Sweep(s, policy, past, now), policy, agent, now, "");
    }
  }

  lemma SweptElsewhere(s: Store, other: Store, policy: SilencePolicy, now: Time, before: Option<Row>, f: string,
                       id: nat)
    requires s.assets == other.assets
    ensures Swept(s, policy, now, before, f, id) == Swept(other, policy, now, before, f, id)
  {
  }

  lemma {:induction false} SweepRow(s: Store, policy: SilencePolicy, order: seq<Uuid>, now: Time, f: string)
    returns (id: nat)
    requires StoreInv(s)
    requires forall i, j | 0 <= i < j < |order| :: order[i] != order[j]
    requires forall agent | agent in order :: agent in s.assets
    ensures RowAt(Sweep(s, policy, order, now).incidents, f)
         == if Owner(f).Some? && Owner(f).value in order then Swept(s, policy, now, RowAt(s.incidents, f), f, id)
            else RowAt(s.incidents, f)
  {
    if order == [] {
      id := s.issued;
    } else {
      var past, agent := order[..|order| - 1], order[|order| - 1];
      assert agent !in past;
      assert order == past + [agent];
      id := SweepRow(s, policy, past, now, f);
      var mid := Sweep(s, policy, past, now);
      SweepInv(s, policy, past, now);
      SweepOneRow(mid, policy, agent, now, f);
      if Owner(f) == Some(agent) {
        id := mid.issued;
        SweptElsewhere(s, mid, policy, now, RowAt(s.incidents, f), f, id);
      }
    }
  }
}
