/** Automatic closures and operator decisions are on the record, once each. */
module AuditTrail {
  import opened Wrappers
  import opened Models
  import opened AvailabilityRules
  import opened Tables
  import opened Lifecycle
  import opened LifecycleInv
  import opened LifecycleRuns

  predicate ClosedBy(before: Option<Row>, after: Option<Row>) {
    Unresolved(before) && after.Some? && after.value.status == Resolved
  }

  /** Steps at which the engine, not an operator, resolved the incident. */
  ghost function EngineClosures(policy: SilencePolicy, s: Store, steps: seq<Step>, f: string): nat
    requires Legal(policy, s, steps)
    decreases |steps|
  {
    if steps == [] then 0
    else EngineClosure(policy, s, steps[0], f) + EngineClosures(policy, Apply(policy, s, steps[0]), steps[1..], f)
  }

  ghost function EngineClosure(policy: SilencePolicy, s: Store, step: Step, f: string): nat
    requires StepOk(s, step)
  {
    if !step.Operator? && ClosedBy(RowAt(s.incidents, f), RowAt(Apply(policy, s, step).incidents, f)) then 1 else 0
  }

  /** Closures of the incident that the trail records. */
  function Recorded(s: Store, f: string): nat {
    if f in s.incidents then s.trail[AutoResolved(s.incidents[f].id, f)] else 0
  }

  lemma NotYetRecorded(s: Store, f: string, id: nat)
    requires StoreInv(s) && f !in s.incidents
    ensures s.trail[AutoResolved(id, f)] == 0
  {
    assert AutoResolved(id, f) !in s.trail;
  }

  lemma UpsertsRecordNothing(s: Store, e: Envelope, receivedAt: Time, f: string)
    requires StoreInv(s) && EnvelopeOk(e) && Accepts(s, e, receivedAt)
    ensures Recorded(AllUpserted(s, e, receivedAt), f) == Recorded(s, f)
  {
    var upserted := AllUpserted(s, e, receivedAt);
    var id := IngestRow(s, e, receivedAt, f);
    UpsertAllAssets(Sampled(s, e, receivedAt), Candidates(s.baselines, e), e.observedAt);
    if f !in s.incidents && f in upserted.incidents {
      NotYetRecorded(s, f, upserted.incidents[f].id);
    }
  }

  lemma ResolutionRecords(s: Store, agent: Uuid, categories: seq<Category>, still: set<string>, f: string)
    requires StoreInv(s)
    ensures Recorded(Tables.AutoResolve(s, agent, categories, still), f)
         == Recorded(s, f) + ClosureCount(RowAt(s.incidents, f), f, agent, categories, still)
  {
    if f in s.incidents {
      assert RowOk(s, f, s.incidents[f]);
      ResolveTrail(s, agent, categories, still, f);
    }
  }

  lemma ReportedIsNotClosed(s: Store, e: Envelope, receivedAt: Time, f: string)
    requires StoreInv(s) && EnvelopeOk(e) && Accepts(s, e, receivedAt)
    ensures ClosureCount(RowAt(AllUpserted(s, e, receivedAt).incidents, f), f, e.agent, Heals(e),
                         Fingerprints(Candidates(s.baselines, e)))
         == if ClosedBy(RowAt(s.incidents, f), RowAt(Ingest(s, e, receivedAt).0.incidents, f)) then 1 else 0
  {
    var id := IngestRow(s, e, receivedAt, f);
    FindReports(Candidates(s.baselines, e), f);
  }

  lemma IngestTrail(s: Store, e: Envelope, receivedAt: Time, f: string)
    requires StoreInv(s) && EnvelopeOk(e) && Accepts(s, e, receivedAt)
    ensures var after := Ingest(s, e, receivedAt).0;
            Recorded(after, f)
            == Recorded(s, f) + if ClosedBy(RowAt(s.incidents, f), RowAt(after.incidents, f)) then 1 else 0
  {
    IngestInv(s, e, receivedAt);
    IngestParts(s, e, receivedAt);
    UpsertsRecordNothing(s, e, receivedAt, f);
    ResolutionRecords(AllUpserted(s, e, receivedAt), e.agent, Heals(e), Fingerprints(Candidates(s.baselines, e)), f);
    ReportedIsNotClosed(s, e, receivedAt, f);
    assert Recorded(Ingest(s, e, receivedAt).0, f) == Recorded(Healed(s, e, receivedAt), f);
  }

  lemma SweepOneTrail(s: Store, policy: SilencePolicy, agent: Uuid, now: Time, f: string)
    requires StoreInv(s) && agent in s.assets
    ensures var after := SweepOne(s, policy, agent, s.assets[agent].lastSeen, now);
            Recorded(after, f)
            == Recorded(s, f) + if ClosedBy(RowAt(s.incidents, f), RowAt(after.incidents, f)) then 1 else 0
  {
    if f in s.incidents {
      assert RowOk(s, f, s.incidents[f]);
      ResolveTrail(s, agent, [Availability], {}, f);
    } else {
      NotYetRecorded(s, f, s.issued);
    }
  }

  lemma {:induction false} SweepTrail(s: Store, policy: SilencePolicy, order: seq<Uuid>, now: Time, f: string)
    requires StoreInv(s)
    requires forall i, j | 0 <= i < j < |order| :: order[i] != order[j]
    requires forall agent | agent in order :: agent in s.assets
    ensures var after := Sweep(s, policy, order, now);
            Recorded(after, f)
            == Recorded(s, f) + if ClosedBy(RowAt(s.incidents, f), RowAt(after.incidents, f)) then 1 else 0
  {
    if order != [] {
      var past, agent := order[..|order| - 1], order[|order| - 1];
      assert agent in order && forall a | a in past :: a in order;
      assert agent !in past;
      var mid := Sweep(s, policy, past, now);
      SweepInv(s, policy, past, now);
      SweepTrail(s, policy, past, now, f);
      SweepOneTrail(mid, policy, agent, now, f);
      var id := SweepRow(s, policy, past, now, f);
      SweepOneRow(mid, policy, agent, now, f);
    }
  }

  lemma StepTrail(policy: SilencePolicy, s: Store, step: Step, f: string)
    requires StoreInv(s) && StepOk(s, step)
    ensures Recorded(Apply(policy, s, step), f) == Recorded(s, f) + EngineClosure(policy, s, step, f)
  {
    match step
    case Telemetry(e, receivedAt) =>
      if Accepts(s, e, receivedAt) {
        IngestTrail(s, e, receivedAt, f);
      } else {
        RejectedIngest(s, e, receivedAt);
      }
    case SilenceSweep(now, order) => SweepTrail(s, policy, order, now, f);
    case Register(_, _) =>
    case Operator(_, _, _) =>
  }

  /** The trail holds exactly one closure entry for each time the engine resolved the incident. */
  lemma {:induction false} TrailAccountsForClosures(policy: SilencePolicy, s: Store, steps: seq<Step>, f: string)
    requires StoreInv(s) && Legal(policy, s, steps)
    ensures Recorded(Run(policy, s, steps), f) == Recorded(s, f) + EngineClosures(policy, s, steps, f)
    decreases |steps|
  {
    if steps != [] {
      StepKeepsInv(policy, s, steps[0]);
      StepTrail(policy, s, steps[0], f);
      TrailAccountsForClosures(policy, Apply(policy, s, steps[0]), steps[1..], f);
    }
  }

  // ------------------------------------------------ the operator's entries

  /** What a step records of an operator's decision on the incident: the status it found and the one it set. */
  function Decision(s: Store, step: Step, f: string): multiset<AuditEntry> {
    if step.Operator? && f in s.incidents && s.incidents[f].id == step.id then
      multiset{StatusChanged(step.id, step.actor, s.incidents[f].status, step.status)}
    else
      multiset{}
  }

  /** The decisions of a run that named the incident. */
  ghost function Decisions(policy: SilencePolicy, s: Store, steps: seq<Step>, f: string): multiset<AuditEntry>
    requires Legal(policy, s, steps)
    decreases |steps|
  {
    if steps == [] then multiset{}
    else Decision(s, steps[0], f) + Decisions(policy, Apply(policy, s, steps[0]), steps[1..], f)
  }

  /** `id` is the identifier of `f` or of no incident yet. */
  ghost predicate Names(s: Store, id: nat, f: string) {
    forall g | g in s.incidents :: s.incidents[g].id == id <==> g == f
  }

  ghost predicate SameDecisions(s: Store, after: Store) {
    forall e: AuditEntry | e.StatusChanged? :: after.trail[e] == s.trail[e]
  }

  lemma {:induction false} SweepDecidesNothing(s: Store, policy: SilencePolicy, order: seq<Uuid>, now: Time)
    requires forall agent | agent in order :: agent in s.assets
    ensures SameDecisions(s, Sweep(s, policy, order, now))
  {
    if order != [] {
      assert forall a | a in order[..|order| - 1] :: a in order;
      SweepDecidesNothing(s, policy, order[..|order| - 1], now);
    }
  }

  lemma IngestDecidesNothing(s: Store, e: Envelope, receivedAt: Time)
    requires StoreInv(s)
    ensures SameDecisions(s, Ingest(s, e, receivedAt).0)
  {
    if Accepts(s, e, receivedAt) {
      IngestParts(s, e, receivedAt);
      UpsertAllAssets(Sampled(s, e, receivedAt), Candidates(s.baselines, e), e.observedAt);
    } else {
      RejectedIngest(s, e, receivedAt);
    }
  }

  lemma StepDecides(policy: SilencePolicy, s: Store, step: Step, f: string, entry: AuditEntry)
    requires StoreInv(s) && StepOk(s, step) && entry.StatusChanged? && Names(s, entry.id, f)
    ensures Apply(policy, s, step).trail[entry] == s.trail[entry] + Decision(s, step, f)[entry]
  {
    match step
    case Telemetry(e, receivedAt) => IngestDecidesNothing(s, e, receivedAt);
    case SilenceSweep(now, order) => SweepDecidesNothing(s, policy, order, now);
    case Register(_, _) =>
    case Operator(id, _, _) =>
      assert forall g | g in s.incidents :: RowOk(s, g, s.incidents[g]);
      if HasId(s.incidents, f, id) {
        assert FindId(s.incidents, id) == Some(f);
      }
  }

  /** An identifier names the same incident from the first table that holds it on. */
  lemma NamedAllAlong(policy: SilencePolicy, s: Store, steps: seq<Step>, f: string)
    requires StoreInv(s) && Legal(policy, s, steps) && f in Run(policy, s, steps).incidents
    ensures Names(s, Run(policy, s, steps).incidents[f].id, f)
  {
    var after := Run(policy, s, steps);
    RunKeepsInv(policy, s, steps);
    forall g | g in s.incidents ensures s.incidents[g].id == after.incidents[f].id <==> g == f {
      OneRowPerFingerprint(policy, s, steps, g);
      assert SameIncident(s.incidents[g], after.incidents[g]);
    }
  }

  /**
   The operator's half: over every run, the status changes the trail records of an incident are exactly
   the operator steps that named it, each with its actor, the status it found and the status it set.
   */
  lemma {:induction false} TrailAccountsForDecisions(policy: SilencePolicy, s: Store, steps: seq<Step>, f: string,
                                                     entry: AuditEntry)
    requires StoreInv(s) && Legal(policy, s, steps) && f in Run(policy, s, steps).incidents
    requires entry.StatusChanged? && entry.id == Run(policy, s, steps).incidents[f].id
    ensures Run(policy, s, steps).trail[entry] == s.trail[entry] + Decisions(policy, s, steps, f)[entry]
    decreases |steps|
  {
    if steps != [] {
      NamedAllAlong(policy, s, steps, f);
      StepKeepsInv(policy, s, steps[0]);
      StepDecides(policy, s, steps[0], f, entry);
      TrailAccountsForDecisions(policy, Apply(policy, s, steps[0]), steps[1..], f, entry);
    }
  }
}
