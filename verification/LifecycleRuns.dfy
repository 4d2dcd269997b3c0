/** What holds of every incident over every run of ingests, sweeps, registrations and operator decisions. */
module LifecycleRuns {
  import opened Wrappers
  import opened Models
  import opened Detect
  import opened AvailabilityRules
  import opened Posture
  import opened Tables
  import opened Lifecycle
  import opened LifecycleInv

  datatype Step =
    | Telemetry(envelope: Envelope, receivedAt: Time)
    | Register(agent: Uuid, now: Time)
    | SilenceSweep(now: Time, order: seq<Uuid>)
    | Operator(id: nat, status: IncidentStatus, actor: string)

  ghost predicate StepOk(s: Store, step: Step) {
    match step
    case Telemetry(e, _) => EnvelopeOk(e)
    case SilenceSweep(_, order) => Enumerates(order, s.assets.Keys)
    case _ => true
  }

  ghost function Apply(policy: SilencePolicy, s: Store, step: Step): Store
    requires StepOk(s, step)
  {
    match step
    case Telemetry(e, receivedAt) => Ingest(s, e, receivedAt).0
    case Register(agent, now) => Tables.UpsertAsset(s, agent, now)
    case SilenceSweep(now, order) => Sweep(s, policy, order, now)
    case Operator(id, status, actor) => Tables.SetStatus(s, id, status, actor)
  }

  ghost predicate Legal(policy: SilencePolicy, s: Store, steps: seq<Step>)
    decreases |steps|
  {
    steps == [] || (StepOk(s, steps[0]) && Legal(policy, Apply(policy, s, steps[0]), steps[1..]))
  }

  ghost function Run(policy: SilencePolicy, s: Store, steps: seq<Step>): Store
    requires Legal(policy, s, steps)
    decreases |steps|
  {
    if steps == [] then s else Run(policy, Apply(policy, s, steps[0]), steps[1..])
  }

  lemma StepKeepsInv(policy: SilencePolicy, s: Store, step: Step)
    requires StoreInv(s) && StepOk(s, step)
    ensures StoreInv(Apply(policy, s, step))
  {
    match step
    case Telemetry(e, receivedAt) =>
      if Accepts(s, e, receivedAt) {
        IngestInv(s, e, receivedAt);
      } else {
        RejectedIngest(s, e, receivedAt);
      }
    case Register(agent, now) => SameIncidentsKeepInv(s, Tables.UpsertAsset(s, agent, now));
    case SilenceSweep(now, order) => SweepInv(s, policy, order, now);
    case Operator(id, status, actor) => StatusKeepsInv(s, id, status, actor);
  }

  lemma {:induction false} RunKeepsInv(policy: SilencePolicy, s: Store, steps: seq<Step>)
    requires StoreInv(s) && Legal(policy, s, steps)
    ensures StoreInv(Run(policy, s, steps))
    decreases |steps|
  {
    if steps != [] {
      StepKeepsInv(policy, s, steps[0]);
      RunKeepsInv(policy, Apply(policy, s, steps[0]), steps[1..]);
    }
  }

  lemma InvIsCoherent(s: Store)
    requires StoreInv(s)
    ensures AllCoherent(s.incidents)
  {
    forall f | f in s.incidents ensures Coherent(s.incidents[f], f) {
      assert RowOk(s, f, s.incidents[f]);
    }
  }

  // ------------------------------------------------ what a step reports

  /** The finding with fingerprint `f` that a step upserts, if it upserts one: never more than one. */
  ghost function Report(policy: SilencePolicy, s: Store, step: Step, f: string): Option<IncidentCandidate> {
    match step
    case Telemetry(e, receivedAt) =>
      if Accepts(s, e, receivedAt) then Find(Candidates(s.baselines, e), f) else None
    case SilenceSweep(now, _) => SilenceReport(s, policy, now, f)
    case _ => None
  }

  function At(step: Step): Time {
    match step
    case Telemetry(e, _) => e.observedAt
    case SilenceSweep(now, _) => now
    case Register(_, now) => now
    case Operator(_, _, _) => 0
  }

  /** What no step may change in a row that already exists. */
  predicate SameIncident(a: Row, b: Row) {
    a.id == b.id && a.assetId == b.assetId && a.firstSeen == b.firstSeen && a.category == b.category
  }

  /**
   A reported finding is open again with the latest evidence, whatever an operator had decided before.
   Of an incident that is not reported, nothing but the status changes.
   */
  predicate RowStep(before: Option<Row>, after: Option<Row>, report: Option<IncidentCandidate>, at: Time) {
    match report
    case None =>
      && (before.None? <==> after.None?)
      && (before.Some? ==>
            var status := after.value.status;
            after.value == before.value.(status := status, record := before.value.record.(status := status)))
    case Some(c) =>
      && after.Some?
      && after.value.status == Open
      && after.value.lastSeen == at
      && after.value.record.evidence == c.evidence && after.value.record.body == c.body
      && (before.None? ==>
            && after.value.record.occurrences == 1
            && after.value.severity == c.severity
            && after.value.firstSeen == at)
      && (before.Some? ==>
            && SameIncident(before.value, after.value)
            && after.value.severity == Worse(before.value.severity, c.severity)
            && after.value.record.occurrences == Min(before.value.record.occurrences + 1, U64_MAX))
  }

  lemma UpsertIsRowStep(s: Store, f: string, c: IncidentCandidate, at: Time, id: nat)
    requires StoreInv(s) && FromEngine(c) && c.fingerprint == f
    ensures RowStep(RowAt(s.incidents, f), Some(UpsertRow(RowAt(s.incidents, f), c, at, id)), Some(c), at)
    ensures UpsertRow(RowAt(s.incidents, f), c, at, id).assetId == c.assetId
  {
    if f in s.incidents {
      assert RowOk(s, f, s.incidents[f]);
      FingerprintDetermines(f, c.assetId, c.category, s.incidents[f].assetId, s.incidents[f].category);
    }
  }

  lemma TelemetryRow(policy: SilencePolicy, s: Store, e: Envelope, receivedAt: Time, f: string)
    requires StoreInv(s) && EnvelopeOk(e)
    ensures var step := Telemetry(e, receivedAt);
            RowStep(RowAt(s.incidents, f), RowAt(Ingest(s, e, receivedAt).0.incidents, f),
                    Report(policy, s, step, f), e.observedAt)
  {
    if Accepts(s, e, receivedAt) {
      var id := IngestRow(s, e, receivedAt, f);
      CandidatesFromEngine(s.baselines, e);
      var report := Find(Candidates(s.baselines, e), f);
      FindReports(Candidates(s.baselines, e), f);
      if report.Some? {
        UpsertIsRowStep(s, f, report.value, e.observedAt, id);
      }
    } else {
      RejectedIngest(s, e, receivedAt);
    }
  }

  lemma SweptIsRowStep(policy: SilencePolicy, s: Store, now: Time, f: string, id: nat)
    requires StoreInv(s)
    ensures RowStep(RowAt(s.incidents, f), Swept(s, policy, now, RowAt(s.incidents, f), f, id),
                    SilenceReport(s, policy, now, f), now)
  {
    var report := SilenceReport(s, policy, now, f);
    if report.Some? {
      var agent := Owner(f).value;
      SilenceFromEngine(policy, agent, s.assets[agent].lastSeen, now);
      UpsertIsRowStep(s, f, report.value, now, id);
    }
  }

  lemma SweepStepRow(policy: SilencePolicy, s: Store, now: Time, order: seq<Uuid>, f: string)
    requires StoreInv(s) && Enumerates(order, s.assets.Keys)
    ensures RowStep(RowAt(s.incidents, f), RowAt(Sweep(s, policy, order, now).incidents, f),
                    SilenceReport(s, policy, now, f), now)
  {
    var id := SweepRow(s, policy, order, now, f);
    SweptIsRowStep(policy, s, now, f, id);
  }

  lemma StepRow(policy: SilencePolicy, s: Store, step: Step, f: string)
    requires StoreInv(s) && StepOk(s, step)
    ensures RowStep(RowAt(s.incidents, f), RowAt(Apply(policy, s, step).incidents, f),
                    Report(policy, s, step, f), At(step))
  {
    match step
    case Telemetry(e, receivedAt) => TelemetryRow(policy, s, e, receivedAt, f);
    case SilenceSweep(now, order) => SweepStepRow(policy, s, now, order, f);
    case Register(_, _) =>
    case Operator(_, _, _) =>
  }

  // ------------------------------------------------ one row per fingerprint

  /** Cycles of the run that reported `f`. */
  ghost function Cycles(policy: SilencePolicy, s: Store, steps: seq<Step>, f: string): nat
    requires Legal(policy, s, steps)
    decreases |steps|
  {
    if steps == [] then 0
    else
      (if Report(policy, s, steps[0], f).Some? then 1 else 0)
      + Cycles(policy, Apply(policy, s, steps[0]), steps[1..], f)
  }

  function WorseOf(a: Option<Severity>, b: Option<Severity>): Option<Severity> {
    if a.None? then b else if b.None? then a else Some(Worse(a.value, b.value))
  }

  function SeverityOf(report: Option<IncidentCandidate>): Option<Severity> {
    if report.Some? then Some(report.value.severity) else None
  }

  /** The worst severity the run ever reported for `f`. */
  ghost function WorstReported(policy: SilencePolicy, s: Store, steps: seq<Step>, f: string): Option<Severity>
    requires Legal(policy, s, steps)
    decreases |steps|
  {
    if steps == [] then None
    else
      WorseOf(SeverityOf(Report(policy, s, steps[0], f)),
              WorstReported(policy, Apply(policy, s, steps[0]), steps[1..], f))
  }

  ghost function FirstReported(policy: SilencePolicy, s: Store, steps: seq<Step>, f: string): Option<Time>
    requires Legal(policy, s, steps)
    decreases |steps|
  {
    if steps == [] then None
    else if Report(policy, s, steps[0], f).Some? then Some(At(steps[0]))
    else FirstReported(policy, Apply(policy, s, steps[0]), steps[1..], f)
  }

  function OccurrencesOf(row: Option<Row>): nat {
    if row.Some? then row.value.record.occurrences else 0
  }

  function SeverityIn(row: Option<Row>): Option<Severity> {
    if row.Some? then Some(row.value.severity) else None
  }

  lemma WorseAssociates(a: Option<Severity>, b: Option<Severity>, c: Option<Severity>)
    ensures WorseOf(WorseOf(a, b), c) == WorseOf(a, WorseOf(b, c))
  {
  }

  /** What `cycles` reports, the worst of severity `worst` and the first at `first`, make of a row. */
  predicate Tallied(before: Option<Row>, after: Option<Row>, cycles: nat, worst: Option<Severity>,
                    first: Option<Time>) {
    && (after.Some? <==> before.Some? || cycles > 0)
    && OccurrencesOf(after) == Min(OccurrencesOf(before) + cycles, U64_MAX)
    && SeverityIn(after) == WorseOf(SeverityIn(before), worst)
    && (before.Some? ==> SameIncident(before.value, after.value))
    && (before.None? && after.Some? ==> first == Some(after.value.firstSeen))
  }

  lemma TallyStep(before: Option<Row>, mid: Option<Row>, after: Option<Row>, report: Option<IncidentCandidate>,
                  at: Time,
                  cycles: nat, worst: Option<Severity>, first: Option<Time>)
    requires RowStep(before, mid, report, at) && Tallied(mid, after, cycles, worst, first)
    ensures Tallied(before, after, (if report.Some? then 1 else 0) + cycles, WorseOf(SeverityOf(report), worst),
                    if report.Some? then Some(at) else first)
  {
    WorseAssociates(SeverityIn(before), SeverityOf(report), worst);
  }

  lemma TallyNothing(s: Store, f: string)
    requires StoreInv(s)
    ensures Tallied(RowAt(s.incidents, f), RowAt(s.incidents, f), 0, None, None)
  {
    assert f in s.incidents ==> RowOk(s, f, s.incidents[f]);
  }

  /**
   From any reachable tables on, a fingerprint keeps one row: its identity and first sighting never
   change, its severity is the worst ever reported and its occurrences count the reporting cycles.
   */
  lemma {:induction false} OneRowPerFingerprint(policy: SilencePolicy, s: Store, steps: seq<Step>, f: string)
    requires StoreInv(s) && Legal(policy, s, steps)
    ensures Tallied(RowAt(s.incidents, f), RowAt(Run(policy, s, steps).incidents, f), Cycles(policy, s, steps, f),
                    WorstReported(policy, s, steps, f), FirstReported(policy, s, steps, f))
    decreases |steps|
  {
    if steps == [] {
      TallyNothing(s, f);
    } else {
      var next, rest := Apply(policy, s, steps[0]), steps[1..];
      StepKeepsInv(policy, s, steps[0]);
      StepRow(policy, s, steps[0], f);
      OneRowPerFingerprint(policy, next, rest, f);
      TallyStep(RowAt(s.incidents, f), RowAt(next.incidents, f), RowAt(Run(policy, next, rest).incidents, f),
                Report(policy, s, steps[0], f), At(steps[0]), Cycles(policy, next, rest, f),
                WorstReported(policy, next, rest, f), FirstReported(policy, next, rest, f));
    }
  }

  // ------------------------------------------------ what an inspected surface settles

  predicate Unresolved(row: Option<Row>) {
    row.Some? && row.value.status != Resolved
  }

  predicate OpenIn(row: Option<Row>, agent: Uuid, category: Category) {
    Unresolved(row) && row.value.assetId == agent && row.value.category == category
  }

  lemma FindIsTheOne(candidates: seq<IncidentCandidate>, f: string, category: Category)
    requires Distinct(candidates)
    ensures (exists c :: c in candidates && c.fingerprint == f && c.category == category)
       <==> Find(candidates, f).Some? && Find(candidates, f).value.category == category
  {
    FindReports(candidates, f);
    if c :| c in candidates && c.fingerprint == f {
      var i :| 0 <= i < |candidates| && candidates[i] == c;
      assert Reported(candidates, f);
      var found := Find(candidates, f).value;
      var j :| 0 <= j < |candidates| && candidates[j] == found;
      assert i == j;
    }
  }

  lemma InspectedRow(s: Store, e: Envelope, receivedAt: Time, category: Category, f: string)
    requires StoreInv(s) && EnvelopeOk(e) && Accepts(s, e, receivedAt) && category in Heals(e)
    ensures var after := RowAt(Ingest(s, e, receivedAt).0.incidents, f);
            var report := Find(Candidates(s.baselines, e), f);
            && (OpenIn(after, e.agent, category) <==> report.Some? && report.value.category == category)
            && (OpenIn(after, e.agent, category) ==> after.value.status == Open)
  {
    var id := IngestRow(s, e, receivedAt, f);
    CandidatesFromEngine(s.baselines, e);
    FindReports(Candidates(s.baselines, e), f);
    var report := Find(Candidates(s.baselines, e), f);
    if report.Some? {
      UpsertIsRowStep(s, f, report.value, e.observedAt, id);
    } else if f in s.incidents {
      assert RowOk(s, f, s.incidents[f]);
    }
  }

  /**
   After a cycle that inspected a category's surface, the asset's unresolved incidents in it are
   exactly the findings of that cycle, and all of them are open, whatever happened before.
   */
  lemma InspectedExactly(s: Store, e: Envelope, receivedAt: Time, category: Category, f: string)
    requires StoreInv(s) && EnvelopeOk(e) && Accepts(s, e, receivedAt) && category in Heals(e)
    ensures var after := RowAt(Ingest(s, e, receivedAt).0.incidents, f);
            && (OpenIn(after, e.agent, category)
                <==> exists c :: c in Candidates(s.baselines, e) && c.fingerprint == f && c.category == category)
            && (OpenIn(after, e.agent, category) ==> after.value.status == Open)
  {
    CandidatesFromEngine(s.baselines, e);
    InspectedRow(s, e, receivedAt, category, f);
    FindIsTheOne(Candidates(s.baselines, e), f, category);
  }

  // ------------------------------------------------ nothing uninspected closes

  /** The surface a category depends on was collected in this cycle, with no gap. */
  predicate Inspected(e: Envelope, category: Category) {
    e.security.Some? &&
    match category
    case Exposure => !e.security.value.HasGap("listeners")
    case Hygiene => !e.security.value.HasGap("firewall") && !e.security.value.HasGap("security-updates")
    case _ => false
  }

  lemma HealsInspected(e: Envelope, category: Category)
    ensures category in Heals(e) <==> Inspected(e, category)
  {
  }

  /**
   An accepted envelope closes an unresolved incident if and only if it is this asset's, its surface
   was inspected without gaps and the cycle no longer finds it.
   */
  lemma IngestClosesIff(s: Store, e: Envelope, receivedAt: Time, f: string)
    requires StoreInv(s) && EnvelopeOk(e) && Accepts(s, e, receivedAt) && Unresolved(RowAt(s.incidents, f))
    ensures var row := s.incidents[f];
            f in Ingest(s, e, receivedAt).0.incidents
            && (Ingest(s, e, receivedAt).0.incidents[f].status == Resolved
                <==> row.assetId == e.agent && Inspected(e, row.category)
                     && forall c | c in Candidates(s.baselines, e) :: c.fingerprint != f)
  {
    var id := IngestRow(s, e, receivedAt, f);
    var report := Find(Candidates(s.baselines, e), f);
    HealsInspected(e, s.incidents[f].category);
    FindReports(Candidates(s.baselines, e), f);
    assert RowOk(s, f, s.incidents[f]);
    if c :| c in Candidates(s.baselines, e) && c.fingerprint == f {
      var i :| 0 <= i < |Candidates(s.baselines, e)| && Candidates(s.baselines, e)[i] == c;
      assert Reported(Candidates(s.baselines, e), f);
    }
  }

  /** No envelope of `agent` in the run may heal `category`. */
  predicate NeverHeals(steps: seq<Step>, agent: Uuid, category: Category) {
    forall step | step in steps :: step.Telemetry? && step.envelope.agent == agent ==> category !in Heals(step.envelope)
  }

  predicate Unattended(steps: seq<Step>) {
    forall step | step in steps :: !step.Operator?
  }

  lemma IngestLeavesOpen(s: Store, e: Envelope, receivedAt: Time, f: string)
    requires StoreInv(s) && EnvelopeOk(e) && Unresolved(RowAt(s.incidents, f))
    requires e.agent == s.incidents[f].assetId ==> s.incidents[f].category !in Heals(e)
    ensures Unresolved(RowAt(Ingest(s, e, receivedAt).0.incidents, f))
  {
    assert RowOk(s, f, s.incidents[f]);
    if Accepts(s, e, receivedAt) {
      var id := IngestRow(s, e, receivedAt, f);
      FindReports(Candidates(s.baselines, e), f);
    } else {
      RejectedIngest(s, e, receivedAt);
    }
  }

  lemma SweptLeavesOpen(policy: SilencePolicy, s: Store, now: Time, f: string, id: nat)
    requires f in s.incidents && Coherent(s.incidents[f], f)
    requires Unresolved(RowAt(s.incidents, f)) && s.incidents[f].category != Availability
    ensures Unresolved(Swept(s, policy, now, RowAt(s.incidents, f), f, id))
  {
  }

  lemma SweepLeavesOpen(policy: SilencePolicy, s: Store, now: Time, order: seq<Uuid>, f: string)
    requires StoreInv(s) && Enumerates(order, s.assets.Keys)
    requires Unresolved(RowAt(s.incidents, f)) && s.incidents[f].category != Availability
    ensures Unresolved(RowAt(Sweep(s, policy, order, now).incidents, f))
  {
    InvIsCoherent(s);
    var id := SweepRow(s, policy, order, now, f);
    SweptLeavesOpen(policy, s, now, f, id);
  }

  lemma StaysOpen(policy: SilencePolicy, s: Store, step: Step, f: string)
    requires StoreInv(s) && StepOk(s, step) && !step.Operator?
    requires Unresolved(RowAt(s.incidents, f)) && s.incidents[f].category != Availability
    requires NeverHeals([step], s.incidents[f].assetId, s.incidents[f].category)
    ensures Unresolved(RowAt(Apply(policy, s, step).incidents, f))
  {
    assert step in [step];
    match step
    case Telemetry(e, receivedAt) => IngestLeavesOpen(s, e, receivedAt, f);
    case SilenceSweep(now, order) => SweepLeavesOpen(policy, s, now, order, f);
    case Register(_, _) =>
  }

  /** The incident is one that no envelope of the run may close. */
  predicate Uninspected(steps: seq<Step>, row: Row) {
    && row.category != Availability
    && (row.category in {Exposure, Hygiene} ==> NeverHeals(steps, row.assetId, row.category))
  }

  lemma UninspectedTail(steps: seq<Step>, row: Row)
    requires steps != [] && Unattended(steps) && Uninspected(steps, row)
    ensures !steps[0].Operator? && NeverHeals([steps[0]], row.assetId, row.category)
    ensures Unattended(steps[1..]) && Uninspected(steps[1..], row)
  {
    assert steps[0] in steps && forall t | t in steps[1..] :: t in steps;
    if steps[0].Telemetry? {
      HealsInspected(steps[0].envelope, row.category);
    }
  }

  /**
   Without an operator, an incident whose surface is never inspected stays unresolved through any run
   of ingests and sweeps. For intrusion, integrity and resource incidents no surface ever counts.
   */
  lemma {:induction false} NothingUninspectedCloses(policy: SilencePolicy, s: Store, steps: seq<Step>, f: string)
    requires StoreInv(s) && Legal(policy, s, steps) && Unattended(steps)
    requires Unresolved(RowAt(s.incidents, f)) && Uninspected(steps, s.incidents[f])
    ensures Unresolved(RowAt(Run(policy, s, steps).incidents, f))
    decreases |steps|
  {
    if steps != [] {
      var next := Apply(policy, s, steps[0]);
      UninspectedTail(steps, s.incidents[f]);
      StepKeepsInv(policy, s, steps[0]);
      StepRow(policy, s, steps[0], f);
      StaysOpen(policy, s, steps[0], f);
      NothingUninspectedCloses(policy, next, steps[1..], f);
    }
  }

  /** An operator's decision reaches the one incident it names, whatever its category, and no other row. */
  lemma OperatorDecides(s: Store, id: nat, status: IncidentStatus, actor: string, f: string)
    requires StoreInv(s)
    ensures var after := Tables.SetStatus(s, id, status, actor);
            && (f in s.incidents && s.incidents[f].id == id ==>
                  after.incidents[f] == s.incidents[f].(status := status,
                                                        record := s.incidents[f].record.(status := status)))
            && (f in s.incidents && s.incidents[f].id != id ==> after.incidents[f] == s.incidents[f])
  {
    if f in s.incidents {
      assert HasId(s.incidents, f, s.incidents[f].id);
    }
  }

  // ------------------------------------------------ the silence sweep is exact

  ghost predicate ShownSilent(s: Store, agent: Uuid) {
    exists f :: OpenIn(RowAt(s.incidents, f), agent, Availability)
  }

  /** After a sweep, an asset shows an unresolved availability incident if and only if it is silent. */
  lemma SweepExact(policy: SilencePolicy, s: Store, order: seq<Uuid>, now: Time, agent: Uuid)
    requires StoreInv(s) && Enumerates(order, s.assets.Keys)
    ensures ShownSilent(Sweep(s, policy, order, now), agent) <==> agent in SilentAssets(s, policy, now)
  {
    var after := Sweep(s, policy, order, now);
    SweepInv(s, policy, order, now);
    if agent in SilentAssets(s, policy, now) {
      var f := SilenceFingerprint(agent);
      var id := SweepRow(s, policy, order, now, f);
      SilenceFromEngine(policy, agent, s.assets[agent].lastSeen, now);
      var report := AgentSilence(policy, agent, s.assets[agent].lastSeen, now).value;
      UpsertIsRowStep(s, f, report, now, id);
      assert OpenIn(RowAt(after.incidents, f), agent, Availability);
    } else if ShownSilent(after, agent) {
      var f :| OpenIn(RowAt(after.incidents, f), agent, Availability);
      NotShownUnlessSilent(policy, s, order, now, f);
    }
  }

  lemma NotShownUnlessSilent(policy: SilencePolicy, s: Store, order: seq<Uuid>, now: Time, f: string)
    requires StoreInv(s) && Enumerates(order, s.assets.Keys)
    requires f in Sweep(s, policy, order, now).incidents
    requires OpenIn(RowAt(Sweep(s, policy, order, now).incidents, f),
                    Sweep(s, policy, order, now).incidents[f].assetId, Availability)
    ensures Sweep(s, policy, order, now).incidents[f].assetId in SilentAssets(s, policy, now)
  {
    var after := Sweep(s, policy, order, now);
    SweepInv(s, policy, order, now);
    OwnerOfRow(after, f);
    var id := SweepRow(s, policy, order, now, f);
    if f in s.incidents {
      assert RowOk(s, f, s.incidents[f]);
    }
    SweptUnlessSilent(policy, s, now, f, id, after.incidents[f].assetId);
  }

  lemma SweptUnlessSilent(policy: SilencePolicy, s: Store, now: Time, f: string, id: nat, agent: Uuid)
    requires f in s.incidents ==> Coherent(s.incidents[f], f) && s.incidents[f].assetId in s.assets
    requires Owner(f) == Some(agent) && OpenIn(Swept(s, policy, now, RowAt(s.incidents, f), f, id), agent, Availability)
    ensures agent in SilentAssets(s, policy, now)
  {
  }

  // ------------------------------------------------ the stored posture

  /**
   The score an ingest stores is the one computed from the asset's whole incident list, in whatever
   order it is listed, and it says nothing better than the worst incident still unresolved.
   */
  lemma StoredPostureIsHonest(s: Store, e: Envelope, receivedAt: Time, listing: seq<string>)
    requires StoreInv(s) && EnvelopeOk(e) && Accepts(s, e, receivedAt)
    requires Lists(Ingest(s, e, receivedAt).0.incidents, Some(e.agent), listing)
    ensures var after := Ingest(s, e, receivedAt).0;
            var incidents := Records(after.incidents, listing);
            && e.agent in after.assets
            && after.assets[e.agent].postureScore == Some(ScoreOf(Summary(incidents), []).score)
            && (forall i | i in incidents && i.status != Resolved ::
                  after.assets[e.agent].postureScore.value <= Ceiling(Some(i.severity)))
  {
    var after := Ingest(s, e, receivedAt).0;
    IngestParts(s, e, receivedAt);
    IngestInv(s, e, receivedAt);
    InvIsCoherent(after);
    GroupedIsSummary(after.incidents, Some(e.agent), listing, []);
    SummaryCaps(Records(after.incidents, listing));
  }

  lemma SummaryCaps(incidents: seq<Incident>)
    ensures forall i | i in incidents && i.status != Resolved ::
              Headline(Summary(incidents)) <= Ceiling(Some(i.severity))
  {
    HeadlineBounded(Summary(incidents));
    forall i | i in incidents && i.status != Resolved
      ensures Headline(Summary(incidents)) <= Ceiling(Some(i.severity))
    {
      SummaryHas(incidents, i);
      assert CATEGORIES[Position(i.category)] == i.category;
      assert HasSeverity(Summary(incidents), i.severity);
    }
  }

  lemma {:induction false} SummaryHas(incidents: seq<Incident>, i: Incident)
    requires i in incidents && i.status != Resolved
    ensures (i.category, i.severity) in Summary(incidents)
  {
    var past, last := incidents[..|incidents| - 1], incidents[|incidents| - 1];
    assert incidents == past + [last];
    if i != last {
      SummaryHas(past, i);
    }
  }
}
