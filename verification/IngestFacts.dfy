/** What one envelope leaves in the store, in terms of what it carries. */
module IngestFacts {
  import opened Models
  import opened Detect
  import opened IntegrityRules
  import opened IntegrityFacts
  import opened AvailabilityRules
  import opened Tables
  import opened Lifecycle
  import opened LifecycleInv
  import opened LifecycleRuns

  /** Whether the envelope is taken, in seconds and without its findings. */
  lemma AcceptedIff(s: Store, e: Envelope, receivedAt: Time)
    ensures var (after, outcome) := Ingest(s, e, receivedAt);
            var second := 1_000_000_000;
            var late, early := receivedAt - e.observedAt > 86_400 * second, e.observedAt - receivedAt > 300 * second;
            && (outcome == BadTimestamp <==> late || early)
            && (outcome == UnknownAsset <==> !late && !early && !e.registers && e.agent !in s.assets)
            && (!outcome.Accepted? ==> after == s)
            && (outcome.Accepted? <==> Accepts(s, e, receivedAt))
  {
  }

  // ------------------------------------------------ what is found

  /** A watched file of the envelope gives rise to the fingerprint: it changed, or others may write it. */
  ghost predicate WatchedFileReports(b: Baselines, e: Envelope, file: WatchedFile, f: string) {
    || (f == Fingerprint(e.agent, "integrity." + "file.changed", file.path)
        && (e.agent, file.path) in b && b[(e.agent, file.path)] != file.digest)
    || (f == Fingerprint(e.agent, "integrity." + "file.permissions", file.path)
        && file.mode.Some? && file.mode.value % 8 in {2, 3, 6, 7})
  }

  ghost predicate EnvelopeReports(b: Baselines, e: Envelope, f: string) {
    || (exists c :: c in e.earlier && c.fingerprint == f)
    || (exists c :: c in e.later && c.fingerprint == f)
    || (e.security.Some? && exists file :: file in e.security.value.watchedFiles && WatchedFileReports(b, e, file, f))
  }

  lemma ReportedIn(findings: seq<IncidentCandidate>, f: string)
    ensures Reported(findings, f) <==> exists c :: c in findings && c.fingerprint == f
  {
    if c :| c in findings && c.fingerprint == f {
      var i :| 0 <= i < |findings| && findings[i] == c;
    }
    if i :| 0 <= i < |findings| && findings[i].fingerprint == f {
      assert findings[i] in findings;
    }
  }

  /** The integrity findings of the envelope, none without a surface. */
  function OwnIntegrity(b: Baselines, e: Envelope): seq<IncidentCandidate> {
    if e.security.Some? then
      IntegrityFindings(e.agent, e.security.value.watchedFiles, BaselineOf(b, e.agent), e.observedAt)
    else []
  }

  lemma OneFileReports(b: Baselines, e: Envelope, file: WatchedFile, f: string)
    ensures (exists c :: c in FileFindings(e.agent, file, BaselineOf(b, e.agent), e.observedAt) && c.fingerprint == f)
       <==> WatchedFileReports(b, e, file, f)
  {
    var baseline := BaselineOf(b, e.agent);
    var own := FileFindings(e.agent, file, baseline, e.observedAt);
    IntegrityFacts.RuleNames();
    WritableBit(file);
    assert file.path in baseline <==> (e.agent, file.path) in b;
    if Differs(baseline, file) {
      assert ChangedFinding(e.agent, file, baseline[file.path], e.observedAt) in own;
    }
    if file.IsWorldWritable() {
      assert PermissionsFinding(e.agent, file, e.observedAt) in own;
    }
  }

  lemma OwnIntegrityReports(b: Baselines, e: Envelope, f: string)
    ensures (exists c :: c in OwnIntegrity(b, e) && c.fingerprint == f)
       <==> e.security.Some?
            && exists file :: file in e.security.value.watchedFiles && WatchedFileReports(b, e, file, f)
  {
    if e.security.Some? {
      var files, baseline := e.security.value.watchedFiles, BaselineOf(b, e.agent);
      if c :| c in OwnIntegrity(b, e) && c.fingerprint == f {
        FoundInOneFile(e.agent, files, baseline, e.observedAt, c);
        var file :| file in files && c in FileFindings(e.agent, file, baseline, e.observedAt);
        OneFileReports(b, e, file, f);
      }
      if file :| file in files && WatchedFileReports(b, e, file, f) {
        OneFileReports(b, e, file, f);
        var c :| c in FileFindings(e.agent, file, baseline, e.observedAt) && c.fingerprint == f;
        FoundInOneFile(e.agent, files, baseline, e.observedAt, c);
      }
    }
  }

  lemma InFindings(b: Baselines, e: Envelope, c: IncidentCandidate)
    ensures c in Findings(b, e) <==> c in e.earlier || c in OwnIntegrity(b, e) || c in e.later
  {
  }

  lemma CandidateReports(b: Baselines, e: Envelope, f: string)
    requires EnvelopeOk(e)
    ensures Reported(Candidates(b, e), f) <==> EnvelopeReports(b, e, f)
  {
    CandidatesFromEngine(b, e);
    ReportedIn(Findings(b, e), f);
    OwnIntegrityReports(b, e, f);
    if c :| c in Findings(b, e) && c.fingerprint == f {
      InFindings(b, e, c);
    }
    if EnvelopeReports(b, e, f) {
      var c :| (c in e.earlier || c in OwnIntegrity(b, e) || c in e.later) && c.fingerprint == f;
      InFindings(b, e, c);
    }
  }

  lemma {:induction false} DistinctSize(findings: seq<IncidentCandidate>)
    requires Distinct(findings)
    ensures |Fingerprints(findings)| == |findings|
  {
    if findings != [] {
      var past, last := findings[..|findings| - 1], findings[|findings| - 1];
      DistinctSize(past);
      assert findings == past + [last];
      assert Fingerprints(findings) == Fingerprints(past) + {last.fingerprint};
    }
  }

  /** The agent is told how many different things its envelope reports, however often each was found. */
  lemma TouchedOnce(s: Store, e: Envelope, receivedAt: Time)
    requires EnvelopeOk(e) && Accepts(s, e, receivedAt)
    ensures Ingest(s, e, receivedAt).1.Accepted?
    ensures Ingest(s, e, receivedAt).1.touched
         == |set c | c in e.earlier + OwnIntegrity(s.baselines, e) + e.later :: c.fingerprint|
  {
    var raw, candidates := Findings(s.baselines, e), Candidates(s.baselines, e);
    CandidatesFromEngine(s.baselines, e);
    DistinctSize(candidates);
    forall f ensures f in Fingerprints(candidates) <==> f in Fingerprints(raw) {
      ReportedIn(candidates, f);
      ReportedIn(raw, f);
    }
    assert raw == e.earlier + OwnIntegrity(s.baselines, e) + e.later;
    assert Fingerprints(candidates) == Fingerprints(raw);
  }

  // ------------------------------------------------ what is stored

  lemma CandidateStandsFor(b: Baselines, e: Envelope, f: string)
    requires EnvelopeOk(e) && Reported(Candidates(b, e), f)
    ensures Find(Candidates(b, e), f).Some? && StandsFor(Findings(b, e), f, Find(Candidates(b, e), f).value)
  {
    var raw, candidates := Findings(b, e), Candidates(b, e);
    AnalyzeOrders(raw);
    MergeLosesNothing(raw);
    FindReports(candidates, f);
    var m := Find(candidates, f).value;
    assert m in multiset(candidates);
    var i :| 0 <= i < |Merged(raw)| && Merged(raw)[i] == m;
  }

  /**
   Nothing found is lost on the way: after an accepted envelope every finding of every detector, integrity
   included, has an open incident, at least as severe, seen at that instant and carrying its evidence.
   */
  lemma FindingsReachTheStore(s: Store, e: Envelope, receivedAt: Time, c: IncidentCandidate)
    requires StoreInv(s) && EnvelopeOk(e) && Accepts(s, e, receivedAt)
    requires c in e.earlier || c in e.later || c in OwnIntegrity(s.baselines, e)
    ensures var after := Ingest(s, e, receivedAt).0.incidents;
            && c.fingerprint in after
            && var row := after[c.fingerprint];
               && row.status == Open && row.lastSeen == e.observedAt
               && row.assetId == e.agent && row.category == c.category
               && c.severity.Rank() <= row.severity.Rank()
               && forall x | x in c.evidence :: x in row.record.evidence
  {
    var raw, f := Findings(s.baselines, e), c.fingerprint;
    InFindings(s.baselines, e, c);
    StoredStandsFor(s, e, receivedAt, c);
    IngestInv(s, e, receivedAt);
    var after := Ingest(s, e, receivedAt).0;
    assert RowOk(after, f, after.incidents[f]);
    RawFromEngine(s.baselines, e);
    FingerprintDetermines(f, c.assetId, c.category, after.incidents[f].assetId, after.incidents[f].category);
  }

  lemma StoredStandsFor(s: Store, e: Envelope, receivedAt: Time, c: IncidentCandidate)
    requires StoreInv(s) && EnvelopeOk(e) && Accepts(s, e, receivedAt) && c in Findings(s.baselines, e)
    ensures var after := Ingest(s, e, receivedAt).0.incidents;
            && c.fingerprint in after
            && var row := after[c.fingerprint];
               && row.status == Open && row.lastSeen == e.observedAt
               && c.severity.Rank() <= row.severity.Rank()
               && forall x | x in c.evidence :: x in row.record.evidence
  {
    var raw, f := Findings(s.baselines, e), c.fingerprint;
    ReportedIn(raw, f);
    CandidatesFromEngine(s.baselines, e);
    CandidateStandsFor(s.baselines, e, f);
    TelemetryRow(SilencePolicy(5, 1), s, e, receivedAt, f);
    var m := Find(Candidates(s.baselines, e), f).value;
    var i :| 0 <= i < |raw| && raw[i] == c;
    forall x | x in c.evidence ensures x in m.evidence {
      assert Supported(raw, f, x);
    }
    var k :| Leads(raw, k) && raw[k].fingerprint == f && m == raw[k].(evidence := m.evidence);
    assert c.severity.Rank() <= m.severity.Rank();
  }

  ghost predicate FoundUnder(b: Baselines, e: Envelope, f: string, c: IncidentCandidate) {
    (c in e.earlier || c in OwnIntegrity(b, e) || c in e.later) && c.fingerprint == f
  }

  lemma LeadWasFound(b: Baselines, e: Envelope, f: string, m: IncidentCandidate, x: Evidence)
    requires StandsFor(Findings(b, e), f, m)
    ensures exists c :: FoundUnder(b, e, f, c) && c.severity == m.severity
    ensures x in m.evidence ==> exists c :: FoundUnder(b, e, f, c) && x in c.evidence
  {
    var raw := Findings(b, e);
    var k :| Leads(raw, k) && raw[k].fingerprint == f && m == raw[k].(evidence := m.evidence);
    InFindings(b, e, raw[k]);
    assert FoundUnder(b, e, f, raw[k]) && raw[k].severity == m.severity;
    if x in m.evidence {
      assert Supported(raw, f, x);
      var i :| 0 <= i < |raw| && raw[i].fingerprint == f && x in raw[i].evidence;
      InFindings(b, e, raw[i]);
      assert FoundUnder(b, e, f, raw[i]);
    }
  }

  /** And nothing is made up: a reported incident has the severity and the evidence of findings under its name. */
  lemma StoredWasFound(s: Store, e: Envelope, receivedAt: Time, f: string, x: Evidence)
    requires StoreInv(s) && EnvelopeOk(e) && Accepts(s, e, receivedAt) && EnvelopeReports(s.baselines, e, f)
    ensures var row := RowAt(Ingest(s, e, receivedAt).0.incidents, f);
            && row.Some?
            && ((f in s.incidents && row.value.severity == s.incidents[f].severity)
                || exists c :: FoundUnder(s.baselines, e, f, c) && c.severity == row.value.severity)
            && (x in row.value.record.evidence ==> exists c :: FoundUnder(s.baselines, e, f, c) && x in c.evidence)
  {
    CandidateReports(s.baselines, e, f);
    CandidateStandsFor(s.baselines, e, f);
    TelemetryRow(SilencePolicy(5, 1), s, e, receivedAt, f);
    LeadWasFound(s.baselines, e, f, Find(Candidates(s.baselines, e), f).value, x);
  }

  /**
   An inspected surface, in terms of the envelope: afterwards an incident of a category that heals is
   unresolved iff the envelope reports it.
   */
  lemma InspectedIffReported(s: Store, e: Envelope, receivedAt: Time, category: Category, f: string)
    requires StoreInv(s) && EnvelopeOk(e) && Accepts(s, e, receivedAt) && Inspected(e, category)
    requires f in s.incidents && s.incidents[f].assetId == e.agent && s.incidents[f].category == category
    ensures Unresolved(RowAt(Ingest(s, e, receivedAt).0.incidents, f)) <==> EnvelopeReports(s.baselines, e, f)
  {
    HealsInspected(e, category);
    InspectedRow(s, e, receivedAt, category, f);
    CandidateReports(s.baselines, e, f);
    FindReports(Candidates(s.baselines, e), f);
    TelemetryRow(SilencePolicy(5, 1), s, e, receivedAt, f);
  }
}
