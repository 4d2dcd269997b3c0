/** A change on disk is counted exactly once, over every run. */
module FileChanges {
  import opened Wrappers
  import opened Models
  import opened Detect
  import opened IntegrityRules
  import opened AvailabilityRules
  import opened Tables
  import opened Lifecycle
  import opened LifecycleInv
  import opened LifecycleRuns

  function DigestIn(baselines: Baselines, agent: Uuid, path: string): Option<string> {
    if (agent, path) in baselines then Some(baselines[(agent, path)]) else None
  }

  /** The digest remembered for `path` after one report. */
  function LastDigest(previous: Option<string>, files: seq<WatchedFile>, path: string): Option<string> {
    if files == [] then previous
    else
      var last := files[|files| - 1];
      if last.path == path then Some(last.digest) else LastDigest(previous, files[..|files| - 1], path)
  }

  /** Some entry of the report differs from the digest remembered from earlier reports. */
  predicate DiffersFrom(previous: Option<string>, files: seq<WatchedFile>, path: string) {
    previous.Some? && exists file | file in files :: file.path == path && file.digest != previous.value
  }

  lemma {:induction false} BaselineMoves(baselines: Baselines, agent: Uuid, files: seq<WatchedFile>, owner: Uuid,
                                         path: string)
    ensures DigestIn(MoveBaseline(baselines, agent, files), owner, path)
         == if owner == agent then LastDigest(DigestIn(baselines, agent, path), files, path)
            else DigestIn(baselines, owner, path)
  {
    if files != [] {
      BaselineMoves(baselines, agent, files[..|files| - 1], owner, path);
    }
  }

  lemma DiffersFromBaseline(baselines: Baselines, agent: Uuid, files: seq<WatchedFile>, path: string)
    ensures PathDiffers(files, BaselineOf(baselines, agent), path)
       <==> DiffersFrom(DigestIn(baselines, agent, path), files, path)
  {
    assert path in BaselineOf(baselines, agent) <==> (agent, path) in baselines by {
      if (agent, path) in baselines {
        assert (agent, path).0 == agent && (agent, path).1 == path;
      }
    }
  }

  /** The watched files of each accepted, inspected cycle of `agent`, in order. */
  ghost function FileReports(policy: SilencePolicy, s: Store, steps: seq<Step>, agent: Uuid): seq<seq<WatchedFile>>
    requires Legal(policy, s, steps)
    decreases |steps|
  {
    if steps == [] then []
    else FileReport(s, steps[0], agent) + FileReports(policy, Apply(policy, s, steps[0]), steps[1..], agent)
  }

  function FileReport(s: Store, step: Step, agent: Uuid): seq<seq<WatchedFile>> {
    if step.Telemetry? && step.envelope.agent == agent && step.envelope.security.Some?
       && Accepts(s, step.envelope, step.receivedAt)
    then [step.envelope.security.value.watchedFiles]
    else []
  }

  /** Reports that differ from what the reports before them left remembered. */
  function Changes(previous: Option<string>, reports: seq<seq<WatchedFile>>, path: string): nat
    decreases |reports|
  {
    if reports == [] then 0
    else
      (if DiffersFrom(previous, reports[0], path) then 1 else 0)
      + Changes(LastDigest(previous, reports[0], path), reports[1..], path)
  }

  function ChangePrint(agent: Uuid, path: string): string {
    Fingerprint(agent, ChangedRule(), path)
  }

  lemma ChangePrintNames(agent: Uuid, path: string)
    ensures Namespaced(ChangePrint(agent, path), agent, Integrity)
  {
  }

  lemma OthersNeverReport(agent: Uuid, findings: seq<IncidentCandidate>, owner: Uuid, path: string)
    requires FromOtherDetectors(agent, findings)
    ensures !Reported(findings, ChangePrint(owner, path))
  {
    if i :| 0 <= i < |findings| && findings[i].fingerprint == ChangePrint(owner, path) {
      var c := findings[i];
      assert c in findings;
      ChangePrintNames(owner, path);
      FingerprintDetermines(c.fingerprint, c.assetId, c.category, owner, Integrity);
    }
  }

  lemma TelemetryReports(s: Store, e: Envelope, agent: Uuid, path: string)
    requires EnvelopeOk(e)
    ensures Reported(Findings(s.baselines, e), ChangePrint(agent, path))
       <==> e.agent == agent && e.security.Some?
            && DiffersFrom(DigestIn(s.baselines, agent, path), e.security.value.watchedFiles, path)
  {
    var f := ChangePrint(agent, path);
    OthersNeverReport(e.agent, e.earlier, agent, path);
    OthersNeverReport(e.agent, e.later, agent, path);
    if e.security.Some? {
      var files := e.security.value.watchedFiles;
      var own := IntegrityFindings(e.agent, files, BaselineOf(s.baselines, e.agent), e.observedAt);
      ReportedConcat(e.earlier + own, e.later, f);
      ReportedConcat(e.earlier, own, f);
      IntegrityReports(e.agent, e.security.value.watchedFiles, BaselineOf(s.baselines, e.agent), e.observedAt, path);
      if e.agent == agent {
        DiffersFromBaseline(s.baselines, agent, e.security.value.watchedFiles, path);
      } else if Reported(own, f) {
        var i :| 0 <= i < |own| && own[i].fingerprint == f;
        assert own[i] in own;
        ChangePrintNames(agent, path);
        FingerprintDetermines(f, e.agent, Integrity, agent, Integrity);
      }
    } else {
      ReportedConcat(e.earlier + [], e.later, f);
      ReportedConcat(e.earlier, [], f);
    }
  }

  /** One step reports the change of a path if and only if it carries a report that differs. */
  lemma StepReportsChange(policy: SilencePolicy, s: Store, step: Step, agent: Uuid, path: string)
    requires StoreInv(s) && StepOk(s, step)
    ensures Report(policy, s, step, ChangePrint(agent, path)).Some?
       <==> Changes(DigestIn(s.baselines, agent, path), FileReport(s, step, agent), path) == 1
    ensures Changes(DigestIn(s.baselines, agent, path), FileReport(s, step, agent), path) <= 1
  {
    var f := ChangePrint(agent, path);
    if step.Telemetry? {
      TelemetryReports(s, step.envelope, agent, path);
      CandidatesFromEngine(s.baselines, step.envelope);
      FindReports(Candidates(s.baselines, step.envelope), f);
    } else if step.SilenceSweep? && SilenceReport(s, policy, step.now, f).Some? {
      var owner := Owner(f).value;
      SilenceFromEngine(policy, owner, s.assets[owner].lastSeen, step.now);
      ChangePrintNames(agent, path);
      FingerprintDetermines(f, owner, Availability, agent, Integrity);
    }
  }

  lemma StepMovesBaseline(policy: SilencePolicy, s: Store, step: Step, agent: Uuid, path: string)
    requires StoreInv(s) && StepOk(s, step)
    ensures var report := FileReport(s, step, agent);
            DigestIn(Apply(policy, s, step).baselines, agent, path)
            == if report == [] then DigestIn(s.baselines, agent, path)
               else LastDigest(DigestIn(s.baselines, agent, path), report[0], path)
  {
    match step
    case Telemetry(e, receivedAt) =>
      if Accepts(s, e, receivedAt) {
        IngestParts(s, e, receivedAt);
        UpsertAllAssets(Sampled(s, e, receivedAt), Candidates(s.baselines, e), e.observedAt);
        assert Healed(s, e, receivedAt).baselines == s.baselines;
        if e.security.Some? {
          BaselineMoves(s.baselines, e.agent, e.security.value.watchedFiles, agent, path);
        }
      } else {
        RejectedIngest(s, e, receivedAt);
      }
    case SilenceSweep(now, order) => SweepInv(s, policy, order, now);
    case Register(_, _) =>
    case Operator(_, _, _) =>
  }

  lemma {:induction false} CyclesAreChanges(policy: SilencePolicy, s: Store, steps: seq<Step>, agent: Uuid,
                                            path: string)
    requires StoreInv(s) && Legal(policy, s, steps)
    ensures Cycles(policy, s, steps, ChangePrint(agent, path))
         == Changes(DigestIn(s.baselines, agent, path), FileReports(policy, s, steps, agent), path)
    decreases |steps|
  {
    if steps != [] {
      var step, next := steps[0], Apply(policy, s, steps[0]);
      var rest := FileReports(policy, next, steps[1..], agent);
      StepKeepsInv(policy, s, step);
      StepReportsChange(policy, s, step, agent, path);
      StepMovesBaseline(policy, s, step, agent, path);
      CyclesAreChanges(policy, next, steps[1..], agent, path);
      ChangesPrepend(DigestIn(s.baselines, agent, path), FileReport(s, step, agent), rest, path);
    }
  }

  lemma ChangesPrepend(previous: Option<string>, first: seq<seq<WatchedFile>>, rest: seq<seq<WatchedFile>>,
                       path: string)
    requires |first| <= 1
    ensures Changes(previous, first + rest, path)
         == Changes(previous, first, path)
            + Changes(if first == [] then previous else LastDigest(previous, first[0], path), rest, path)
  {
    if first == [] {
      assert first + rest == rest;
    } else {
      assert (first + rest)[1..] == rest;
    }
  }

  /**
   Over any run, the occurrences of a path's change incident count the cycles whose report of the path
   differs from what earlier reports left remembered: no change is missed and none is counted twice.
   */
  lemma ChangesCountedOnce(policy: SilencePolicy, s: Store, steps: seq<Step>, agent: Uuid, path: string)
    requires StoreInv(s) && Legal(policy, s, steps)
    ensures var f := ChangePrint(agent, path);
            OccurrencesOf(RowAt(Run(policy, s, steps).incidents, f))
            == Min(OccurrencesOf(RowAt(s.incidents, f))
                   + Changes(DigestIn(s.baselines, agent, path), FileReports(policy, s, steps, agent), path),
                   U64_MAX)
  {
    OneRowPerFingerprint(policy, s, steps, ChangePrint(agent, path));
    CyclesAreChanges(policy, s, steps, agent, path);
  }

  // ------------------------------------------------ each path at most once per report

  predicate AtMostOnce(files: seq<WatchedFile>, path: string) {
    forall i, j | 0 <= i < j < |files| :: !(files[i].path == path && files[j].path == path)
  }

  function DigestOf(files: seq<WatchedFile>, path: string): seq<string> {
    match LastDigest(None, files, path)
    case None => []
    case Some(digest) => [digest]
  }

  /** Every digest reported for `path`, in order. */
  function Digests(reports: seq<seq<WatchedFile>>, path: string): seq<string> {
    if reports == [] then [] else DigestOf(reports[0], path) + Digests(reports[1..], path)
  }

  /** Reported digests that differ from the one reported just before; the first has none before it. */
  function Switches(previous: Option<string>, digests: seq<string>): nat
    decreases |digests|
  {
    if digests == [] then 0
    else
      (if previous.Some? && digests[0] != previous.value then 1 else 0) + Switches(Some(digests[0]), digests[1..])
  }

  lemma {:induction false} OneEntry(previous: Option<string>, files: seq<WatchedFile>, path: string)
    requires AtMostOnce(files, path)
    ensures var digest := DigestOf(files, path);
            if digest == [] then
              LastDigest(previous, files, path) == previous && forall file | file in files :: file.path != path
            else
              && LastDigest(previous, files, path) == Some(digest[0])
              && (exists file | file in files :: file.path == path)
              && forall file | file in files :: file.path == path ==> file.digest == digest[0]
  {
    if files != [] {
      var past, last := files[..|files| - 1], files[|files| - 1];
      assert files == past + [last];
      OneEntry(previous, past, path);
      if last.path == path {
        forall file | file in past ensures file.path != path {
          var i :| 0 <= i < |past| && past[i] == file;
          assert files[i] == file && files[|past|] == last;
        }
      }
    }
  }

  lemma {:induction false} ChangesAreSwitches(previous: Option<string>, reports: seq<seq<WatchedFile>>, path: string)
    requires forall files | files in reports :: AtMostOnce(files, path)
    ensures Changes(previous, reports, path) == Switches(previous, Digests(reports, path))
    decreases |reports|
  {
    if reports != [] {
      var files, digest, rest := reports[0], DigestOf(reports[0], path), Digests(reports[1..], path);
      assert AtMostOnce(files, path);
      OneEntry(previous, files, path);
      ChangesAreSwitches(LastDigest(previous, files, path), reports[1..], path);
      if digest == [] {
        assert digest + rest == rest;
      } else {
        assert (digest + rest)[1..] == rest;
      }
    }
  }

  /**
   From an empty database, with each path at most once per report, the occurrences are the number of
   reported digests that differ from the previous one reported for the path.
   */
  lemma ChangesFromEmpty(policy: SilencePolicy, steps: seq<Step>, agent: Uuid, path: string)
    requires Legal(policy, EMPTY, steps)
    requires forall files | files in FileReports(policy, EMPTY, steps, agent) :: AtMostOnce(files, path)
    ensures OccurrencesOf(RowAt(Run(policy, EMPTY, steps).incidents, ChangePrint(agent, path)))
         == Min(Switches(None, Digests(FileReports(policy, EMPTY, steps, agent), path)), U64_MAX)
  {
    EmptyInv();
    ChangesCountedOnce(policy, EMPTY, steps, agent, path);
    ChangesAreSwitches(None, FileReports(policy, EMPTY, steps, agent), path);
  }
}
