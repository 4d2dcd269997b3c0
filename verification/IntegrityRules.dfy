/** Watched files: a changed digest, and permissions that let anyone write. */
module IntegrityRules {
  import opened Models
  import opened Detect

  const ACCESS_CRITICAL: seq<string> := [
    "sshd_config", "sudoers", "passwd", "shadow", "group",
    "authorized_keys", "pam.d", "crontab", "hosts.allow", "hosts.deny"]

  function ChangedRule(): string {
    RuleId(Integrity, "file.changed")
  }

  function PermissionsRule(): string {
    RuleId(Integrity, "file.permissions")
  }

  function LowerAscii(c: char): char {
    if 'A' <= c <= 'Z' then ((c as int) + 32) as char else c
  }

  predicate IsAccessCritical(path: string) {
    var lowered := seq(|path|, i requires 0 <= i < |path| => LowerAscii(path[i]));
    exists marker | marker in ACCESS_CRITICAL ::
      exists i | 0 <= i <= |lowered| :: marker <= lowered[i..]
  }

  predicate Differs(baseline: map<string, string>, file: WatchedFile) {
    file.path in baseline && baseline[file.path] != file.digest
  }

  function ChangedFinding(agent: Uuid, file: WatchedFile, previous: string, at: Time): IncidentCandidate {
    IncidentCandidate(Fingerprint(agent, ChangedRule(), file.path), agent,
                      if IsAccessCritical(file.path) then High else Medium, Integrity,
                      [Change("file.digest.changed", previous, file.digest, at)], file.path)
  }

  function PermissionsFinding(agent: Uuid, file: WatchedFile, at: Time): IncidentCandidate {
    IncidentCandidate(Fingerprint(agent, PermissionsRule(), file.path), agent, High, Integrity,
                      [Mode("file.mode", if file.mode.Some? then file.mode.value else 0, at)], file.path)
  }

  function FileFindings(agent: Uuid, file: WatchedFile, baseline: map<string, string>, at: Time)
    : seq<IncidentCandidate>
  {
    (if Differs(baseline, file) then [ChangedFinding(agent, file, baseline[file.path], at)] else [])
    + (if file.IsWorldWritable() then [PermissionsFinding(agent, file, at)] else [])
  }

  function IntegrityFindings(agent: Uuid, files: seq<WatchedFile>, baseline: map<string, string>, at: Time)
    : seq<IncidentCandidate>
  {
    if files == [] then []
    else
      IntegrityFindings(agent, files[..|files| - 1], baseline, at)
      + FileFindings(agent, files[|files| - 1], baseline, at)
  }

  method DetectIntegrity(agent: Uuid, files: seq<WatchedFile>, baseline: map<string, string>, at: Time)
    returns (findings: seq<IncidentCandidate>)
    ensures findings == IntegrityFindings(agent, files, baseline, at)
  {
    findings := [];
    for i := 0 to |files|
      invariant findings == IntegrityFindings(agent, files[..i], baseline, at)
    {
      var file := files[i];
      ghost var earlier := findings;
      assert files[..i + 1][..i] == files[..i];
      if file.path in baseline && baseline[file.path] != file.digest {
        findings := findings + [ChangedFinding(agent, file, baseline[file.path], at)];
      }
      if file.IsWorldWritable() {
        findings := findings + [PermissionsFinding(agent, file, at)];
      }
      assert findings == earlier + FileFindings(agent, file, baseline, at);
    }
    assert files[..|files|] == files;
  }

  /** Some entry for `path` differs from the digest remembered for it. */
  predicate PathDiffers(files: seq<WatchedFile>, baseline: map<string, string>, path: string) {
    exists file | file in files :: file.path == path && Differs(baseline, file)
  }

  predicate PathExposed(files: seq<WatchedFile>, path: string) {
    exists file | file in files :: file.path == path && file.IsWorldWritable()
  }

  /** The two integrity rules never share a fingerprint. */
  lemma RulesApart(agent: Uuid, p: string, q: string)
    ensures Fingerprint(agent, ChangedRule(), p) != Fingerprint(agent, PermissionsRule(), q)
  {
    var f, g := Fingerprint(agent, ChangedRule(), p), Fingerprint(agent, PermissionsRule(), q);
    assert f[UUID_LENGTH + 16] == ChangedRule()[15] == 'c';
    assert g[UUID_LENGTH + 16] == PermissionsRule()[15] == 'p';
  }

  /** Each rule reports a path exactly when it should: it differs from its baseline, or anyone may write it. */
  lemma {:induction false} IntegrityReports(agent: Uuid, files: seq<WatchedFile>, baseline: map<string, string>,
                                            at: Time,
                                            path: string)
    ensures Reported(IntegrityFindings(agent, files, baseline, at), Fingerprint(agent, ChangedRule(), path))
       <==> PathDiffers(files, baseline, path)
    ensures Reported(IntegrityFindings(agent, files, baseline, at), Fingerprint(agent, PermissionsRule(), path))
       <==> PathExposed(files, path)
    ensures forall c | c in IntegrityFindings(agent, files, baseline, at) ::
              c.assetId == agent && c.category == Integrity && FromEngine(c)
  {
    if files != [] {
      var past, file := files[..|files| - 1], files[|files| - 1];
      assert files == past + [file];
      IntegrityReports(agent, past, baseline, at, path);
      var earlier, own := IntegrityFindings(agent, past, baseline, at), FileFindings(agent, file, baseline, at);
      ReportedConcat(earlier, own, Fingerprint(agent, ChangedRule(), path));
      ReportedConcat(earlier, own, Fingerprint(agent, PermissionsRule(), path));
      OwnReport(agent, file, baseline, at, path);
    }
  }

  lemma ReportedConcat(a: seq<IncidentCandidate>, b: seq<IncidentCandidate>, f: string)
    ensures Reported(a + b, f) <==> Reported(a, f) || Reported(b, f)
  {
    if Reported(a, f) {
      var i :| 0 <= i < |a| && a[i].fingerprint == f;
      assert (a + b)[i] == a[i];
    }
    if Reported(b, f) {
      var i :| 0 <= i < |b| && b[i].fingerprint == f;
      assert (a + b)[|a| + i] == b[i];
    }
  }

  lemma OwnReport(agent: Uuid, file: WatchedFile, baseline: map<string, string>, at: Time, path: string)
    ensures Reported(FileFindings(agent, file, baseline, at), Fingerprint(agent, ChangedRule(), path))
       <==> file.path == path && Differs(baseline, file)
    ensures Reported(FileFindings(agent, file, baseline, at), Fingerprint(agent, PermissionsRule(), path))
       <==> file.path == path && file.IsWorldWritable()
    ensures forall c | c in FileFindings(agent, file, baseline, at) ::
              c.assetId == agent && c.category == Integrity && FromEngine(c)
  {
    var own := FileFindings(agent, file, baseline, at);
    RulesApart(agent, path, file.path);
    RulesApart(agent, file.path, path);
    if Fingerprint(agent, PermissionsRule(), file.path) == Fingerprint(agent, PermissionsRule(), path) {
      FingerprintKey(agent, PermissionsRule(), file.path, path);
    }
    if Fingerprint(agent, ChangedRule(), file.path) == Fingerprint(agent, ChangedRule(), path) {
      FingerprintKey(agent, ChangedRule(), file.path, path);
    }
    if Differs(baseline, file) {
      assert own[0] == ChangedFinding(agent, file, baseline[file.path], at);
    }
    if file.IsWorldWritable() {
      assert own[|own| - 1] == PermissionsFinding(agent, file, at);
    }
    assert FromEngine(PermissionsFinding(agent, file, at));
    assert Differs(baseline, file) ==> FromEngine(ChangedFinding(agent, file, baseline[file.path], at));
  }
}
