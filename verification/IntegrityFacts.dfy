/** What the integrity rules conclude of a report, in digests, permission bits and path names. */
module IntegrityFacts {
  import opened Models
  import opened Detect
  import opened IntegrityRules

  /** `c` is the letter `l`, lower-case as it stands or once lowered. */
  predicate LowersTo(c: char, l: char) {
    if 'A' <= c <= 'Z' then (c as int) + 32 == l as int else c == l
  }

  predicate MentionsAt(path: string, marker: string, i: nat) {
    i + |marker| <= |path| && forall k | 0 <= k < |marker| :: LowersTo(path[i + k], marker[k])
  }

  /** The path names a file that decides who gets in, in whatever ASCII case. */
  ghost predicate GovernsAccess(path: string) {
    exists marker, i: nat :: marker in ACCESS_CRITICAL && MentionsAt(path, marker, i)
  }

  lemma MarkerAt(path: string, lowered: string, marker: string, i: nat)
    requires |lowered| == |path| && forall k | 0 <= k < |path| :: lowered[k] == LowerAscii(path[k])
    requires i <= |lowered|
    ensures marker <= lowered[i..] <==> MentionsAt(path, marker, i)
  {
    if i + |marker| <= |path| {
      assert forall k | 0 <= k < |marker| :: LowersTo(path[i + k], marker[k]) <==> lowered[i..][k] == marker[k];
    }
  }

  lemma AccessCriticalExactly(path: string)
    ensures IsAccessCritical(path) <==> GovernsAccess(path)
  {
    var lowered := seq(|path|, i requires 0 <= i < |path| => LowerAscii(path[i]));
    if IsAccessCritical(path) {
      var marker :| marker in ACCESS_CRITICAL && exists i | 0 <= i <= |lowered| :: marker <= lowered[i..];
      var i: nat :| i <= |lowered| && marker <= lowered[i..];
      MarkerAt(path, lowered, marker, i);
    }
    if marker, i: nat :| marker in ACCESS_CRITICAL && MentionsAt(path, marker, i) {
      MarkerAt(path, lowered, marker, i);
    }
  }

  /** A report of `path` whose digest is not the remembered one. */
  predicate ChangedFile(file: WatchedFile, baseline: map<string, string>, path: string) {
    file.path == path && path in baseline && baseline[path] != file.digest
  }

  /** The last octal digit of the mode, the permissions of others, includes writing. */
  predicate OpenToAll(file: WatchedFile, path: string) {
    file.path == path && file.mode.Some? && file.mode.value % 8 in {2, 3, 6, 7}
  }

  lemma WritableBit(file: WatchedFile)
    ensures OpenToAll(file, file.path) <==> file.IsWorldWritable()
  {
    if file.mode.Some? {
      var m := file.mode.value;
      assert m == 8 * (m / 8) + m % 8;
      assert m / 2 == 4 * (m / 8) + m % 8 / 2;
    }
  }

  lemma {:induction false} FoundInOneFile(agent: Uuid, files: seq<WatchedFile>, baseline: map<string, string>, at: Time,
                                          c: IncidentCandidate)
    ensures c in IntegrityFindings(agent, files, baseline, at)
       <==> exists file | file in files :: c in FileFindings(agent, file, baseline, at)
  {
    if files != [] {
      var past, file := files[..|files| - 1], files[|files| - 1];
      assert files == past + [file];
      FoundInOneFile(agent, past, baseline, at, c);
    }
  }

  lemma RuleNames()
    ensures ChangedRule() == "integrity." + "file.changed" && PermissionsRule() == "integrity." + "file.permissions"
  {
    assert Integrity.Name() + "." == "integrity.";
  }

  lemma FileFindingsByRule(agent: Uuid, file: WatchedFile, baseline: map<string, string>, at: Time, path: string,
                           c: IncidentCandidate)
    requires c in FileFindings(agent, file, baseline, at)
    ensures c.fingerprint == Fingerprint(agent, ChangedRule(), path) ==>
              ChangedFile(file, baseline, path) && c == ChangedFinding(agent, file, baseline[path], at)
    ensures c.fingerprint == Fingerprint(agent, PermissionsRule(), path) ==>
              file.path == path && file.IsWorldWritable() && c == PermissionsFinding(agent, file, at)
  {
    RulesApart(agent, path, file.path);
    RulesApart(agent, file.path, path);
    if c.fingerprint == Fingerprint(agent, PermissionsRule(), file.path)
       && c.fingerprint == Fingerprint(agent, PermissionsRule(), path)
    {
      FingerprintKey(agent, PermissionsRule(), file.path, path);
    }
    if c.fingerprint == Fingerprint(agent, ChangedRule(), file.path)
       && c.fingerprint == Fingerprint(agent, ChangedRule(), path)
    {
      FingerprintKey(agent, ChangedRule(), file.path, path);
    }
  }

  /**
   A change, from the report: found for a path iff an entry's digest is not the remembered one, high iff
   the path governs access, with the digest before and the digest now as evidence.
   */
  lemma ChangedExactly(agent: Uuid, files: seq<WatchedFile>, baseline: map<string, string>, at: Time, path: string)
    ensures var findings := IntegrityFindings(agent, files, baseline, at);
            var f := Fingerprint(agent, "integrity." + "file.changed", path);
            && (Reported(findings, f) <==> exists file | file in files :: ChangedFile(file, baseline, path))
            && forall c | c in findings && c.fingerprint == f ::
                 && c.severity == (if GovernsAccess(path) then High else Medium)
                 && exists file | file in files ::
                      && ChangedFile(file, baseline, path)
                      && c.evidence == [Change("file.digest.changed", baseline[path], file.digest, at)]
  {
    RuleNames();
    IntegrityReports(agent, files, baseline, at, path);
    AccessCriticalExactly(path);
    forall c | c in IntegrityFindings(agent, files, baseline, at)
               && c.fingerprint == Fingerprint(agent, ChangedRule(), path)
      ensures exists file | file in files ::
                ChangedFile(file, baseline, path) && c == ChangedFinding(agent, file, baseline[path], at)
    {
      FoundInOneFile(agent, files, baseline, at, c);
      var file :| file in files && c in FileFindings(agent, file, baseline, at);
      FileFindingsByRule(agent, file, baseline, at, path, c);
    }
  }

  /** Lax permissions, from the report: found for a path iff an entry lets others write, always high, with the mode. */
  lemma PermissionsExactly(agent: Uuid, files: seq<WatchedFile>, baseline: map<string, string>, at: Time, path: string)
    ensures var findings := IntegrityFindings(agent, files, baseline, at);
            var f := Fingerprint(agent, "integrity." + "file.permissions", path);
            && (Reported(findings, f) <==> exists file | file in files :: OpenToAll(file, path))
            && forall c | c in findings && c.fingerprint == f ::
                 && c.severity == High
                 && exists file | file in files ::
                      && OpenToAll(file, path)
                      && c.evidence == [Mode("file.mode", file.mode.value, at)]
  {
    RuleNames();
    IntegrityReports(agent, files, baseline, at, path);
    forall file: WatchedFile ensures OpenToAll(file, file.path) <==> file.IsWorldWritable() {
      WritableBit(file);
    }
    forall c | c in IntegrityFindings(agent, files, baseline, at)
               && c.fingerprint == Fingerprint(agent, PermissionsRule(), path)
      ensures exists file | file in files :: OpenToAll(file, path) && c == PermissionsFinding(agent, file, at)
    {
      FoundInOneFile(agent, files, baseline, at, c);
      var file :| file in files && c in FileFindings(agent, file, baseline, at);
      FileFindingsByRule(agent, file, baseline, at, path, c);
    }
  }
}
