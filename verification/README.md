# A verified model of the RootCause control plane

RootCause is a server that watches other servers: agents report telemetry and a security surface, detectors turn
each report into findings, and a control plane keeps the findings as incidents and defends its own door. This project
models three parts of it and proves what they promise over whole runs.

**The perimeter** (`Defense`, `Auth`, `PerimeterRuns`, `Interleavings`, `RateLimit`, `RateRefusals`, `GuessBound`,
`Pruning`, `Evictions`, `DefenseLog`). One token bucket, failure counter and timed lockout per client address, in one
bounded table with eviction and pruning. `Perimeter` and `AppState` are classes whose methods are proved equal to
functions on the table. A run is a sequence of gate requests and watchdog prunes; a request names the oldest entry it
evicts, if it must evict one. `Interleavings` goes below the run: critical sections of concurrent requests in any
interleaving, at instants in any order. The arithmetic is exact: instants are nanoseconds, and a token is scaled by 60 *
10^9, so that a request costs `REQUEST` and a bucket refills by `rate` per nanosecond.

**The incident lifecycle** (`Models`, `Detect`, `IntegrityRules`, `IntegrityFacts`, `AvailabilityRules`, `Tables`,
`Storage`, `Lifecycle`, `LifecycleInv`, `LifecycleRuns`, `IngestFacts`, `Signals`, `FileChanges`, `AuditTrail`). The
tables are maps (incidents by fingerprint, with their columns and the record stored beside them; file baselines by agent
and path; assets) and an append-only audit log. `Database` and `ControlPlane` are classes; each method is proved equal
to a function on `Store`. A run is a sequence of ingests, registrations, silence sweeps and operator decisions.

**Summaries that keep their meaning** (`Intrusion`, `AuthDetection`, `AuthRules`, `AuthLog`, `AuthGroups`,
`AuthParsing`, `LogLines`, `Posture`, `PostureFormula`, `Tables`). What the agent aggregates is shown to lead to the
findings of the raw events, and what the database counts is shown to give the posture of the full list. `Ordering`
models the standard library's ordered maps and stable sort.

Two results correct a natural reading of the code rather than confirm it, each with a run from the empty table that
shows it:

- Forgetting an idle address is not always harmless. With a token set, it goes unnoticed if and only if nothing was counted against the
  address (or a lockout, by then over, had reset the count); a half-counted address gets its guesses back
  (`Pruning.PruneUnobservableIff`, and the run in `Pruning.PruneForgetsAGuess`). `GuessBound.GuessBound` bounds what
  that can give away.
- The lockout hint is cut to whole seconds, so a client that waits exactly the hint may still be refused;
  `RateLimit.LockoutHintExact` gives the exact condition and `RateLimit.LockoutHintFallsShort` a run that meets it. The
  rate-limit hint has no such gap.

A remark on `aggregate` as a function of its own: its grouping key reads a missing user name as the empty one, so on
arbitrary events it keeps every conclusion if and only if no failing source loses an empty name to a group that began
without one (`AuthLog.AggregationDetectionIff`, `AuthLog.EmptyNameLost`). The agent never meets that case. `aggregate`
is called on the events of the two parsers alone (crates/rootcause-agent/src/authlog.rs:100 and 184), and neither emits
an empty name: sshd names are words split at white space (lines 144-164), and Windows names come from a filter that
drops empty values (line 193). `AuthParsing` models the parsers, and `AuthParsing.AggregationPreservesDetection` holds
for everything they emit.

Where documentation and code differ, the code is followed: the comment on `list_incidents` speaks of 500 rows when no
limit is given (crates/rootcause-server/src/storage.rs:552-554), while the code then returns every row, and
`Tables.GroupedIsSummary` compares with the whole list.

## Main theorems

The table below gives the source of every member named in it; these are the results the others lead to.

- Perimeter: `Interleavings.RateBoundInterleaved` and `RateRefusals.RateLimitedIff` (the rate limit, from both sides),
  `RateLimit.RetryHintExact`, `GuessBound.GuessBound`, which is met, and `GuessBound.NoEarlyLockout` (the lockout, from
  both sides), `Pruning.PruneUnobservableIff`, `PerimeterRuns.ThrottledCredentialsUnseen`, and
  `Evictions.SparedUnlessCrowded`, which says when an address is not evicted, as the others ask.
- Incident lifecycle: `LifecycleRuns.RunKeepsInv`, `LifecycleRuns.OneRowPerFingerprint`,
  `LifecycleRuns.InspectedExactly`, `LifecycleRuns.NothingUninspectedCloses`, `LifecycleRuns.SweepExact`,
  `FileChanges.ChangesCountedOnce`, `AuditTrail.TrailAccountsForClosures` and `AuditTrail.TrailAccountsForDecisions`.
- Summaries: `Detect.MergeLosesNothing`, `AuthDetection.ReportsExactly`, `AuthDetection.DetectionIgnoresOrder`,
  `AuthParsing.AggregationPreservesDetection`, `AuthLog.AggregationDetectionIff`, `AuthLog.AggregationNeverInvents`,
  `Tables.GroupedIsSummary`, `Posture.HeadlineAntitone` and `LifecycleRuns.StoredPostureIsHonest`.

Theorems about a function of the model say little if the function is wrong, so the operations are also pinned down in
terms of their inputs alone: stored instants and permission bits, sums of event counts, sets of rows, positions in a
line of text. `IngestFacts.FindingsReachTheStore` and `IngestFacts.InspectedIffReported` do so for an ingest,
`Signals.SilentSinceLastHeard` for the silence sweep, `AuthRules` for the authentication rules,
`AuthGroups.RankedExactly` for the aggregate, `LogLines` for the parsers, `IntegrityFacts` for watched files,
`PostureFormula` for the score and `DefenseLog.LogAccounts` for what the gate writes down.

The rows about methods of `Perimeter`, `AppState`, `Database` and `ControlPlane`, and about the loops of the detectors,
are the bridge from these theorems to the code's own form.

## Model

| member | source | states |
|---|---|---|
| Defense.Perimeter.constructor | crates/rootcause-server/src/defense.rs:77-86 | an empty table, and limits raised to at least one request, one failure and one second |
| Defense.Perimeter.EvictOldest | crates/rootcause-server/src/defense.rs:182-188 | removes one entry with the least last sighting, and nothing from an empty table |
| Defense.Perimeter.Check | crates/rootcause-server/src/defense.rs:89-122 | evicts only for a new address at a full table; the new table and decision; keeps buckets within capacity and unlocked counters below the threshold |
| Defense.Perimeter.RecordFailure | crates/rootcause-server/src/defense.rs:125-140 | the new table and whether this failure locked the address; the table stays valid |
| Defense.Perimeter.RecordSuccess | crates/rootcause-server/src/defense.rs:143-148 | clears the address's counter and lockout and touches no other entry |
| Defense.Perimeter.LockedSources | crates/rootcause-server/src/defense.rs:151-156 | counts the addresses whose lockout lies ahead |
| Defense.Perimeter.Prune | crates/rootcause-server/src/defense.rs:159-164 | keeps exactly the locked entries and those seen within the idle window |
| Auth.GateComposes | crates/rootcause-server/src/auth.rs:73-101 | the gate is check, then comparison, then failure or success, on the table itself |
| Auth.AppState.RequireAuth | crates/rootcause-server/src/auth.rs:62-102 | new table and verdict of one request, a missing token read as the empty one, and the defence events it records, in order |
| PerimeterRuns.GateIsolates | crates/rootcause-server/src/defense.rs:89-99 | a request keeps the table within its bound, changes no other entry, and removes at most one, an oldest, only for a new address at a full table |
| PerimeterRuns.ReachableInv | crates/rootcause-server/src/defense.rs:89-164 | in every reachable table: bounded size, no overfull bucket, no entry from the future, and an unlocked counter below the threshold |
| PerimeterRuns.ThrottledCredentialsUnseen | crates/rootcause-server/src/auth.rs:73-98 | over whole runs, no answer and no stored entry depends on the credential of a throttled request |
| Evictions.EvictionTakesACrowd | crates/rootcause-server/src/defense.rs:89-94 | an evicted address was overtaken since its last sighting by a full table of distinct other addresses |
| Evictions.SparedUnlessCrowded | crates/rootcause-server/src/defense.rs:182-188 | an address is not evicted in a window unless a full table of distinct others made requests since it was last seen; a prune may still drop its entry |
| Interleavings.RateBoundInterleaved | crates/rootcause-server/src/defense.rs:89-164 | from any table, for any interleaving of critical sections at instants in any order that does not evict the address nor prune entries younger than a minute: its allowed checks are at most one bucket plus the refill of the net time elapsed and of every step the clock took back |
| Interleavings.BackwardTermIsNeeded | crates/rootcause-server/src/defense.rs:110-112 | that bound cannot drop the steps back: a late check lets two requests of a one-request bucket pass at the same instant |
| RateLimit.GateRunInterleaves | crates/rootcause-server/src/auth.rs:73-101 | every run of the gate is one of those interleavings, with the same tables, admissions and clock |
| RateLimit.RateBoundAnyOrder | crates/rootcause-server/src/defense.rs:94-122 | the same bound, under the same conditions, for the requests the gate admits in any window, ordered or not |
| RateLimit.RateBound | crates/rootcause-server/src/defense.rs:94-122 | with ordered instants, the requests admitted in any window from any table that does not evict the address are at most one bucket plus the refill of the window's length, prunes of a minute's idleness included |
| RateLimit.RatePerMinute | crates/rootcause-server/src/defense.rs:77-121 | in any m minutes in which the address is not evicted, at most m + 1 times the configured rate is admitted |
| RateLimit.RefusalKeepsPotential | crates/rootcause-server/src/defense.rs:110-121 | a refused request, or a prune of a minute's idleness, leaves the address's future tokens exactly as they were: capped refill composes |
| RateRefusals.RefusedOnlyBeyondTheRate | crates/rootcause-server/src/defense.rs:110-121 | after any run from the empty table, evictions and prunes included, a request is refused for lack of tokens only if admitting it would break the bound of some window that ends with it |
| RateRefusals.RateLimitedIff | crates/rootcause-server/src/defense.rs:94-122 | without evictions and with prunes of a minute's idleness, a request no lockout stops is rate-limited iff admitting it would break the bound of some window |
| RateLimit.RetryHintExact | crates/rootcause-server/src/defense.rs:114-119 | whatever refused traffic and prunes of a minute's idleness come in between, short of an eviction, a check after the hint is allowed and one up to a second before it is refused |
| RateLimit.LockoutHolds | crates/rootcause-server/src/defense.rs:101-104 | until expiry every request of a locked address that is not evicted is locked out, whatever its credential, and the entry does not move |
| RateLimit.LockoutHintExact | crates/rootcause-server/src/defense.rs:178-180 | the hint is at least one second, falls short of the wait by less than a second, and beyond that least second never exceeds it; waiting it is too short iff more than a second and not a whole number of seconds was left |
| RateLimit.LockoutHintFallsShort | crates/rootcause-server/src/defense.rs:178-180 | a run from the empty table in which a client waits exactly the hint and is locked out still |
| RateLimit.LockedSourcesExact | crates/rootcause-server/src/defense.rs:151-156 | an address is counted as locked iff its next check answers locked out |
| GuessBound.GuessBound | crates/rootcause-server/src/defense.rs:101-148 | after any past and whatever credentials come, failed comparisons in a window in which the address is not evicted are at most threshold times one plus the whole periods it lasts, plus threshold less one for each request authorized; a period is the shorter of the lockout and the prune's idleness |
| GuessBound.StrangerGuessBound | crates/rootcause-server/src/defense.rs:125-140 | an address that is not evicted and never authorized in the window, even if it sends the right credential while throttled, gets the threshold times one plus the whole periods |
| GuessBound.GuessBoundIsMet | crates/rootcause-server/src/defense.rs:125-148 | for every threshold and number of successes, a run from the empty table at one instant makes as many failed comparisons as the bound allows, given a bucket that holds its requests |
| GuessBound.NoEarlyLockout | crates/rootcause-server/src/defense.rs:125-140 | with fewer than threshold failures counted, old and new, no request of an address that is not evicted is ever locked out |
| GuessBound.CountStep | crates/rootcause-server/src/defense.rs:143-148 | an event counts at most its own failed comparison, and a right credential starts the count over |
| GuessBound.LockoutLastsExactly | crates/rootcause-server/src/defense.rs:133-137 | the failure that completes the threshold, and no other, locks for exactly the lockout; afterwards the right credential passes |
| GuessBound.LateFailure | crates/rootcause-server/src/defense.rs:133-137 | a failure that arrives after another has locked the address is counted, but neither locks again nor extends the lockout |
| GuessBound.SuccessForgives | crates/rootcause-server/src/defense.rs:143-148 | after a success the address is not locked and its count starts over, and no other entry moves |
| GuessBound.FailureIsSeen | crates/rootcause-server/src/defense.rs:125-132 | a failure is a sighting: no prune forgets the address before the idle window has passed since |
| Pruning.PruneUnobservableIff | crates/rootcause-server/src/defense.rs:159-164 | a prune of a minute's idleness changes no verdict of any eviction-free later run iff no token is set or every entry it drops is settled |
| Pruning.PruneForgetsAGuess | crates/rootcause-server/src/defense.rs:159-164 | a run from the empty table whose prune changes later verdicts: one wrong guess of three, then a quarter of an hour |
| Pruning.TrainNotices | crates/rootcause-server/src/defense.rs:125-140 | two tables that count a different number of failures for an address disagree on a run of wrong guesses |
| Pruning.PruneKeepsExactly | crates/rootcause-server/src/defense.rs:159-164 | an entry survives a prune, unchanged, iff its lockout lies ahead or it was seen less than the idle window ago |
| Evictions.PruneLeavesTheRecent | crates/rootcause-server/src/defense.rs:159-164 | after any run and a prune, a tracked address has a lockout ahead or made a request less than the idle window ago |
| DefenseLog.LogAccounts | crates/rootcause-server/src/auth.rs:62-102 | over every run and per address, one rate-limit entry for each refusal for lack of tokens, one rejection for each failed comparison, one lockout entry for each refusal while locked and each failure that locks |
| DefenseLog.LockoutWrittenFirst | crates/rootcause-server/src/auth.rs:84-98 | the failure that locks writes its lockout and then its rejection |
| Models.FingerprintDetermines | crates/rootcause-core/src/detect/mod.rs:322-325 | a fingerprint of the engine determines the asset and the category it was raised for |
| Detect.MergeByFingerprint | crates/rootcause-core/src/detect/mod.rs:295-319 | the loop over candidates computes the merge of the lemmas below |
| Detect.MergeLosesNothing | crates/rootcause-core/src/detect/mod.rs:295-319 | one finding per reported fingerprint, in order, each the first of the worst of its group with exactly the group's evidence |
| Detect.MergeIsIdempotent | crates/rootcause-core/src/detect/mod.rs:295-319 | merging again changes nothing |
| Detect.Analyze | crates/rootcause-core/src/detect/mod.rs:270-287 | the sorted, merged candidates of a cycle |
| Detect.AnalyzeOrders | crates/rootcause-core/src/detect/mod.rs:278-287 | the analysis is a permutation of the merge with distinct fingerprints, by severity descending and then fingerprint |
| Detect.WorstFirst | crates/rootcause-core/src/detect/mod.rs:278-287 | of two findings in the result, the earlier is worse, or as bad and before the other in dictionary order of fingerprints |
| Detect.EvidenceInOrder | crates/rootcause-core/src/detect/mod.rs:295-319 | the evidence of earlier findings stays a prefix of the merged evidence |
| IntegrityRules.DetectIntegrity | crates/rootcause-core/src/detect/integrity.rs:33-108 | the findings of one surface, file by file |
| IntegrityRules.IntegrityReports | crates/rootcause-core/src/detect/integrity.rs:43-106 | a path is reported changed iff an entry differs from its baseline, and exposed iff an entry is writable by anyone |
| IntegrityFacts.ChangedExactly | crates/rootcause-core/src/detect/integrity.rs:43-75 | a change is found iff an entry has another digest than the remembered one, high iff the path governs access, with both digests as evidence |
| IntegrityFacts.PermissionsExactly | crates/rootcause-core/src/detect/integrity.rs:77-106 | lax permissions are found iff the last octal digit of an entry's mode includes writing, always high, with the mode as evidence |
| IntegrityFacts.AccessCriticalExactly | crates/rootcause-core/src/detect/integrity.rs:14-31 | a path governs access iff one of the listed names occurs in it in whatever ASCII case |
| AvailabilityRules.SilenceLasts | crates/rootcause-core/src/detect/availability.rs:20-38 | silent iff a whole tolerated window passed without a signal; silence lasts, and never becomes milder, until a signal comes |
| AvailabilityRules.SilenceExactly | crates/rootcause-core/src/detect/availability.rs:27-62 | in seconds: when the rule fires, when it is high, and the silence, allowance and last signal it names |
| Storage.Database.UpsertIncident | crates/rootcause-server/src/storage.rs:437-497 | the row after one more sighting, insert or conflict update, and the incident returned |
| Storage.Database.AutoResolve | crates/rootcause-server/src/storage.rs:503-548 | closes exactly the asset's unresolved rows of the categories no longer present, appends one entry for each, returns their number |
| Storage.Database.UpdateIncidentStatus | crates/rootcause-server/src/storage.rs:678-704 | changes the one incident with the identifier and records who did it, or nothing when there is none |
| Storage.Database.UpdateFileBaseline | crates/rootcause-server/src/storage.rs:296-325 | moves each reported path to its last reported digest |
| Storage.Database.OpenFindingCounts | crates/rootcause-server/src/storage.rs:614-637 | the grouped, saturated counts of a scope's unresolved incidents |
| Storage.Database.OpenFindingsByAsset | crates/rootcause-server/src/storage.rs:643-662 | for every asset, the same summary as counting that asset alone |
| Tables.GroupedIsSummary | crates/rootcause-server/src/storage.rs:614-637 | counting in the database gives the same summary and posture as loading every incident, in any order, and adding one by one |
| Tables.GroupedCounts | crates/rootcause-server/src/storage.rs:614-637 | each count is the number of open or acknowledged rows of its kind, of the scope's asset or of all, as far as a counter reaches |
| Lifecycle.ControlPlane.SelfHealingCategories | crates/rootcause-server/src/api.rs:50-59 | the categories whose surface this cycle inspected |
| Lifecycle.ControlPlane.IngestTelemetry | crates/rootcause-server/src/api.rs:246-344 | the whole new store and outcome of one envelope, rejections included, in the code's step order; the audit log only grows |
| Lifecycle.ControlPlane.SweepSilence | crates/rootcause-server/src/watchdog.rs:52-90 | the whole new store of one sweep, and a returned count equal to the number of silent assets |
| LifecycleInv.IngestInv | crates/rootcause-server/src/api.rs:302-341 | an ingest keeps columns equal to records, identifiers unique, fingerprints naming asset and category, and the trail about known incidents |
| IngestFacts.AcceptedIff | crates/rootcause-server/src/api.rs:246-270 | in seconds: too early, too late, unknown, or accepted; unless accepted nothing is stored |
| IngestFacts.CandidateReports | crates/rootcause-core/src/detect/mod.rs:270-287 | a fingerprint is reported iff an earlier or later detector reports it, or a watched file changed or is open to all |
| IngestFacts.TouchedOnce | crates/rootcause-server/src/api.rs:302-344 | the answer counts the different fingerprints the envelope reports |
| IngestFacts.FindingsReachTheStore | crates/rootcause-server/src/api.rs:302-317 | every finding of every detector, integrity included, has an open incident of its asset and category, at least as severe, seen at that instant and carrying its evidence |
| IngestFacts.StoredWasFound | crates/rootcause-server/src/api.rs:302-317 | the severity of a reported incident is its old one or a finding's, and each piece of its evidence is a finding's |
| IngestFacts.InspectedIffReported | crates/rootcause-server/src/api.rs:319-329 | of an inspected category, an incident of the asset is unresolved afterwards iff the envelope reports it |
| LifecycleRuns.RunKeepsInv | crates/rootcause-server/src/storage.rs:437-704 | every run of ingests, registrations, sweeps and operator decisions keeps that invariant |
| LifecycleRuns.StepRow | crates/rootcause-server/src/storage.rs:449-483 | a reported incident is open with the latest evidence and one more occurrence; an unreported one keeps identity, severity and count |
| LifecycleRuns.OneRowPerFingerprint | crates/rootcause-server/src/storage.rs:437-497 | over every run: one row iff reported, identity and first sighting fixed, severity the worst ever reported, occurrences the number of reporting cycles, saturating |
| LifecycleRuns.InspectedExactly | crates/rootcause-server/src/api.rs:302-329 | after a cycle that inspected a category, the asset's unresolved incidents in it are exactly this cycle's findings, all open |
| LifecycleRuns.IngestClosesIff | crates/rootcause-server/src/api.rs:319-329 | an accepted envelope closes an unresolved incident iff it is its own asset's, its surface was inspected without gaps and the cycle no longer finds it |
| LifecycleRuns.NothingUninspectedCloses | crates/rootcause-server/src/api.rs:320-329 | no run without an operator closes an intrusion, integrity or resource incident, nor one whose surface no envelope inspected |
| LifecycleRuns.OperatorDecides | crates/rootcause-server/src/storage.rs:678-704 | an operator changes the status of the incident named and of no other row |
| LifecycleRuns.SweepExact | crates/rootcause-server/src/watchdog.rs:57-88 | after a sweep an asset shows an unresolved availability incident iff it is silent |
| Signals.SeenWhenHeard | crates/rootcause-server/src/storage.rs:126-159 | over every run, an asset is known from the first accepted envelope or registration and last seen at the latest one |
| Signals.ShownAsAnswered | crates/rootcause-server/src/storage.rs:126-275 | over every run, the score kept for an asset is the last one an envelope of it was scored with; registrations, sweeps and operators leave it alone |
| Signals.SilentSinceLastHeard | crates/rootcause-server/src/watchdog.rs:52-90 | after any run from the empty store and a sweep, an asset shows silent iff it was heard once and not for as long as the policy allows |
| LifecycleRuns.StoredPostureIsHonest | crates/rootcause-server/src/api.rs:338-341 | the stored score is the one of the asset's whole incident list, and is capped by every incident still unresolved |
| FileChanges.ChangesCountedOnce | crates/rootcause-server/src/api.rs:283-336 | over every run, a change incident's occurrences are the cycles whose report differs from what earlier reports left remembered |
| FileChanges.ChangesFromEmpty | crates/rootcause-core/src/detect/integrity.rs:43-75 | with each path at most once per report, occurrences are the digests that differ from the previous one; the first never counts |
| FileChanges.BaselineMoves | crates/rootcause-server/src/storage.rs:306-322 | after a report the baseline of a path is its last reported digest, and no other agent's baseline moves |
| AuditTrail.TrailAccountsForClosures | crates/rootcause-server/src/storage.rs:530-545 | over every run, the trail holds one entry for each time the engine, not an operator, resolved the incident |
| AuditTrail.TrailAccountsForDecisions | crates/rootcause-server/src/storage.rs:678-704 | over every run, the status changes the trail records of an incident are the operator steps that named it, with actor, status found and status set |
| Intrusion.Authentication | crates/rootcause-core/src/detect/intrusion.rs:44-235 | the loops over events and sources compute the findings below, in address order |
| Intrusion.PressurePermutes | crates/rootcause-core/src/detect/intrusion.rs:50-63 | the pressure of a source, saturation included, does not depend on the order of the events |
| AuthRules.PressureExactly | crates/rootcause-core/src/detect/intrusion.rs:49-63 | per source: the saturated sums of failed and of granted attempts, the names and services seen, the latest sighting |
| AuthRules.BruteforceExactly | crates/rootcause-core/src/detect/intrusion.rs:80-123 | reported iff the source's failures reach the threshold, critical iff they reach the critical one, with their number and services as evidence |
| AuthRules.SprayExactly | crates/rootcause-core/src/detect/intrusion.rs:125-163 | reported iff a source that failed tried enough distinct names, high, with their number as evidence |
| AuthRules.BurstExactly | crates/rootcause-core/src/detect/intrusion.rs:166-201 | reported iff a source with a success has failures that reach the threshold, critical, with the successes and names as evidence |
| AuthRules.DistributedExactly | crates/rootcause-core/src/detect/intrusion.rs:204-235 | reported iff enough distinct sources have a failed attempt, with their number as evidence |
| AuthDetection.ReportsExactly | crates/rootcause-core/src/detect/intrusion.rs:71-202 | by fingerprint, each per-source rule reports a source iff its pressure reaches the rule's thresholds |
| AuthDetection.SpreadReported | crates/rootcause-core/src/detect/intrusion.rs:204-234 | distributed pressure is reported iff enough sources failed |
| AuthDetection.DetectionIsMonotone | crates/rootcause-core/src/detect/intrusion.rs:50-234 | more events remove no finding and make none less severe |
| AuthDetection.DetectionIgnoresOrder | crates/rootcause-core/src/detect/intrusion.rs:50-234 | permuting the events changes nothing in the list of findings |
| AuthDetection.SuccessComesWithBurst | crates/rootcause-core/src/detect/intrusion.rs:80-201 | an access after a burst is never reported without the burst, for the same address |
| AuthDetection.FindingsFromEngine | crates/rootcause-core/src/detect/intrusion.rs:86-95 | every finding names its agent and the intrusion category, as the lifecycle relies on |
| AuthLog.Aggregate | crates/rootcause-agent/src/authlog.rs:105-126 | group, saturating sum, stable sort by count, truncate |
| AuthLog.GroupingKeepsPressure | crates/rootcause-agent/src/authlog.rs:106-122 | grouping keeps every source's counts, names, services and last sighting, but for the empty name |
| AuthLog.AggregationExactIff | crates/rootcause-agent/src/authlog.rs:107-121 | of `aggregate` on any events: within the limit, a source's pressure is exact iff no empty name was absorbed by a nameless group |
| AuthLog.EmptyNameLost | crates/rootcause-agent/src/authlog.rs:109-120 | the input on which `aggregate` alone loses a name: no name, then the empty one |
| AuthLog.AggregationDetectionIff | crates/rootcause-agent/src/authlog.rs:105-126 | within the limit, the findings agree under every valid policy iff no failing source loses an empty name |
| AuthLog.AggregationNeverInvents | crates/rootcause-agent/src/authlog.rs:122-125 | with any number of groups, each finding on the aggregate is raised on the raw events, at least as severe |
| AuthLog.TruncationKeepsBusiest | crates/rootcause-agent/src/authlog.rs:122-125 | what is dropped is never busier than what is sent, and nothing is dropped within the limit |
| AuthGroups.RankedExactly | crates/rootcause-agent/src/authlog.rs:106-124 | one row for every kind of event, with its saturated count and latest sighting, busiest first, then by service, source, name and outcome |
| AuthGroups.AggregatedExactly | crates/rootcause-agent/src/authlog.rs:124-125 | what travels is the first 200 of those rows |
| AuthParsing.ParseSshdLog | crates/rootcause-agent/src/authlog.rs:137-185 | the loop over lines, each read by its first matching marker, then the aggregate |
| AuthParsing.ParseWindowsSecurityLog | crates/rootcause-agent/src/authlog.rs:188-220 | the loop over blocks with a usable network source |
| AuthParsing.CollectWindows | crates/rootcause-agent/src/authlog.rs:77-102 | failures, then successes, then the aggregate |
| AuthParsing.SshdEventsAreWords | crates/rootcause-agent/src/authlog.rs:129-185 | no raw line leaves the host: sources and names are single words, counted once, at the cycle's instant |
| AuthParsing.WindowsEventsAreRemote | crates/rootcause-agent/src/authlog.rs:188-220 | no event without a network source or from the host itself, and no empty or dashed name |
| LogLines.LineExactly | crates/rootcause-agent/src/authlog.rs:139-174 | a line is an event iff it names sshd, an attempt and a source; any mark of failure makes it a failure |
| LogLines.WordAfterReads | crates/rootcause-agent/src/authlog.rs:129-131 | the word right after the first marker is read as it stands |
| LogLines.FailedPasswordRead | crates/rootcause-agent/src/authlog.rs:143-150 | a failed password gives back its source and user name |
| LogLines.FailedInvalidRead | crates/rootcause-agent/src/authlog.rs:143-150 | a failed password of an invalid user gives back the name, not the words before it |
| LogLines.InvalidUserRead | crates/rootcause-agent/src/authlog.rs:151-152 | an invalid user gives back its source and name as a failure |
| LogLines.FailedKeyRead | crates/rootcause-agent/src/authlog.rs:153-159 | a failed key gives back its source and user name |
| LogLines.AcceptedRead | crates/rootcause-agent/src/authlog.rs:160-166 | an accepted login gives back its source and user name as a success |
| LogLines.SshdEventsConcat | crates/rootcause-agent/src/authlog.rs:138-184 | every line counts once and in place |
| LogLines.LineValueReads | crates/rootcause-agent/src/authlog.rs:189-192 | a field line gives back its value, however it is indented, padded and ended |
| LogLines.FieldValueExactly | crates/rootcause-agent/src/authlog.rs:189-193 | the last line of a block that says anything of a field decides |
| AuthParsing.AggregationPreservesDetection | crates/rootcause-agent/src/authlog.rs:77-220 | within the limit, the findings on the aggregate of whatever the parsers emit are those on the events, in any order |
| Posture.ComputeFromCounts | crates/rootcause-core/src/posture.rs:119-178 | the saturating loops compute the score, grade and dimensions of a summary |
| Posture.Compute | crates/rootcause-core/src/posture.rs:186-197 | scoring a list is scoring the summary of its unresolved incidents |
| Posture.HeadlineAntitone | crates/rootcause-core/src/posture.rs:119-160 | a summary with at least every finding of another never scores higher |
| Posture.AddingNeverRaises | crates/rootcause-core/src/posture.rs:34-40 | adding findings, saturating, never raises the headline |
| Posture.HeadlineBounded | crates/rootcause-core/src/posture.rs:149-160 | the headline is at most 100, and 55, 74 or 89 when the worst open finding is critical, high or medium |
| Posture.PerfectScoreIff | crates/rootcause-core/src/posture.rs:128-160 | the headline is 100 iff nothing weightier than informational is open: no floor hides a finding |
| Posture.GradeIsHonest | crates/rootcause-core/src/posture.rs:94-102 | a critical finding is an F, a high one never an A or B, a medium one never an A |
| Posture.WeightierHurtsMore | crates/rootcause-core/src/posture.rs:74-92 | alone, a finding hurts at least as much in a weightier dimension and at a worse severity |
| PostureFormula.HeadlineFormula | crates/rootcause-core/src/posture.rs:74-160 | the headline from the counts alone, every weight and cap in numbers |
| PostureFormula.LoneHeadline | crates/rootcause-core/src/posture.rs:74-160 | what one finding of each severity and category makes of a clean scope, from 48 to 100 |
| PostureFormula.DimensionsExactly | crates/rootcause-core/src/posture.rs:128-147 | each category has a dimension with its points, its saturated number of findings and the worst severity present |
| PostureFormula.DimensionsInOrder | crates/rootcause-core/src/posture.rs:128-147 | the six dimensions come in one order |
| PostureFormula.GradeExactly | crates/rootcause-core/src/posture.rs:94-102 | which scores get which grade |
| PostureFormula.SummaryCounts | crates/rootcause-core/src/posture.rs:186-197 | each count is the number of open or acknowledged incidents of its kind, as far as a counter reaches |

## Left out

- Floating point: the token bucket, metric values and thresholds are exact numbers; rounding of `f64` is not modelled.
- Concurrency in the perimeter: the rate limit holds for every interleaving and every order of instants. The guess, retry-hint and lockout results take each request as one step and instants as ordered.
- Evicted addresses: the rate, guess, retry-hint and lockout results are about windows in which the address is not evicted; `Evictions.SparedUnlessCrowded` says when that is so.
- `Instant` overflow when a lockout is added, and the mutex with its recovery from poisoning.
- Detectors other than authentication, integrity and silence: an ingest takes their findings as given, named by the engine's fingerprint rule and outside the integrity and availability categories.
- Display text (titles, summaries, root causes, runbooks, techniques, sampled user names) is one uninterpreted string; no rule of the lifecycle reads it.
- Envelope checks that look at no stored state (protocol version, percentages, field limits) and the parsing of headers, bearer tokens and forwarded addresses: the model starts from what they accept.
- Reading and splitting authentication logs into lines and blocks, and what a failed probe reports instead; the model's parsers start from the pieces.
- Parsers of other third-party tool output, HTTP routing, the console, SQL text, serialisation and migrations.
- Telemetry history, authentication pressure and defence events in the database, and their retention; the perimeter's defence events are kept as a sequence.
- The clock of one step: every reading of it within a request, an envelope or a registration is one instant.
- Crash-atomicity: an ingest is modelled as completed.
- Random identifiers are a counter: all that is used is that none is issued twice.
- Row order of queries is not modelled; summaries are compared with every order, and the audit trail is compared as a bag between steps.
- Auth.AppState.RequireAuth: the constant-time comparison is equality of strings; timing is not modelled.
