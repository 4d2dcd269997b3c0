/** The silence rule: an asset is judged by how long ago it was last heard. */
module AvailabilityRules {
  import opened Wrappers
  import opened Models

  datatype SilencePolicy = SilencePolicy(intervalSeconds: nat, silenceIntervals: nat) {
    /** Enforced when the policy is loaded. */
    predicate Valid() {
      1 <= silenceIntervals
    }

    function Interval(): nat {
      Max(intervalSeconds, 5)
    }

    /** `u64::saturating_mul`. */
    function Tolerated(): nat {
      Min(Interval() * silenceIntervals, U64_MAX)
    }
  }

  /** `Duration::num_seconds` truncates toward zero. */
  function WholeSeconds(d: int): int {
    if d >= 0 then d / SECOND else -((-d) / SECOND)
  }

  function SilenceRule(): string {
    RuleId(Availability, "agent.silence")
  }

  function SilenceFingerprint(agent: Uuid): string {
    Fingerprint(agent, SilenceRule(), "")
  }

  predicate Silent(policy: SilencePolicy, lastSeen: Time, now: Time) {
    var silence := WholeSeconds(now - lastSeen);
    !(silence <= 0 || silence < policy.Tolerated())
  }

  function AgentSilence(policy: SilencePolicy, agent: Uuid, lastSeen: Time, now: Time): Option<IncidentCandidate> {
    var tolerated := policy.Tolerated();
    var silence := WholeSeconds(now - lastSeen);
    if silence <= 0 || silence < tolerated then None
    else
      var severity := if silence >= Min(tolerated * 4, U64_MAX) then High else Medium;
      Some(IncidentCandidate(SilenceFingerprint(agent), agent, severity, Availability,
                             [Metric("agent.silence_seconds", silence, tolerated, lastSeen)], agent))
  }

  lemma SilenceFromEngine(policy: SilencePolicy, agent: Uuid, lastSeen: Time, now: Time)
    requires AgentSilence(policy, agent, lastSeen, now).Some?
    ensures FromEngine(AgentSilence(policy, agent, lastSeen, now).value)
    ensures |SilenceFingerprint(agent)| > UUID_LENGTH && SilenceFingerprint(agent)[..UUID_LENGTH] == agent
  {
    assert SilenceFingerprint(agent)[..UUID_LENGTH] == agent;
  }

  /**
   Silence is exactly a whole tolerated window without a signal; it only ends when a signal comes,
   and it never becomes less severe while it lasts.
   */
  lemma SilenceLasts(policy: SilencePolicy, agent: Uuid, lastSeen: Time, now: Time, later: Time)
    requires policy.Valid() && now <= later
    ensures Silent(policy, lastSeen, now) <==> now - lastSeen >= policy.Tolerated() * SECOND
    ensures Silent(policy, lastSeen, now) ==>
              var before := AgentSilence(policy, agent, lastSeen, now);
              var after := AgentSilence(policy, agent, lastSeen, later);
              before.Some? && after.Some? && before.value.severity.Rank() <= after.value.severity.Rank()
  {
    MulMono(policy.Interval(), 1, policy.silenceIntervals);
    assert policy.Tolerated() >= 5;
  }

  /** The seconds of silence an asset is allowed, as far as a counter reaches. */
  function AllowedSilence(policy: SilencePolicy): nat {
    Min(Max(policy.intervalSeconds, 5) * policy.silenceIntervals, 18_446_744_073_709_551_615)
  }

  /**
   The silence rule in seconds: it fires iff the allowed time passed, it is high iff four times of it
   passed, and it names the silence, what was allowed, and the last signal.
   */
  lemma SilenceExactly(policy: SilencePolicy, agent: Uuid, lastSeen: Time, now: Time)
    requires policy.Valid()
    ensures var report, allowed := AgentSilence(policy, agent, lastSeen, now), AllowedSilence(policy);
            && (report.Some? <==> lastSeen + allowed * 1_000_000_000 <= now)
            && (report.Some? ==>
                  var c := report.value;
                  && c.fingerprint == Fingerprint(agent, "availability." + "agent.silence", "")
                  && c.assetId == agent && c.category == Availability
                  && (c.severity == High || c.severity == Medium)
                  && (c.severity == High <==> lastSeen + Min(4 * allowed, U64_MAX) * 1_000_000_000 <= now)
                  && c.evidence == [Metric("agent.silence_seconds", (now - lastSeen) / 1_000_000_000,
                                           allowed, lastSeen)])
  {
    MulMono(policy.Interval(), 1, policy.silenceIntervals);
    assert Availability.Name() + "." == "availability.";
  }
}
