/** When an asset was last heard, when it is therefore shown silent, and which score is shown for it. */
module Signals {
  import opened Wrappers
  import opened Models
  import opened AvailabilityRules
  import opened Tables
  import opened Lifecycle
  import opened LifecycleInv
  import opened LifecycleRuns

  /** The instant at which a step heard `agent`: an accepted envelope of it, or its registration. */
  ghost function HeardIn(s: Store, step: Step, agent: Uuid): Option<Time> {
    match step
    case Telemetry(e, receivedAt) =>
      if e.agent == agent && Ingest(s, e, receivedAt).1.Accepted? then Some(receivedAt) else None
    case Register(a, now) => if a == agent then Some(now) else None
    case SilenceSweep(_, _) => None
    case Operator(_, _, _) => None
  }

  ghost function FirstHeard(policy: SilencePolicy, s: Store, steps: seq<Step>, agent: Uuid): Option<Time>
    requires Legal(policy, s, steps)
    decreases |steps|
  {
    if steps == [] then None
    else
      var now := HeardIn(s, steps[0], agent);
      if now.Some? then now else FirstHeard(policy, Apply(policy, s, steps[0]), steps[1..], agent)
  }

  ghost function LastHeard(policy: SilencePolicy, s: Store, steps: seq<Step>, agent: Uuid): Option<Time>
    requires Legal(policy, s, steps)
    decreases |steps|
  {
    if steps == [] then None
    else
      var later := LastHeard(policy, Apply(policy, s, steps[0]), steps[1..], agent);
      if later.Some? then later else HeardIn(s, steps[0], agent)
  }

  function AssetAt(s: Store, agent: Uuid): Option<Asset> {
    if agent in s.assets then Some(s.assets[agent]) else None
  }

  /** What hearing an asset at `first` and at last at `last` makes of its entry; nothing heard changes nothing. */
  predicate HeardAs(before: Option<Asset>, after: Option<Asset>, first: Option<Time>, last: Option<Time>) {
    if last.None? then
      (before.None? <==> after.None?)
      && (before.Some? ==> after.value.firstSeen == before.value.firstSeen
                           && after.value.lastSeen == before.value.lastSeen)
    else
      && after.Some? && first.Some?
      && after.value.lastSeen == last.value
      && after.value.firstSeen == if before.Some? then before.value.firstSeen else first.value
  }

  lemma IngestHears(s: Store, e: Envelope, receivedAt: Time, agent: Uuid)
    requires StoreInv(s)
    ensures var heard := HeardIn(s, Telemetry(e, receivedAt), agent);
            HeardAs(AssetAt(s, agent), AssetAt(Ingest(s, e, receivedAt).0, agent), heard, heard)
  {
    if Accepts(s, e, receivedAt) {
      UpsertAllAssets(Sampled(s, e, receivedAt), Candidates(s.baselines, e), e.observedAt);
    } else {
      RejectedIngest(s, e, receivedAt);
    }
  }

  lemma StepHears(policy: SilencePolicy, s: Store, step: Step, agent: Uuid)
    requires StoreInv(s) && StepOk(s, step)
    ensures var heard := HeardIn(s, step, agent);
            HeardAs(AssetAt(s, agent), AssetAt(Apply(policy, s, step), agent), heard, heard)
  {
    match step
    case Telemetry(e, receivedAt) => IngestHears(s, e, receivedAt, agent);
    case SilenceSweep(now, order) => SweepInv(s, policy, order, now);
    case Register(_, _) =>
    case Operator(_, _, _) =>
  }

  lemma {:induction false} HeardTogether(policy: SilencePolicy, s: Store, steps: seq<Step>, agent: Uuid)
    requires Legal(policy, s, steps)
    ensures FirstHeard(policy, s, steps, agent).Some? <==> LastHeard(policy, s, steps, agent).Some?
    decreases |steps|
  {
    if steps != [] {
      HeardTogether(policy, Apply(policy, s, steps[0]), steps[1..], agent);
    }
  }

  /** Over every run, an asset is known from the first time it was heard, and last seen when it was last heard. */
  lemma {:induction false} SeenWhenHeard(policy: SilencePolicy, s: Store, steps: seq<Step>, agent: Uuid)
    requires StoreInv(s) && Legal(policy, s, steps)
    ensures HeardAs(AssetAt(s, agent), AssetAt(Run(policy, s, steps), agent), FirstHeard(policy, s, steps, agent),
                    LastHeard(policy, s, steps, agent))
    decreases |steps|
  {
    if steps != [] {
      var next := Apply(policy, s, steps[0]);
      StepKeepsInv(policy, s, steps[0]);
      StepHears(policy, s, steps[0], agent);
      SeenWhenHeard(policy, next, steps[1..], agent);
      HeardTogether(policy, next, steps[1..], agent);
    }
  }

  /**
   Silence from end to end: after any run from the empty store, a sweep leaves an asset with an
   unresolved availability incident iff it was heard once, and not for as long as the policy allows.
   */
  lemma SilentSinceLastHeard(policy: SilencePolicy, steps: seq<Step>, order: seq<Uuid>, now: Time, agent: Uuid)
    requires policy.Valid() && Legal(policy, EMPTY, steps)
    requires Enumerates(order, Run(policy, EMPTY, steps).assets.Keys)
    ensures var s := Run(policy, EMPTY, steps);
            var heard := LastHeard(policy, EMPTY, steps, agent);
            ShownSilent(Sweep(s, policy, order, now), agent)
            <==> heard.Some? && heard.value + AllowedSilence(policy) * 1_000_000_000 <= now
  {
    var s := Run(policy, EMPTY, steps);
    EmptyInv();
    RunKeepsInv(policy, EMPTY, steps);
    SeenWhenHeard(policy, EMPTY, steps, agent);
    SweepExact(policy, s, order, now, agent);
    if agent in s.assets {
      SilenceExactly(policy, agent, s.assets[agent].lastSeen, now);
    }
  }

  // ------------------------------------------------ the score that is shown

  /** The score a step answers to `agent`, if it accepts an envelope of it. */
  ghost function AnsweredIn(s: Store, step: Step, agent: Uuid): Option<nat> {
    match step
    case Telemetry(e, receivedAt) =>
      if e.agent == agent && Ingest(s, e, receivedAt).1.Accepted? then Some(Ingest(s, e, receivedAt).1.score) else None
    case _ => None
  }

  ghost function LastAnswered(policy: SilencePolicy, s: Store, steps: seq<Step>, agent: Uuid): Option<nat>
    requires Legal(policy, s, steps)
    decreases |steps|
  {
    if steps == [] then None
    else
      var later := LastAnswered(policy, Apply(policy, s, steps[0]), steps[1..], agent);
      if later.Some? then later else AnsweredIn(s, steps[0], agent)
  }

  function ScoreAt(s: Store, agent: Uuid): Option<nat> {
    if agent in s.assets then s.assets[agent].postureScore else None
  }

  lemma IngestAnswers(s: Store, e: Envelope, receivedAt: Time, agent: Uuid)
    requires StoreInv(s)
    ensures var answer := AnsweredIn(s, Telemetry(e, receivedAt), agent);
            ScoreAt(Ingest(s, e, receivedAt).0, agent) == if answer.Some? then answer else ScoreAt(s, agent)
  {
    if Accepts(s, e, receivedAt) {
      UpsertAllAssets(Sampled(s, e, receivedAt), Candidates(s.baselines, e), e.observedAt);
    } else {
      RejectedIngest(s, e, receivedAt);
    }
  }

  /** The score shown for an asset is the last one its agent was answered; nothing else moves it. */
  lemma {:induction false} ShownAsAnswered(policy: SilencePolicy, s: Store, steps: seq<Step>, agent: Uuid)
    requires StoreInv(s) && Legal(policy, s, steps)
    ensures var answer := LastAnswered(policy, s, steps, agent);
            ScoreAt(Run(policy, s, steps), agent) == if answer.Some? then answer else ScoreAt(s, agent)
    decreases |steps|
  {
    if steps != [] {
      StepKeepsInv(policy, s, steps[0]);
      match steps[0] {
        case Telemetry(e, receivedAt) => IngestAnswers(s, e, receivedAt, agent);
        case SilenceSweep(now, order) => SweepInv(s, policy, order, now);
        case Register(_, _) =>
        case Operator(_, _, _) =>
      }
      ShownAsAnswered(policy, Apply(policy, s, steps[0]), steps[1..], agent);
    }
  }
}
