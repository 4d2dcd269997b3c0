/** The posture score of a scope, computed from a summary of its open findings. */
module Posture {
  import opened Wrappers
  import opened Models

  type Counts = map<(Category, Severity), nat>

  const CATEGORIES: seq<Category> := [Intrusion, Exposure, Integrity, Availability, Hygiene, Resource]
  const SEVERITIES: seq<Severity> := [Info, Low, Medium, High, Critical]

  function Weight(severity: Severity): nat {
    match severity
    case Critical => 45
    case High => 25
    case Medium => 10
    case Low => 4
    case Info => 0
  }

  function DimensionWeight(category: Category): nat {
    match category
    case Intrusion => 5
    case Exposure => 5
    case Integrity => 3
    case Availability => 3
    case Hygiene => 2
    case Resource => 1
  }

  function Ceiling(worst: Option<Severity>): nat {
    match worst
    case Some(Critical) => 55
    case Some(High) => 74
    case Some(Medium) => 89
    case Some(Low) => 100
    case Some(Info) => 100
    case None => 100
  }

  function Grade(score: nat): string {
    if 90 <= score <= 100 then "A"
    else if 80 <= score <= 89 then "B"
    else if 70 <= score <= 79 then "C"
    else if 60 <= score <= 69 then "D"
    else "F"
  }

  datatype Dimension = Dimension(category: Category, score: nat, findings: nat, worst: Option<Severity>)
  datatype PostureScore = PostureScore(score: nat, grade: string, dimensions: seq<Dimension>, uninspected: seq<string>)

  // ------------------------------------------------ the summary

  function Added(counts: Counts, category: Category, severity: Severity, count: nat): Counts {
    if count == 0 then counts
    else counts[(category, severity) := SatAdd32(Count(counts, category, severity), count)]
  }

  function Count(counts: Counts, category: Category, severity: Severity): nat {
    if (category, severity) in counts then counts[(category, severity)] else 0
  }

  class FindingCounts {
    var counts: Counts

    constructor ()
      ensures counts == map[]
    {
      counts := map[];
    }

    method Add(category: Category, severity: Severity, count: nat)
      modifies this
      ensures counts == Added(old(counts), category, severity, count)
    {
      if count == 0 {
        return;
      }
      var entry := if (category, severity) in counts then counts[(category, severity)] else 0;
      counts := counts[(category, severity) := SatAdd32(entry, count)];
    }
  }

  predicate HasSeverity(counts: Counts, severity: Severity) {
    exists category | category in CATEGORIES :: (category, severity) in counts
  }

  /** The worst severity open anywhere. */
  function WorstOf(counts: Counts): Option<Severity> {
    if HasSeverity(counts, Critical) then Some(Critical)
    else if HasSeverity(counts, High) then Some(High)
    else if HasSeverity(counts, Medium) then Some(Medium)
    else if HasSeverity(counts, Low) then Some(Low)
    else if HasSeverity(counts, Info) then Some(Info)
    else None
  }

  // ------------------------------------------------ one dimension

  /** Points lost in a category to its `n` mildest severities, before any saturation. */
  function Penalty(counts: Counts, category: Category, n: nat): nat
    requires n <= |SEVERITIES|
  {
    if n == 0 then 0
    else
      var severity := SEVERITIES[n - 1];
      Penalty(counts, category, n - 1) + Weight(severity) * Count(counts, category, severity)
  }

  function OpenIn(counts: Counts, category: Category, n: nat): nat
    requires n <= |SEVERITIES|
  {
    if n == 0 then 0
    else SatAdd32(OpenIn(counts, category, n - 1), Count(counts, category, SEVERITIES[n - 1]))
  }

  function WorstIn(counts: Counts, category: Category, n: nat): Option<Severity>
    requires n <= |SEVERITIES|
  {
    if n == 0 then None
    else if (category, SEVERITIES[n - 1]) in counts then Some(SEVERITIES[n - 1])
    else WorstIn(counts, category, n - 1)
  }

  function DimensionScore(counts: Counts, category: Category): nat {
    Max(0, 100 - Penalty(counts, category, |SEVERITIES|))
  }

  function DimensionOf(counts: Counts, category: Category): Dimension {
    Dimension(category, DimensionScore(counts, category), OpenIn(counts, category, |SEVERITIES|),
              WorstIn(counts, category, |SEVERITIES|))
  }

  /** `u32::saturating_mul`. */
  function SatMul32(a: nat, b: nat): nat {
    Min(a * b, U32_MAX)
  }

  method ScoreDimension(counts: Counts, category: Category) returns (dimension: Dimension)
    ensures dimension == DimensionOf(counts, category)
  {
    var penalty: int, open: nat, worst: Option<Severity> := 0, 0, None;
    for i := 0 to |SEVERITIES|
      invariant penalty == Min(Penalty(counts, category, i), U32_MAX)
      invariant open == OpenIn(counts, category, i)
      invariant worst == WorstIn(counts, category, i)
      invariant worst.Some? ==> exists j :: 0 <= j < i && worst.value == SEVERITIES[j]
    {
      var severity := SEVERITIES[i];
      var key := (category, severity);
      SeveritiesAscend(i);
      if key in counts {
        penalty := SatAdd32(penalty, SatMul32(Weight(severity), counts[key]));
        open := SatAdd32(open, counts[key]);
        worst := Some(if worst.None? then severity else Worse(worst.value, severity));
      } else {
        OpenFits(counts, category, i);
      }
    }
    dimension := Dimension(category, Min(Max(0, 100 - penalty), 100), open, worst);
  }

  lemma SeveritiesAscend(i: nat)
    requires i < |SEVERITIES|
    ensures forall j | 0 <= j < i :: SEVERITIES[j].Rank() < SEVERITIES[i].Rank()
  {
  }

  lemma OpenFits(counts: Counts, category: Category, n: nat)
    requires n <= |SEVERITIES|
    ensures OpenIn(counts, category, n) <= U32_MAX
  {
  }

  // ------------------------------------------------ the headline

  function Weighted(counts: Counts, n: nat): nat
    requires n <= |CATEGORIES|
  {
    if n == 0 then 0
    else
      Weighted(counts, n - 1)
      + DimensionScore(counts, CATEGORIES[n - 1]) * DimensionWeight(CATEGORIES[n - 1])
  }

  const WEIGHT_SUM: nat := 19

  function WeightSum(n: nat): nat
    requires n <= |CATEGORIES|
  {
    if n == 0 then 0 else WeightSum(n - 1) + DimensionWeight(CATEGORIES[n - 1])
  }

  function Headline(counts: Counts): nat {
    Weighted(counts, |CATEGORIES|) / WEIGHT_SUM * Ceiling(WorstOf(counts)) / 100
  }

  function ScoreOf(counts: Counts, uninspected: seq<string>): PostureScore {
    PostureScore(Headline(counts), Grade(Headline(counts)),
                 seq(|CATEGORIES|, i requires 0 <= i < |CATEGORIES| => DimensionOf(counts, CATEGORIES[i])),
                 uninspected)
  }

  lemma WeightSumIs()
    ensures WeightSum(|CATEGORIES|) == WEIGHT_SUM
  {
    assert WeightSum(0) == 0 && WeightSum(1) == 5 && WeightSum(2) == 10;
    assert WeightSum(3) == 13 && WeightSum(4) == 16 && WeightSum(5) == 18;
  }

  method ComputeFromCounts(findings: FindingCounts, uninspected: seq<string>) returns (posture: PostureScore)
    ensures posture == ScoreOf(findings.counts, uninspected)
  {
    var dimensions: seq<Dimension> := [];
    var weightedTotal, weightSum := 0, 0;
    for i := 0 to |CATEGORIES|
      invariant |dimensions| == i
      invariant forall j | 0 <= j < i :: dimensions[j] == DimensionOf(findings.counts, CATEGORIES[j])
      invariant weightedTotal == Weighted(findings.counts, i)
      invariant weightSum == WeightSum(i)
    {
      var category := CATEGORIES[i];
      var dimension := ScoreDimension(findings.counts, category);
      weightedTotal := weightedTotal + dimension.score * DimensionWeight(category);
      weightSum := weightSum + DimensionWeight(category);
      dimensions := dimensions + [dimension];
    }
    WeightSumIs();
    var average := if weightSum == 0 then 100 else weightedTotal / weightSum;
    var score := average * Ceiling(WorstOf(findings.counts)) / 100;
    posture := PostureScore(score, Grade(score), dimensions, uninspected);
  }

  method Compute(incidents: seq<Incident>, uninspected: seq<string>) returns (posture: PostureScore)
    ensures posture == ScoreOf(Summary(incidents), uninspected)
  {
    var findings := new FindingCounts();
    for i := 0 to |incidents|
      invariant fresh(findings)
      invariant findings.counts == Summary(incidents[..i])
    {
      assert incidents[..i + 1][..i] == incidents[..i];
      if incidents[i].status != Resolved {
        findings.Add(incidents[i].category, incidents[i].severity, 1);
      }
    }
    assert incidents[..|incidents|] == incidents;
    posture := ComputeFromCounts(findings, uninspected);
  }

  /** The summary built one incident at a time. */
  function Summary(incidents: seq<Incident>): Counts {
    if incidents == [] then map[]
    else
      var last := incidents[|incidents| - 1];
      var counts := Summary(incidents[..|incidents| - 1]);
      if last.status != Resolved then Added(counts, last.category, last.severity, 1) else counts
  }

  // ------------------------------------------------ antitone and bounded

  /** `more` reports at least every finding that `fewer` does. */
  ghost predicate AtMost(fewer: Counts, more: Counts) {
    forall c: Category, s: Severity :: (c, s) in fewer ==> (c, s) in more && fewer[(c, s)] <= more[(c, s)]
  }

  lemma {:induction false} PenaltyGrows(fewer: Counts, more: Counts, category: Category, n: nat)
    requires AtMost(fewer, more) && n <= |SEVERITIES|
    ensures Penalty(fewer, category, n) <= Penalty(more, category, n)
  {
    if n != 0 {
      var severity := SEVERITIES[n - 1];
      PenaltyGrows(fewer, more, category, n - 1);
      MulMono(Weight(severity), Count(fewer, category, severity), Count(more, category, severity));
    }
  }

  lemma {:induction false} WeightedFalls(fewer: Counts, more: Counts, n: nat)
    requires AtMost(fewer, more) && n <= |CATEGORIES|
    ensures Weighted(more, n) <= Weighted(fewer, n)
  {
    if n != 0 {
      var category := CATEGORIES[n - 1];
      WeightedFalls(fewer, more, n - 1);
      PenaltyGrows(fewer, more, category, |SEVERITIES|);
      MulMono(DimensionWeight(category), DimensionScore(more, category), DimensionScore(fewer, category));
    }
  }

  lemma {:induction false} WeightedFits(counts: Counts, n: nat)
    requires n <= |CATEGORIES|
    ensures Weighted(counts, n) <= 100 * WeightSum(n)
  {
    if n != 0 {
      var category := CATEGORIES[n - 1];
      WeightedFits(counts, n - 1);
      MulMono(DimensionWeight(category), DimensionScore(counts, category), 100);
    }
  }

  lemma HasSeverityGrows(fewer: Counts, more: Counts, severity: Severity)
    requires AtMost(fewer, more)
    ensures HasSeverity(fewer, severity) ==> HasSeverity(more, severity)
  {
    if HasSeverity(fewer, severity) {
      var category :| category in CATEGORIES && (category, severity) in fewer;
      assert (category, severity) in more;
    }
  }

  lemma CeilingFalls(fewer: Counts, more: Counts)
    requires AtMost(fewer, more)
    ensures Ceiling(WorstOf(more)) <= Ceiling(WorstOf(fewer))
  {
    HasSeverityGrows(fewer, more, Critical);
    HasSeverityGrows(fewer, more, High);
    HasSeverityGrows(fewer, more, Medium);
  }

  lemma ScaledMono(a: nat, b: nat, c: nat, d: nat)
    requires a <= b && c <= d
    ensures a * c / 100 <= b * d / 100
  {
    MulMono(a, c, d);
    MulMono(d, a, b);
  }

  /** No finding ever raises the headline. */
  lemma HeadlineAntitone(fewer: Counts, more: Counts)
    requires AtMost(fewer, more)
    ensures Headline(more) <= Headline(fewer)
  {
    WeightedFalls(fewer, more, |CATEGORIES|);
    CeilingFalls(fewer, more);
    ScaledMono(Weighted(more, |CATEGORIES|) / WEIGHT_SUM, Weighted(fewer, |CATEGORIES|) / WEIGHT_SUM,
               Ceiling(WorstOf(more)), Ceiling(WorstOf(fewer)));
  }

  /** Counters of a summary stay within a machine word, so a saturated addition still never subtracts. */
  ghost predicate Fits(counts: Counts) {
    forall k | k in counts :: 1 <= counts[k] <= U32_MAX
  }

  lemma AddingNeverRaises(counts: Counts, category: Category, severity: Severity, count: nat)
    requires Fits(counts)
    ensures Fits(Added(counts, category, severity, count))
    ensures Headline(Added(counts, category, severity, count)) <= Headline(counts)
  {
    HeadlineAntitone(counts, Added(counts, category, severity, count));
  }

  /** The headline is a percentage, and the worst open finding caps it whatever the rest of the scope looks like. */
  lemma HeadlineBounded(counts: Counts)
    ensures Headline(counts) <= 100
    ensures WorstOf(counts) == Some(Critical) ==> Headline(counts) <= 55
    ensures WorstOf(counts) == Some(High) ==> Headline(counts) <= 74
    ensures WorstOf(counts) == Some(Medium) ==> Headline(counts) <= 89
  {
    WeightedFits(counts, |CATEGORIES|);
    WeightSumIs();
    var average := Weighted(counts, |CATEGORIES|) / WEIGHT_SUM;
    ScaledMono(average, 100, Ceiling(WorstOf(counts)), Ceiling(WorstOf(counts)));
  }

  lemma {:induction false} PenaltyCovers(counts: Counts, category: Category, n: nat, i: nat)
    requires i < n <= |SEVERITIES|
    ensures Weight(SEVERITIES[i]) * Count(counts, category, SEVERITIES[i]) <= Penalty(counts, category, n)
  {
    MulMono(Weight(SEVERITIES[n - 1]), 0, Count(counts, category, SEVERITIES[n - 1]));
    if i < n - 1 {
      PenaltyCovers(counts, category, n - 1, i);
    }
  }

  lemma {:induction false} WeightedLoses(counts: Counts, n: nat, i: nat)
    requires i < n <= |CATEGORIES| && DimensionScore(counts, CATEGORIES[i]) < 100
    ensures Weighted(counts, n) < 100 * WeightSum(n)
  {
    var category := CATEGORIES[n - 1];
    WeightedFits(counts, n - 1);
    MulMono(DimensionWeight(category), DimensionScore(counts, category), 100);
    if i < n - 1 {
      WeightedLoses(counts, n - 1, i);
    }
  }

  lemma {:induction false} NoPenalty(counts: Counts, category: Category, n: nat)
    requires n <= |SEVERITIES| && forall s: Severity | Weight(s) > 0 :: Count(counts, category, s) == 0
    ensures Penalty(counts, category, n) == 0
  {
    if n != 0 {
      NoPenalty(counts, category, n - 1);
    }
  }

  lemma {:induction false} FullWeight(counts: Counts, n: nat)
    requires n <= |CATEGORIES| && forall c: Category, s: Severity | Weight(s) > 0 :: Count(counts, c, s) == 0
    ensures Weighted(counts, n) == 100 * WeightSum(n)
  {
    if n != 0 {
      FullWeight(counts, n - 1);
      NoPenalty(counts, CATEGORIES[n - 1], |SEVERITIES|);
    }
  }

  ghost predicate NothingWeighty(counts: Counts) {
    forall c: Category, s: Severity | Weight(s) > 0 :: Count(counts, c, s) == 0
  }

  /** A perfect score means exactly that nothing worse than informational is open: no floor hides a finding. */
  lemma PerfectScoreIff(counts: Counts)
    requires Fits(counts)
    ensures Headline(counts) == 100 <==> NothingWeighty(counts)
  {
    WeightSumIs();
    WeightedFits(counts, |CATEGORIES|);
    if NothingWeighty(counts) {
      FullWeight(counts, |CATEGORIES|);
      forall s: Severity | Weight(s) > 0 ensures !HasSeverity(counts, s) {
        forall c: Category ensures (c, s) !in counts {
          assert Count(counts, c, s) == 0;
        }
      }
    } else {
      var c: Category, s: Severity :| Weight(s) > 0 && Count(counts, c, s) != 0;
      var i, j := s.Rank(), Position(c);
      assert SEVERITIES[i] == s;
      PenaltyCovers(counts, c, |SEVERITIES|, i);
      MulMono(Weight(s), 1, Count(counts, c, s));
      WeightedLoses(counts, |CATEGORIES|, j);
      HeadlineBelow(counts);
    }
  }

  /** Every category is scored. */
  function Position(category: Category): (i: nat)
    ensures i < |CATEGORIES| && CATEGORIES[i] == category
  {
    match category
    case Intrusion => 0
    case Exposure => 1
    case Integrity => 2
    case Availability => 3
    case Hygiene => 4
    case Resource => 5
  }

  lemma HeadlineBelow(counts: Counts)
    requires Weighted(counts, |CATEGORIES|) < 100 * WEIGHT_SUM
    ensures Headline(counts) < 100
  {
    var average := Weighted(counts, |CATEGORIES|) / WEIGHT_SUM;
    ScaledMono(average, 99, Ceiling(WorstOf(counts)), 100);
  }

  /** The grade follows: an emergency is an F, and nothing from a medium finding up leaves an A. */
  lemma GradeIsHonest(counts: Counts)
    ensures WorstOf(counts) == Some(Critical) ==> Grade(Headline(counts)) == "F"
    ensures WorstOf(counts) == Some(High) ==> Grade(Headline(counts)) != "A" && Grade(Headline(counts)) != "B"
    ensures WorstOf(counts) == Some(Medium) ==> Grade(Headline(counts)) != "A"
  {
    HeadlineBounded(counts);
  }

  // ------------------------------------------------ what weighs more

  function Lone(category: Category, severity: Severity, n: nat): Counts {
    map[(category, severity) := n]
  }

  lemma {:induction false} LonePenalty(category: Category, severity: Severity, n: nat, other: Category, k: nat)
    requires k <= |SEVERITIES|
    ensures Penalty(Lone(category, severity, n), other, k)
         == if other == category && severity.Rank() < k then Weight(severity) * n else 0
  {
    if k != 0 {
      LonePenalty(category, severity, n, other, k - 1);
      assert SEVERITIES[k - 1].Rank() == k - 1;
      if SEVERITIES[k - 1] != severity {
        assert severity.Rank() != k - 1 by {
          if severity.Rank() == k - 1 {
            RankInjective(severity, SEVERITIES[k - 1]);
          }
        }
      }
    }
  }

  /** What `n` findings of one severity take from their dimension. */
  function Loss(severity: Severity, n: nat): nat {
    Min(100, Weight(severity) * n)
  }

  lemma {:induction false} LoneWeighted(category: Category, severity: Severity, n: nat, k: nat)
    requires k <= |CATEGORIES|
    ensures Weighted(Lone(category, severity, n), k)
         == 100 * WeightSum(k)
            - if Position(category) < k then Loss(severity, n) * DimensionWeight(category) else 0
  {
    if k != 0 {
      var other := CATEGORIES[k - 1];
      LoneWeighted(category, severity, n, k - 1);
      LonePenalty(category, severity, n, other, |SEVERITIES|);
      if other == category {
        assert Position(category) == k - 1;
      } else {
        assert CATEGORIES[Position(category)] != other;
      }
    }
  }

  lemma LoneCeiling(category: Category, severity: Severity, n: nat)
    ensures Ceiling(WorstOf(Lone(category, severity, n))) == Ceiling(Some(severity))
  {
    assert CATEGORIES[Position(category)] == category;
    assert (category, severity) in Lone(category, severity, n);
    assert HasSeverity(Lone(category, severity, n), severity);
    forall s: Severity | s != severity ensures !HasSeverity(Lone(category, severity, n), s) {
    }
  }

  /** What is lost of a dimension, times its weight, orders what is left of the whole. */
  lemma LossOrders(whole: nat, lost: nat, less: nat, heavy: nat, light: nat)
    requires less <= lost && light <= heavy
    ensures whole - lost * heavy <= whole - less * light
  {
    MulMono(heavy, less, lost);
    MulMono(less, light, heavy);
  }

  lemma LossGrows(s: Severity, t: Severity, n: nat)
    requires t.Rank() <= s.Rank()
    ensures Loss(t, n) <= Loss(s, n)
  {
    MulMono(n, Weight(t), Weight(s));
  }

  lemma LoneWeightedOrders(c: Category, s: Severity, d: Category, t: Severity, n: nat)
    requires DimensionWeight(d) <= DimensionWeight(c) && t.Rank() <= s.Rank()
    ensures Weighted(Lone(c, s, n), |CATEGORIES|) <= Weighted(Lone(d, t, n), |CATEGORIES|)
  {
    LoneWeighted(c, s, n, |CATEGORIES|);
    LoneWeighted(d, t, n, |CATEGORIES|);
    LossGrows(s, t, n);
    LossOrders(100 * WeightSum(|CATEGORIES|), Loss(s, n), Loss(t, n), DimensionWeight(c), DimensionWeight(d));
  }

  /** A lone kind of finding hurts at least as much in a weightier dimension, and at a worse severity. */
  lemma WeightierHurtsMore(c: Category, s: Severity, d: Category, t: Severity, n: nat)
    requires DimensionWeight(d) <= DimensionWeight(c) && t.Rank() <= s.Rank()
    ensures Headline(Lone(c, s, n)) <= Headline(Lone(d, t, n))
  {
    LoneWeightedOrders(c, s, d, t, n);
    LoneCeiling(c, s, n);
    LoneCeiling(d, t, n);
    ScaledMono(Weighted(Lone(c, s, n), |CATEGORIES|) / WEIGHT_SUM, Weighted(Lone(d, t, n), |CATEGORIES|) / WEIGHT_SUM,
               Ceiling(Some(s)), Ceiling(Some(t)));
  }
}
