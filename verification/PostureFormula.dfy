/** The posture in closed form: every weight, ceiling and grade in numbers, and the summary as a count. */
module PostureFormula {
  import opened Wrappers
  import opened Models
  import opened Posture

  /** What is left of a category's hundred points. */
  function Left(counts: Counts, c: Category): nat {
    Max(0, 100 - (45 * Count(counts, c, Critical) + 25 * Count(counts, c, High)
                  + 10 * Count(counts, c, Medium) + 4 * Count(counts, c, Low)))
  }

  ghost predicate AnyOf(counts: Counts, severity: Severity) {
    exists c: Category :: (c, severity) in counts
  }

  ghost function Cap(counts: Counts): nat {
    if AnyOf(counts, Critical) then 55
    else if AnyOf(counts, High) then 74
    else if AnyOf(counts, Medium) then 89
    else 100
  }

  lemma {:induction false} PenaltyUpTo(counts: Counts, c: Category, n: nat)
    requires n <= |SEVERITIES|
    ensures Penalty(counts, c, n)
         == (if 2 <= n then 4 * Count(counts, c, Low) else 0) + (if 3 <= n then 10 * Count(counts, c, Medium) else 0)
            + (if 4 <= n then 25 * Count(counts, c, High) else 0)
            + (if 5 <= n then 45 * Count(counts, c, Critical) else 0)
  {
    if n != 0 {
      PenaltyUpTo(counts, c, n - 1);
    }
  }

  lemma LeftIsScore(counts: Counts, c: Category)
    ensures DimensionScore(counts, c) == Left(counts, c)
  {
    PenaltyUpTo(counts, c, |SEVERITIES|);
  }

  lemma AnyIsSeverity(counts: Counts, severity: Severity)
    ensures AnyOf(counts, severity) <==> HasSeverity(counts, severity)
  {
    if c: Category :| (c, severity) in counts {
      assert CATEGORIES[Position(c)] == c;
    }
  }

  lemma CapIsCeiling(counts: Counts)
    ensures Ceiling(WorstOf(counts)) == Cap(counts)
  {
    AnyIsSeverity(counts, Critical);
    AnyIsSeverity(counts, High);
    AnyIsSeverity(counts, Medium);
  }

  lemma Term(counts: Counts, c: Category)
    ensures DimensionScore(counts, c) * DimensionWeight(c)
         == match c
            case Intrusion => 5 * Left(counts, Intrusion)
            case Exposure => 5 * Left(counts, Exposure)
            case Integrity => 3 * Left(counts, Integrity)
            case Availability => 3 * Left(counts, Availability)
            case Hygiene => 2 * Left(counts, Hygiene)
            case Resource => Left(counts, Resource)
  {
    LeftIsScore(counts, c);
  }

  lemma {:induction false} WeightedUpTo(counts: Counts, n: nat)
    requires n <= |CATEGORIES|
    ensures Weighted(counts, n)
         == (if 1 <= n then 5 * Left(counts, Intrusion) else 0) + (if 2 <= n then 5 * Left(counts, Exposure) else 0)
            + (if 3 <= n then 3 * Left(counts, Integrity) else 0)
            + (if 4 <= n then 3 * Left(counts, Availability) else 0)
            + (if 5 <= n then 2 * Left(counts, Hygiene) else 0) + (if 6 <= n then Left(counts, Resource) else 0)
  {
    if n != 0 {
      WeightedUpTo(counts, n - 1);
      Term(counts, CATEGORIES[n - 1]);
      assert Position(CATEGORIES[n - 1]) == n - 1;
    }
  }

  /** The weighted average of the points left in the six dimensions, scaled by the cap. */
  function Scaled(intrusion: nat, exposure: nat, integrity: nat, availability: nat, hygiene: nat, resource: nat,
                  cap: nat)
    : nat
  {
    (5 * intrusion + 5 * exposure + 3 * integrity + 3 * availability + 2 * hygiene + resource) / 19 * cap / 100
  }

  /** The headline, from the counts alone. */
  lemma HeadlineFormula(counts: Counts)
    ensures Headline(counts)
         == Scaled(Left(counts, Intrusion), Left(counts, Exposure), Left(counts, Integrity), Left(counts, Availability),
                   Left(counts, Hygiene), Left(counts, Resource), Cap(counts))
  {
    WeightedUpTo(counts, |CATEGORIES|);
    CapIsCeiling(counts);
  }

  lemma LoneLeft(c: Category, s: Severity, other: Category)
    ensures Left(Lone(c, s, 1), other)
         == if other != c then 100
            else match s case Critical => 55 case High => 75 case Medium => 90 case Low => 96 case Info => 100
  {
  }

  lemma LoneCap(c: Category, s: Severity)
    ensures Cap(Lone(c, s, 1)) == match s case Critical => 55 case High => 74 case Medium => 89 case _ => 100
  {
    assert (c, s) in Lone(c, s, 1);
  }

  lemma ScaledOnce(left: nat, cap: nat)
    requires (left, cap) in {(55, 55), (75, 74), (90, 89), (96, 100), (100, 100)}
    ensures Scaled(left, 100, 100, 100, 100, 100, cap) == Scaled(100, left, 100, 100, 100, 100, cap)
         == match left case 55 => 48 case 75 => 68 case 90 => 86 case 96 => 98 case _ => 100
    ensures Scaled(100, 100, left, 100, 100, 100, cap) == Scaled(100, 100, 100, left, 100, 100, cap)
         == match left case 55 => 50 case 75 => 71 case 90 => 87 case 96 => 99 case _ => 100
    ensures Scaled(100, 100, 100, 100, left, 100, cap)
         == match left case 55 => 52 case 75 => 71 case 90 => 87 case 96 => 99 case _ => 100
    ensures Scaled(100, 100, 100, 100, 100, left, cap)
         == match left case 55 => 53 case 75 => 72 case 90 => 88 case 96 => 99 case _ => 100
  {
  }

  function LoneValue(c: Category, s: Severity): nat {
    match s
    case Critical =>
      (match c case Intrusion => 48 case Exposure => 48 case Integrity => 50
               case Availability => 50 case Hygiene => 52 case Resource => 53)
    case High =>
      (match c case Intrusion => 68 case Exposure => 68 case Integrity => 71
               case Availability => 71 case Hygiene => 71 case Resource => 72)
    case Medium =>
      (match c case Intrusion => 86 case Exposure => 86 case Integrity => 87
               case Availability => 87 case Hygiene => 87 case Resource => 88)
    case Low =>
      (match c case Intrusion => 98 case Exposure => 98 case Integrity => 99
               case Availability => 99 case Hygiene => 99 case Resource => 99)
    case Info => 100
  }

  lemma LoneScaled(c: Category, s: Severity, left: nat, cap: nat)
    requires left == match s case Critical => 55 case High => 75 case Medium => 90 case Low => 96 case Info => 100
    requires cap == match s case Critical => 55 case High => 74 case Medium => 89 case _ => 100
    ensures LoneValue(c, s)
         == match c
            case Intrusion => Scaled(left, 100, 100, 100, 100, 100, cap)
            case Exposure => Scaled(100, left, 100, 100, 100, 100, cap)
            case Integrity => Scaled(100, 100, left, 100, 100, 100, cap)
            case Availability => Scaled(100, 100, 100, left, 100, 100, cap)
            case Hygiene => Scaled(100, 100, 100, 100, left, 100, cap)
            case Resource => Scaled(100, 100, 100, 100, 100, left, cap)
  {
    ScaledOnce(left, cap);
  }

  /** The six dimensions of a lone finding: full, but for its own. */
  lemma LoneSpread(c: Category, s: Severity)
    ensures var counts := Lone(c, s, 1);
            var left, cap := Left(counts, c), Cap(counts);
            Scaled(Left(counts, Intrusion), Left(counts, Exposure), Left(counts, Integrity), Left(counts, Availability),
                   Left(counts, Hygiene), Left(counts, Resource), cap)
            == match c
               case Intrusion => Scaled(left, 100, 100, 100, 100, 100, cap)
               case Exposure => Scaled(100, left, 100, 100, 100, 100, cap)
               case Integrity => Scaled(100, 100, left, 100, 100, 100, cap)
               case Availability => Scaled(100, 100, 100, left, 100, 100, cap)
               case Hygiene => Scaled(100, 100, 100, 100, left, 100, cap)
               case Resource => Scaled(100, 100, 100, 100, 100, left, cap)
  {
    forall other: Category | other != c ensures Left(Lone(c, s, 1), other) == 100 {
      LoneLeft(c, s, other);
    }
  }

  lemma LoneFormula(c: Category, s: Severity)
    ensures var counts := Lone(c, s, 1);
            Scaled(Left(counts, Intrusion), Left(counts, Exposure), Left(counts, Integrity), Left(counts, Availability),
                   Left(counts, Hygiene), Left(counts, Resource), Cap(counts)) == LoneValue(c, s)
  {
    LoneSpread(c, s);
    LoneLeft(c, s, c);
    LoneCap(c, s);
    LoneScaled(c, s, Left(Lone(c, s, 1), c), Cap(Lone(c, s, 1)));
  }

  /** What a single open finding of each kind makes of a clean scope. */
  lemma LoneHeadline(c: Category, s: Severity)
    ensures Headline(Lone(c, s, 1)) == LoneValue(c, s)
  {
    HeadlineFormula(Lone(c, s, 1));
    LoneFormula(c, s);
  }

  lemma GradeExactly(score: nat)
    requires score <= 100
    ensures Grade(score) == "A" <==> 90 <= score
    ensures Grade(score) == "B" <==> 80 <= score < 90
    ensures Grade(score) == "C" <==> 70 <= score < 80
    ensures Grade(score) == "D" <==> 60 <= score < 70
    ensures Grade(score) == "F" <==> score < 60
  {
    assert "A"[0] == 'A' && "B"[0] == 'B' && "C"[0] == 'C' && "D"[0] == 'D' && "F"[0] == 'F';
  }

  // ------------------------------------------------ the dimensions

  lemma OpenSum(counts: Counts, c: Category)
    ensures OpenIn(counts, c, 5)
         == Min(Count(counts, c, Info) + Count(counts, c, Low) + Count(counts, c, Medium)
                + Count(counts, c, High) + Count(counts, c, Critical), U32_MAX)
  {
    assert OpenIn(counts, c, 0) == 0;
    assert OpenIn(counts, c, 1) == Min(Count(counts, c, Info), U32_MAX);
    assert OpenIn(counts, c, 2) == Min(OpenIn(counts, c, 1) + Count(counts, c, Low), U32_MAX);
    assert OpenIn(counts, c, 3) == Min(OpenIn(counts, c, 2) + Count(counts, c, Medium), U32_MAX);
    assert OpenIn(counts, c, 4) == Min(OpenIn(counts, c, 3) + Count(counts, c, High), U32_MAX);
    assert OpenIn(counts, c, 5) == Min(OpenIn(counts, c, 4) + Count(counts, c, Critical), U32_MAX);
  }

  lemma {:induction false} WorstAmong(counts: Counts, c: Category, n: nat)
    requires n <= |SEVERITIES|
    ensures forall s: Severity ::
              WorstIn(counts, c, n) == Some(s)
              <==> s.Rank() < n && (c, s) in counts
                   && forall t: Severity | s.Rank() < t.Rank() < n :: (c, t) !in counts
    ensures WorstIn(counts, c, n).None? <==> forall s: Severity | s.Rank() < n :: (c, s) !in counts
  {
    if n != 0 {
      WorstAmong(counts, c, n - 1);
      assert SEVERITIES[n - 1].Rank() == n - 1;
      forall s: Severity | s.Rank() == n - 1 ensures s == SEVERITIES[n - 1] {
        RankInjective(s, SEVERITIES[n - 1]);
      }
    }
  }

  /** One dimension per category: its points, its open findings and the worst of them. */
  lemma DimensionsExactly(counts: Counts, uninspected: seq<string>, c: Category)
    ensures var posture := ScoreOf(counts, uninspected);
            && |posture.dimensions| == 6 && posture.uninspected == uninspected
            && posture.score == Headline(counts) && posture.grade == Grade(posture.score)
            && exists i | 0 <= i < 6 ::
                 var d := posture.dimensions[i];
                 && d.category == c
                 && d.score == Left(counts, c)
                 && d.findings == Min(Count(counts, c, Info) + Count(counts, c, Low) + Count(counts, c, Medium)
                                      + Count(counts, c, High) + Count(counts, c, Critical), U32_MAX)
                 && (d.worst.None? ==> forall s: Severity :: (c, s) !in counts)
                 && (d.worst.Some? ==>
                       && (c, d.worst.value) in counts
                       && forall t: Severity | (c, t) in counts :: t.Rank() <= d.worst.value.Rank())
  {
    LeftIsScore(counts, c);
    OpenSum(counts, c);
    WorstAmong(counts, c, 5);
    assert ScoreOf(counts, uninspected).dimensions[Position(c)] == DimensionOf(counts, c);
  }

  /** The dimensions are listed in one order, whatever was found. */
  lemma DimensionsInOrder(counts: Counts, uninspected: seq<string>)
    ensures var listed := ScoreOf(counts, uninspected).dimensions;
            && |listed| == 6
            && listed[0].category == Intrusion && listed[1].category == Exposure && listed[2].category == Integrity
            && listed[3].category == Availability && listed[4].category == Hygiene && listed[5].category == Resource
  {
  }

  // ------------------------------------------------ what is counted

  /** Incidents of a kind that are open or acknowledged. */
  function Pending(incidents: seq<Incident>, c: Category, s: Severity): nat {
    if incidents == [] then 0
    else
      var last := incidents[|incidents| - 1];
      Pending(incidents[..|incidents| - 1], c, s)
      + if last.category == c && last.severity == s && (last.status == Open || last.status == Acknowledged) then 1
        else 0
  }

  /** The summary counts the incidents that are not resolved, as far as a counter reaches. */
  lemma {:induction false} SummaryCounts(incidents: seq<Incident>, c: Category, s: Severity)
    ensures Count(Summary(incidents), c, s) == Min(Pending(incidents, c, s), U32_MAX)
    ensures (c, s) in Summary(incidents) <==> Pending(incidents, c, s) > 0
  {
    if incidents != [] {
      SummaryCounts(incidents[..|incidents| - 1], c, s);
    }
  }
}
