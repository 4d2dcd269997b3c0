/** Collapsing the findings of one cycle, and ordering them. */
module Detect {
  import opened Wrappers
  import opened Models
  import opened Ordering

  function AppendNew(have: seq<Evidence>, more: seq<Evidence>): seq<Evidence>
    decreases |more|
  {
    if more == [] then have
    else AppendNew(if more[0] in have then have else have + [more[0]], more[1..])
  }

  function MergeInto(existing: Option<IncidentCandidate>, c: IncidentCandidate): IncidentCandidate {
    match existing
    case None => c
    case Some(e) =>
      if c.severity.Rank() > e.severity.Rank() then c.(evidence := e.evidence + c.evidence)
      else e.(evidence := AppendNew(e.evidence, c.evidence))
  }

  function At(merged: map<string, IncidentCandidate>, fingerprint: string): Option<IncidentCandidate> {
    if fingerprint in merged then Some(merged[fingerprint]) else None
  }

  function MergeMap(findings: seq<IncidentCandidate>): map<string, IncidentCandidate> {
    if findings == [] then map[]
    else
      var last := findings[|findings| - 1];
      var merged := MergeMap(findings[..|findings| - 1]);
      merged[last.fingerprint := MergeInto(At(merged, last.fingerprint), last)]
  }

  ghost function Merged(findings: seq<IncidentCandidate>): seq<IncidentCandidate> {
    StringOrder();
    Values(StringLe, MergeMap(findings))
  }

  method MergeByFingerprint(findings: seq<IncidentCandidate>) returns (result: seq<IncidentCandidate>)
    ensures result == Merged(findings)
  {
    var merged: map<string, IncidentCandidate> := map[];
    for i := 0 to |findings|
      invariant merged == MergeMap(findings[..i])
    {
      var candidate := findings[i];
      assert findings[..i + 1][..i] == findings[..i];
      if candidate.fingerprint !in merged {
        merged := merged[candidate.fingerprint := candidate];
      } else {
        var existing := merged[candidate.fingerprint];
        if candidate.severity.Rank() > existing.severity.Rank() {
          existing := candidate.(evidence := existing.evidence + candidate.evidence);
        } else {
          ghost var before := existing;
          for j := 0 to |candidate.evidence|
            invariant existing == before.(evidence := existing.evidence)
            invariant AppendNew(existing.evidence, candidate.evidence[j..])
                   == AppendNew(before.evidence, candidate.evidence)
          {
            assert candidate.evidence[j..][1..] == candidate.evidence[j + 1..];
            if candidate.evidence[j] !in existing.evidence {
              existing := existing.(evidence := existing.evidence + [candidate.evidence[j]]);
            }
          }
        }
        merged := merged[candidate.fingerprint := existing];
      }
    }
    assert findings[..|findings|] == findings;
    StringOrder();
    result := IntoValues(StringLe, merged);
  }

  // ------------------------------------------------ what a merge keeps

  lemma {:induction false} AppendNewKeeps(have: seq<Evidence>, more: seq<Evidence>)
    ensures forall e :: e in AppendNew(have, more) <==> e in have || e in more
    decreases |more|
  {
    if more != [] {
      var have' := if more[0] in have then have else have + [more[0]];
      AppendNewKeeps(have', more[1..]);
      assert more == [more[0]] + more[1..];
    }
  }

  /** `c` at `i` is the first of the worst findings with its fingerprint. */
  ghost predicate Leads(findings: seq<IncidentCandidate>, i: int) {
    && 0 <= i < |findings|
    && forall j | 0 <= j < |findings| && findings[j].fingerprint == findings[i].fingerprint ::
         && findings[j].severity.Rank() <= findings[i].severity.Rank()
         && (j < i ==> findings[j].severity.Rank() < findings[i].severity.Rank())
  }

  ghost predicate Reported(findings: seq<IncidentCandidate>, fingerprint: string) {
    exists i :: 0 <= i < |findings| && findings[i].fingerprint == fingerprint
  }

  ghost predicate Supported(findings: seq<IncidentCandidate>, fingerprint: string, e: Evidence) {
    exists i :: 0 <= i < |findings| && findings[i].fingerprint == fingerprint && e in findings[i].evidence
  }

  /** `m` is the one finding that stands for every finding of `findings` with its fingerprint. */
  ghost predicate StandsFor(findings: seq<IncidentCandidate>, fingerprint: string, m: IncidentCandidate) {
    && (exists i :: Leads(findings, i) && findings[i].fingerprint == fingerprint
                    && m == findings[i].(evidence := m.evidence))
    && forall e :: e in m.evidence <==> Supported(findings, fingerprint, e)
  }

  lemma MergeExtends(findings: seq<IncidentCandidate>, c: IncidentCandidate, existing: Option<IncidentCandidate>)
    requires existing.Some? <==> Reported(findings, c.fingerprint)
    requires existing.Some? ==> StandsFor(findings, c.fingerprint, existing.value)
    ensures StandsFor(findings + [c], c.fingerprint, MergeInto(existing, c))
  {
    var all, m, f := findings + [c], MergeInto(existing, c), c.fingerprint;
    var last := |findings|;
    forall e ensures Supported(all, f, e) <==> Supported(findings, f, e) || e in c.evidence {
      if Supported(findings, f, e) {
        var i :| 0 <= i < |findings| && findings[i].fingerprint == f && e in findings[i].evidence;
        assert all[i] == findings[i];
      }
      if e in c.evidence {
        assert all[last] == c;
      }
    }
    if existing.Some? {
      AppendNewKeeps(existing.value.evidence, c.evidence);
      var i :| Leads(findings, i) && findings[i].fingerprint == f
               && existing.value == findings[i].(evidence := existing.value.evidence);
      assert all[i] == findings[i] && all[last] == c;
      if c.severity.Rank() > existing.value.severity.Rank() {
        assert Leads(all, last);
      } else {
        assert Leads(all, i);
      }
    } else {
      assert Leads(all, last);
      assert forall e :: !Supported(findings, f, e);
    }
  }

  lemma OthersUnchanged(findings: seq<IncidentCandidate>, c: IncidentCandidate, f: string, m: IncidentCandidate)
    requires f != c.fingerprint && StandsFor(findings, f, m)
    ensures StandsFor(findings + [c], f, m)
  {
    var all := findings + [c];
    var i :| Leads(findings, i) && findings[i].fingerprint == f && m == findings[i].(evidence := m.evidence);
    assert Leads(all, i) && all[i] == findings[i];
    forall e ensures Supported(all, f, e) <==> Supported(findings, f, e) {
      if Supported(findings, f, e) {
        var j :| 0 <= j < |findings| && findings[j].fingerprint == f && e in findings[j].evidence;
        assert all[j] == findings[j];
      }
    }
  }

  lemma {:induction false} MergeMapStands(findings: seq<IncidentCandidate>)
    ensures forall f :: f in MergeMap(findings) <==> Reported(findings, f)
    ensures forall f | f in MergeMap(findings) :: StandsFor(findings, f, MergeMap(findings)[f])
  {
    if findings != [] {
      var past, c := findings[..|findings| - 1], findings[|findings| - 1];
      var merged := MergeMap(past);
      assert findings == past + [c];
      MergeMapStands(past);
      MergeExtends(past, c, At(merged, c.fingerprint));
      forall f ensures f in MergeMap(findings) <==> Reported(findings, f) {
        if Reported(past, f) {
          var i :| 0 <= i < |past| && past[i].fingerprint == f;
          assert findings[i] == past[i];
        }
      }
      forall f | f in MergeMap(findings) ensures StandsFor(findings, f, MergeMap(findings)[f]) {
        if f != c.fingerprint {
          OthersUnchanged(past, c, f, merged[f]);
        }
      }
    }
  }

  ghost predicate Ascending(findings: seq<IncidentCandidate>) {
    forall i, j | 0 <= i < j < |findings| ::
      StringLe(findings[i].fingerprint, findings[j].fingerprint) && findings[i].fingerprint != findings[j].fingerprint
  }

  lemma MergedAt(findings: seq<IncidentCandidate>, i: nat)
    requires i < |Merged(findings)|
    ensures var m := Merged(findings)[i];
            && m.fingerprint in MergeMap(findings)
            && m == MergeMap(findings)[m.fingerprint]
            && TotalOrder(StringLe)
            && |Merged(findings)| == |MergeMap(findings).Keys|
            && m.fingerprint == SortedKeys(StringLe, MergeMap(findings).Keys)[i]
  {
    StringOrder();
    MergeMapStands(findings);
    ValuesInKeyOrder(StringLe, MergeMap(findings), i);
  }

  /**
   Merging loses nothing: one finding per reported fingerprint, in fingerprint order, each the
   first of the worst of its group and carrying exactly the evidence of the whole group.
   */
  lemma MergeLosesNothing(findings: seq<IncidentCandidate>)
    ensures Ascending(Merged(findings))
    ensures forall f :: Reported(findings, f) <==> Reported(Merged(findings), f)
    ensures forall i | 0 <= i < |Merged(findings)| ::
              StandsFor(findings, Merged(findings)[i].fingerprint, Merged(findings)[i])
  {
    StringOrder();
    MergeMapStands(findings);
    var m, r := MergeMap(findings), Merged(findings);
    forall i, j | 0 <= i < j < |r|
      ensures StringLe(r[i].fingerprint, r[j].fingerprint) && r[i].fingerprint != r[j].fingerprint
    {
      MergedAt(findings, i);
      MergedAt(findings, j);
      SortedKeysAscend(StringLe, m.Keys, i, j);
    }
    forall i | 0 <= i < |r| ensures StandsFor(findings, r[i].fingerprint, r[i]) && r[i].fingerprint in m {
      MergedAt(findings, i);
    }
    forall f | Reported(findings, f) ensures Reported(r, f) {
      SortedKeysCover(StringLe, m.Keys);
      ValuesInKeyOrder(StringLe, m, 0);
      var keys := SortedKeys(StringLe, m.Keys);
      assert f in keys;
      var i :| 0 <= i < |keys| && keys[i] == f;
      MergedAt(findings, i);
    }
  }

  lemma {:induction false} AppendNewExtends(have: seq<Evidence>, more: seq<Evidence>)
    ensures have <= AppendNew(have, more)
    decreases |more|
  {
    if more != [] {
      AppendNewExtends(if more[0] in have then have else have + [more[0]], more[1..]);
    }
  }

  /** Evidence stays in the order it was found: what later findings add comes after what was there. */
  lemma {:induction false} EvidenceInOrder(findings: seq<IncidentCandidate>, n: nat, f: string)
    requires n <= |findings| && f in MergeMap(findings[..n])
    ensures f in MergeMap(findings) && MergeMap(findings[..n])[f].evidence <= MergeMap(findings)[f].evidence
    decreases |findings|
  {
    if n == |findings| {
      assert findings[..n] == findings;
    } else {
      var past, last := findings[..|findings| - 1], findings[|findings| - 1];
      assert past[..n] == findings[..n];
      EvidenceInOrder(past, n, f);
      if f == last.fingerprint {
        AppendNewExtends(MergeMap(past)[f].evidence, last.evidence);
      }
    }
  }

  // ------------------------------------------------ merging twice

  ghost predicate Distinct(findings: seq<IncidentCandidate>) {
    forall i, j | 0 <= i < j < |findings| :: findings[i].fingerprint != findings[j].fingerprint
  }

  lemma {:induction false} MergeOfDistinct(findings: seq<IncidentCandidate>)
    requires Distinct(findings)
    ensures forall f :: f in MergeMap(findings) <==> Reported(findings, f)
    ensures forall i | 0 <= i < |findings| :: At(MergeMap(findings), findings[i].fingerprint) == Some(findings[i])
  {
    MergeMapStands(findings);
    if findings != [] {
      var past, c := findings[..|findings| - 1], findings[|findings| - 1];
      MergeOfDistinct(past);
      assert !Reported(past, c.fingerprint);
      forall i | 0 <= i < |findings| ensures At(MergeMap(findings), findings[i].fingerprint) == Some(findings[i]) {
        if i < |past| {
          assert findings[i] == past[i];
        }
      }
    }
  }

  lemma MergeIsIdempotent(findings: seq<IncidentCandidate>)
    ensures Merged(Merged(findings)) == Merged(findings)
  {
    var r := Merged(findings);
    MergeLosesNothing(findings);
    MergeMapStands(findings);
    MergeOfDistinct(r);
    var m, again := MergeMap(findings), MergeMap(r);
    forall f ensures At(m, f) == At(again, f) {
      if f in again {
        var i :| 0 <= i < |r| && r[i].fingerprint == f;
        MergedAt(findings, i);
        assert At(again, r[i].fingerprint) == Some(r[i]);
      }
    }
    SameMap(m, again);
  }

  lemma SameMap(m: map<string, IncidentCandidate>, n: map<string, IncidentCandidate>)
    requires forall f :: At(m, f) == At(n, f)
    ensures m == n
  {
    forall f ensures f in m <==> f in n {
      assert At(m, f) == At(n, f);
    }
    forall f | f in m ensures m[f] == n[f] {
      assert At(m, f) == At(n, f);
    }
  }

  // ------------------------------------------------ analyze

  /** Highest severity first, then by fingerprint. */
  predicate Before(a: IncidentCandidate, b: IncidentCandidate) {
    a.severity.Rank() > b.severity.Rank()
    || (a.severity.Rank() == b.severity.Rank() && StringLe(a.fingerprint, b.fingerprint))
  }

  lemma BeforeIsPreorder()
    ensures TotalPreorder(Before)
  {
    StringOrder();
  }

  /** The candidates of one cycle, from the raw findings of every detector in turn. */
  ghost function Analyzed(findings: seq<IncidentCandidate>): seq<IncidentCandidate> {
    Sort(Before, Merged(findings))
  }

  method Analyze(findings: seq<IncidentCandidate>) returns (result: seq<IncidentCandidate>)
    ensures result == Analyzed(findings)
    ensures SortedBy(Before, result) && Distinct(result) && multiset(result) == multiset(Merged(findings))
  {
    AnalyzeOrders(findings);
    var merged := MergeByFingerprint(findings);
    result := Sort(Before, merged);
  }

  /** The cycle's report: the merged findings, each once, worst first. */
  lemma AnalyzeOrders(findings: seq<IncidentCandidate>)
    ensures SortedBy(Before, Analyzed(findings))
    ensures multiset(Analyzed(findings)) == multiset(Merged(findings))
    ensures Distinct(Analyzed(findings))
    ensures forall f :: Reported(findings, f) <==> Reported(Analyzed(findings), f)
  {
    var r, m := Analyzed(findings), Merged(findings);
    BeforeIsPreorder();
    SortSorts(Before, m);
    MergeLosesNothing(findings);
    PermutedDistinct(m, r);
    forall f ensures Reported(m, f) <==> Reported(r, f) {
      PermutedReport(m, r, f);
      PermutedReport(r, m, f);
    }
  }

  /** Worst first: by severity, and among equals by fingerprint in dictionary order. */
  lemma WorstFirst(findings: seq<IncidentCandidate>, i: nat, j: nat)
    requires i < j < |Analyzed(findings)|
    ensures var a, b := Analyzed(findings)[i], Analyzed(findings)[j];
            || a.severity.Rank() > b.severity.Rank()
            || (a.severity == b.severity && Precedes(a.fingerprint, b.fingerprint))
  {
    AnalyzeOrders(findings);
    var a, b := Analyzed(findings)[i], Analyzed(findings)[j];
    assert Before(a, b) && a.fingerprint != b.fingerprint;
    if a.severity.Rank() == b.severity.Rank() {
      RankInjective(a.severity, b.severity);
      StringLeExactly(a.fingerprint, b.fingerprint);
    }
  }

  lemma PermutedReport(a: seq<IncidentCandidate>, b: seq<IncidentCandidate>, f: string)
    requires multiset(a) == multiset(b)
    ensures Reported(a, f) ==> Reported(b, f)
  {
    if Reported(a, f) {
      var i :| 0 <= i < |a| && a[i].fingerprint == f;
      assert a[i] in multiset(b);
    }
  }

  lemma PermutedDistinct(a: seq<IncidentCandidate>, b: seq<IncidentCandidate>)
    requires multiset(a) == multiset(b) && Distinct(a)
    ensures Distinct(b)
  {
    forall i, j | 0 <= i < j < |b| ensures b[i].fingerprint != b[j].fingerprint {
      if b[i].fingerprint == b[j].fingerprint {
        assert b[i] in multiset(a) && b[j] in multiset(a);
        assert b[i] == b[j];
        TwiceInBag(b, i, j);
        OnceInBag(a, b[i]);
      }
    }
  }

  lemma TwiceInBag<T>(s: seq<T>, i: nat, j: nat)
    requires i < j < |s| && s[i] == s[j]
    ensures multiset(s)[s[i]] >= 2
  {
    assert s == s[..j] + [s[j]] + s[j + 1..];
    assert s[i] in s[..j];
  }

  lemma {:induction false} OnceInBag(s: seq<IncidentCandidate>, c: IncidentCandidate)
    requires Distinct(s)
    ensures multiset(s)[c] <= 1
  {
    if s != [] {
      assert s == [s[0]] + s[1..];
      OnceInBag(s[1..], c);
      if s[0] == c {
        assert c !in s[1..];
      }
    }
  }
}
