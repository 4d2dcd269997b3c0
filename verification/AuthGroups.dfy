/** What the agent's aggregate says, row by row. */
module AuthGroups {
  import opened Wrappers
  import Detect
  import opened Ordering
  import opened Intrusion
  import opened AuthLog

  function NameOrEmpty(e: AuthEvent): string {
    match e.username
    case Some(name) => name
    case None => ""
  }

  /** The events one row stands for: same service, source, user name and outcome. */
  predicate SameKind(a: AuthEvent, b: AuthEvent) {
    a.service == b.service && a.source == b.source && a.outcome == b.outcome && NameOrEmpty(a) == NameOrEmpty(b)
  }

  /** Occurrences of the kind of `e` in `events`, added up. */
  function CountOf(events: seq<AuthEvent>, e: AuthEvent): nat {
    if events == [] then 0
    else
      var last := events[|events| - 1];
      CountOf(events[..|events| - 1], e) + if SameKind(last, e) then last.count else 0
  }

  lemma KeySame(a: AuthEvent, b: AuthEvent)
    ensures KeyOf(a) == KeyOf(b) <==> SameKind(a, b)
  {
    assert forall i | 0 <= i < 4 :: KeyOf(a) == KeyOf(b) ==> KeyOf(a)[i] == KeyOf(b)[i];
    assert Failure.Name()[0] == 'f' && Success.Name()[0] == 's';
  }

  lemma {:induction false} CountOfKind(events: seq<AuthEvent>, a: AuthEvent, b: AuthEvent)
    requires SameKind(a, b)
    ensures CountOf(events, a) == CountOf(events, b)
  {
    if events != [] {
      CountOfKind(events[..|events| - 1], a, b);
    }
  }

  lemma {:induction false} NoneOfKind(events: seq<AuthEvent>, e: AuthEvent)
    requires forall x | x in events :: !SameKind(x, e)
    ensures CountOf(events, e) == 0
  {
    if events != [] {
      NoneOfKind(events[..|events| - 1], e);
    }
  }

  /** A row that stands for its kind: the count saturates, and the last sighting is the latest. */
  ghost predicate RowOf(events: seq<AuthEvent>, row: AuthEvent) {
    && row.count == Min(CountOf(events, row), U32_MAX)
    && (exists x :: x in events && SameKind(x, row) && x.lastSeen == row.lastSeen)
    && forall x | x in events && SameKind(x, row) :: x.lastSeen <= row.lastSeen
  }

  lemma RowStays(past: seq<AuthEvent>, last: AuthEvent, row: AuthEvent)
    requires RowOf(past, row) && !SameKind(last, row)
    ensures RowOf(past + [last], row)
  {
    var all := past + [last];
    assert all[..|past|] == past;
    var x :| x in past && SameKind(x, row) && x.lastSeen == row.lastSeen;
    assert x in all;
  }

  lemma RowAbsorbs(past: seq<AuthEvent>, last: AuthEvent, row: AuthEvent)
    requires RowOf(past, row) && SameKind(last, row)
    ensures RowOf(past + [last], Absorb(Some(row), last))
  {
    var all, merged := past + [last], Absorb(Some(row), last);
    assert all[..|past|] == past;
    CountOfKind(all, row, merged);
    var x :| x in past && SameKind(x, row) && x.lastSeen == row.lastSeen;
    assert x in all && last in all;
  }

  lemma RowBegins(past: seq<AuthEvent>, last: AuthEvent)
    requires forall x | x in past :: !SameKind(x, last)
    ensures RowOf(past + [last], last)
  {
    var all := past + [last];
    assert all[..|past|] == past;
    NoneOfKind(past, last);
    assert last in all;
  }

  lemma {:induction false} KeyFits(events: seq<AuthEvent>, key: seq<string>)
    requires key in Groups(events)
    ensures KeyOf(Groups(events)[key]) == key
  {
    if key in Groups(events[..|events| - 1]) {
      KeyFits(events[..|events| - 1], key);
    }
  }

  lemma NewKind(past: seq<AuthEvent>, last: AuthEvent)
    requires KeyOf(last) !in Groups(past)
    ensures forall x | x in past :: !SameKind(x, last)
  {
    NotGrouped(past, KeyOf(last));
    forall x | x in past ensures !SameKind(x, last) {
      var j :| 0 <= j < |past| && past[j] == x;
      KeySame(x, last);
    }
  }

  lemma {:induction false} RowAtKey(events: seq<AuthEvent>, key: seq<string>)
    requires key in Groups(events)
    ensures RowOf(events, Groups(events)[key])
  {
    var past, last := events[..|events| - 1], events[|events| - 1];
    assert events == past + [last];
    if key in Groups(past) {
      RowAtKey(past, key);
      KeyFits(past, key);
      KeySame(last, Groups(past)[key]);
      if key == KeyOf(last) {
        RowAbsorbs(past, last, Groups(past)[key]);
      } else {
        RowStays(past, last, Groups(past)[key]);
      }
    } else {
      NewKind(past, last);
      RowBegins(past, last);
    }
  }

  predicate KeyOrder(a: AuthEvent, b: AuthEvent) {
    TupleLe(KeyOf(a), KeyOf(b))
  }

  /** Grouped rows come in the order of their keys, each key once. */
  lemma GroupedInOrder(events: seq<AuthEvent>, i: nat, j: nat)
    requires i < j < |Grouped(events)|
    ensures KeyOrder(Grouped(events)[i], Grouped(events)[j])
    ensures KeyOf(Grouped(events)[i]) != KeyOf(Grouped(events)[j])
  {
    TupleOrder();
    KeysFit(events);
    var groups := Groups(events);
    ValuesInKeyOrder(TupleLe, groups, i);
    ValuesInKeyOrder(TupleLe, groups, j);
    SortedKeysAscend(TupleLe, groups.Keys, i, j);
  }

  /** By service, then source, then user name, in dictionary order, and failures before successes. */
  ghost predicate KindBefore(a: AuthEvent, b: AuthEvent) {
    || Precedes(a.service, b.service)
    || (a.service == b.service && Precedes(a.source, b.source))
    || (a.service == b.service && a.source == b.source && Precedes(NameOrEmpty(a), NameOrEmpty(b)))
    || (a.service == b.service && a.source == b.source && NameOrEmpty(a) == NameOrEmpty(b)
        && a.outcome == Failure && b.outcome == Success)
  }

  lemma TupleStep(p: string, q: string, a: seq<string>, b: seq<string>)
    ensures TupleLe([p] + a, [q] + b) <==> Precedes(p, q) || (p == q && TupleLe(a, b))
  {
    StringLeExactly(p, q);
    assert ([p] + a)[1..] == a && ([q] + b)[1..] == b;
    if p == q {
      NotBeforeItself(p);
    }
  }

  lemma NotBeforeItself(p: string)
    ensures !Precedes(p, p)
  {
  }

  lemma OutcomeOrder(a: AuthOutcome, b: AuthOutcome)
    ensures TupleLe([a.Name()], [b.Name()]) <==> a == b || (a == Failure && b == Success)
  {
    assert Failure.Name()[0] == 'f' && Success.Name()[0] == 's';
    TupleStep(a.Name(), b.Name(), [], []);
    assert [a.Name()] + [] == [a.Name()] && [b.Name()] + [] == [b.Name()];
    StringLeExactly(a.Name(), b.Name());
  }

  lemma KeyOrderExactly(a: AuthEvent, b: AuthEvent)
    requires KeyOrder(a, b) && !SameKind(a, b)
    ensures KindBefore(a, b)
  {
    var s, t := [a.outcome.Name()], [b.outcome.Name()];
    var m, n := [NameOrEmpty(a)] + s, [NameOrEmpty(b)] + t;
    var k, l := [a.source] + m, [b.source] + n;
    assert KeyOf(a) == [a.service] + k && KeyOf(b) == [b.service] + l;
    TupleStep(a.service, b.service, k, l);
    TupleStep(a.source, b.source, m, n);
    TupleStep(NameOrEmpty(a), NameOrEmpty(b), s, t);
    OutcomeOrder(a.outcome, b.outcome);
  }

  lemma RankedPair(events: seq<AuthEvent>, i: nat, j: nat)
    requires i < j < |Ranked(events)|
    ensures var a, b := Ranked(events)[i], Ranked(events)[j];
            !SameKind(a, b) && (a.count > b.count || (a.count == b.count && KindBefore(a, b)))
  {
    var grouped, ranked := Grouped(events), Ranked(events);
    RankingPermutes(events);
    assert Busier(ranked[i], ranked[j]);
    forall p, q | 0 <= p < q < |grouped| ensures KeyOrder(grouped[p], grouped[q]) {
      GroupedInOrder(events, p, q);
    }
    RankedKeysDiffer(events, i, j);
    KeySame(ranked[i], ranked[j]);
    if ranked[i].count == ranked[j].count {
      SortKeepsOrder(Busier, KeyOrder, grouped, i, j);
      KeyOrderExactly(ranked[i], ranked[j]);
    }
  }

  lemma RankedKeysDiffer(events: seq<AuthEvent>, i: nat, j: nat)
    requires i < j < |Ranked(events)|
    ensures KeyOf(Ranked(events)[i]) != KeyOf(Ranked(events)[j])
  {
    var grouped, ranked := Grouped(events), Ranked(events);
    RankingPermutes(events);
    forall p, q | 0 <= p < q < |grouped| ensures KeyOf(grouped[p]) != KeyOf(grouped[q]) {
      GroupedInOrder(events, p, q);
    }
    if KeyOf(ranked[i]) == KeyOf(ranked[j]) {
      assert ranked[i] in multiset(grouped) && ranked[j] in multiset(grouped);
      var p :| 0 <= p < |grouped| && grouped[p] == ranked[i];
      var q :| 0 <= q < |grouped| && grouped[q] == ranked[j];
      assert p == q;
      Detect.TwiceInBag(ranked, i, j);
      OnceAt(grouped, p);
    }
  }

  lemma OnceAt(s: seq<AuthEvent>, p: nat)
    requires p < |s| && forall q | 0 <= q < |s| && q != p :: s[q] != s[p]
    ensures multiset(s)[s[p]] == 1
  {
    assert s == s[..p] + [s[p]] + s[p + 1..];
    assert s[p] !in s[..p] && s[p] !in s[p + 1..];
  }

  lemma RankedRow(events: seq<AuthEvent>, row: AuthEvent)
    requires row in Ranked(events)
    ensures RowOf(events, row)
  {
    RankingPermutes(events);
    assert row in multiset(Grouped(events));
    GroupedFrom(events, row);
    var key :| key in Groups(events) && Groups(events)[key] == row;
    RowAtKey(events, key);
  }

  lemma RankedCovers(events: seq<AuthEvent>, x: AuthEvent)
    requires x in events
    ensures exists row :: row in Ranked(events) && SameKind(row, x)
  {
    var j :| 0 <= j < |events| && events[j] == x;
    NotGrouped(events, KeyOf(x));
    KeyFits(events, KeyOf(x));
    KeySame(Groups(events)[KeyOf(x)], x);
    InGrouped(events, KeyOf(x));
    RankingPermutes(events);
    assert Groups(events)[KeyOf(x)] in multiset(Ranked(events));
  }

  /**
   The rows before the cut: one for every kind of event, each with its saturated count and its latest
   sighting, the busiest first and equally busy ones in the order of their keys.
   */
  lemma RankedExactly(events: seq<AuthEvent>)
    ensures forall row | row in Ranked(events) :: RowOf(events, row)
    ensures forall x | x in events :: exists row :: row in Ranked(events) && SameKind(row, x)
    ensures forall i, j | 0 <= i < j < |Ranked(events)| ::
              var a, b := Ranked(events)[i], Ranked(events)[j];
              !SameKind(a, b) && (a.count > b.count || (a.count == b.count && KindBefore(a, b)))
  {
    forall row | row in Ranked(events) ensures RowOf(events, row) {
      RankedRow(events, row);
    }
    forall x | x in events ensures exists row :: row in Ranked(events) && SameKind(row, x) {
      RankedCovers(events, x);
    }
    forall i, j | 0 <= i < j < |Ranked(events)|
      ensures var a, b := Ranked(events)[i], Ranked(events)[j];
              !SameKind(a, b) && (a.count > b.count || (a.count == b.count && KindBefore(a, b)))
    {
      RankedPair(events, i, j);
    }
  }

  /** What travels is the ranking, cut after 200 rows. */
  lemma AggregatedExactly(events: seq<AuthEvent>)
    ensures Aggregated(events) <= Ranked(events) && |Aggregated(events)| == Min(|Ranked(events)|, 200)
  {
  }
}
