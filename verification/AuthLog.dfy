/** The agent's side: authentication events are aggregated before they travel. */
module AuthLog {
  import opened Wrappers
  import opened Models
  import opened Ordering
  import opened Intrusion
  import opened AuthDetection

  const MAX_EVENTS: nat := 200

  /** Service, source, user and outcome, in the order the grouping map compares them. */
  function KeyOf(e: AuthEvent): seq<string> {
    [e.service, e.source, if e.username.Some? then e.username.value else "", e.outcome.Name()]
  }

  function Absorb(existing: Option<AuthEvent>, e: AuthEvent): AuthEvent {
    match existing
    case None => e
    case Some(x) => x.(count := SatAdd32(x.count, e.count), lastSeen := Max(x.lastSeen, e.lastSeen))
  }

  function GroupAt(groups: map<seq<string>, AuthEvent>, key: seq<string>): Option<AuthEvent> {
    if key in groups then Some(groups[key]) else None
  }

  function Groups(events: seq<AuthEvent>): map<seq<string>, AuthEvent> {
    if events == [] then map[]
    else
      var last := events[|events| - 1];
      var groups := Groups(events[..|events| - 1]);
      groups[KeyOf(last) := Absorb(GroupAt(groups, KeyOf(last)), last)]
  }

  /** The groups in the map's own order. */
  ghost function Grouped(events: seq<AuthEvent>): seq<AuthEvent> {
    TupleOrder();
    Values(TupleLe, Groups(events))
  }

  predicate Busier(a: AuthEvent, b: AuthEvent) {
    a.count >= b.count
  }

  ghost function Ranked(events: seq<AuthEvent>): seq<AuthEvent> {
    Sort(Busier, Grouped(events))
  }

  /** What travels: the busiest groups, at most `MAX_EVENTS` of them. */
  ghost function Aggregated(events: seq<AuthEvent>): seq<AuthEvent> {
    var ranked := Ranked(events);
    if |ranked| <= MAX_EVENTS then ranked else ranked[..MAX_EVENTS]
  }

  method Aggregate(events: seq<AuthEvent>) returns (result: seq<AuthEvent>)
    ensures result == Aggregated(events)
  {
    var groups: map<seq<string>, AuthEvent> := map[];
    for i := 0 to |events|
      invariant groups == Groups(events[..i])
    {
      var event := events[i];
      var key := KeyOf(event);
      assert events[..i + 1][..i] == events[..i];
      if key in groups {
        var existing := groups[key];
        groups := groups[key := existing.(count := SatAdd32(existing.count, event.count),
                                          lastSeen := Max(existing.lastSeen, event.lastSeen))];
      } else {
        groups := groups[key := event];
      }
    }
    assert events[..|events|] == events;
    TupleOrder();
    var values := IntoValues(TupleLe, groups);
    result := Sort(Busier, values);
    if |result| > MAX_EVENTS {
      result := result[..MAX_EVENTS];
    }
  }

  // ------------------------------------------------ grouping keeps the pressure

  /** Pressure without the empty user name, which the grouping key cannot tell from no name at all. */
  function Blind(p: SourcePressure): SourcePressure {
    p.(usernames := p.usernames - {""})
  }

  lemma BlindPlus(p: SourcePressure, q: SourcePressure)
    ensures Blind(Plus(p, q)) == Plus(Blind(p), Blind(q))
  {
  }

  lemma {:induction false} KeysFit(events: seq<AuthEvent>)
    ensures forall key | key in Groups(events) :: KeyOf(Groups(events)[key]) == key
  {
    if events != [] {
      KeysFit(events[..|events| - 1]);
    }
  }

  lemma AbsorbAdds(x: AuthEvent, e: AuthEvent, source: string)
    requires KeyOf(x) == KeyOf(e)
    ensures Blind(Contribution(Absorb(Some(x), e), source))
         == Plus(Blind(Contribution(x, source)), Blind(Contribution(e, source)))
    ensures Contribution(Absorb(Some(x), e), source).usernames == Contribution(x, source).usernames
  {
    assert forall i | 0 <= i < 4 :: KeyOf(x)[i] == KeyOf(e)[i];
    assert x.outcome == e.outcome by {
      assert Failure.Name()[0] == 'f' && Success.Name()[0] == 's';
    }
  }

  lemma ReplaceInBag(bag: seq<AuthEvent>, x: AuthEvent, e: AuthEvent, before: seq<AuthEvent>, after: seq<AuthEvent>,
                     source: string)
    requires KeyOf(x) == KeyOf(e)
    requires multiset(before) == multiset(bag) + multiset{x}
    requires multiset(after) == multiset(bag) + multiset{Absorb(Some(x), e)}
    ensures var p, q := Pressure(before, source), Pressure(after, source);
            && Blind(q) == Plus(Blind(p), Blind(Contribution(e, source)))
            && q.usernames <= p.usernames
  {
    var r, merged := Pressure(bag, source), Absorb(Some(x), e);
    PressureOfBag(after, bag, merged, source);
    PressureOfBag(before, bag, x, source);
    AbsorbAdds(x, e, source);
    BlindPlus(r, Contribution(merged, source));
    BlindPlus(r, Contribution(x, source));
    PlusAssociates(Blind(r), Blind(Contribution(x, source)), Blind(Contribution(e, source)));
  }

  lemma AddToBag(before: seq<AuthEvent>, e: AuthEvent, after: seq<AuthEvent>, source: string)
    requires multiset(after) == multiset(before) + multiset{e}
    ensures var p, q := Pressure(before, source), Pressure(after, source);
            && Blind(q) == Plus(Blind(p), Blind(Contribution(e, source)))
            && q.usernames == p.usernames + Contribution(e, source).usernames
  {
    PressureOfBag(after, before, e, source);
    BlindPlus(Pressure(before, source), Contribution(e, source));
  }

  /** Pressure of the groups after one more event, in terms of the groups before it. */
  lemma GroupingStep(groups: map<seq<string>, AuthEvent>, e: AuthEvent, source: string)
    requires TotalOrder(TupleLe)
    requires forall key | key in groups :: KeyOf(groups[key]) == key
    ensures var after := groups[KeyOf(e) := Absorb(GroupAt(groups, KeyOf(e)), e)];
            var p, q := Pressure(Values(TupleLe, groups), source), Pressure(Values(TupleLe, after), source);
            && Blind(q) == Plus(Blind(p), Blind(Contribution(e, source)))
            && q.usernames <= p.usernames + Contribution(e, source).usernames
  {
    var key := KeyOf(e);
    var merged := Absorb(GroupAt(groups, key), e);
    var after, rest := groups[key := merged], groups - {key};
    assert after - {key} == rest;
    ValuesWithout(TupleLe, after, key);
    if key in groups {
      ValuesWithout(TupleLe, groups, key);
      ReplaceInBag(Values(TupleLe, rest), groups[key], e, Values(TupleLe, groups), Values(TupleLe, after), source);
    } else {
      assert rest == groups;
      AddToBag(Values(TupleLe, groups), e, Values(TupleLe, after), source);
    }
  }

  lemma {:induction false} GroupingKeepsPressure(events: seq<AuthEvent>, source: string)
    ensures Blind(Pressure(Grouped(events), source)) == Blind(Pressure(events, source))
    ensures Pressure(Grouped(events), source).usernames <= Pressure(events, source).usernames
  {
    TupleOrder();
    if events != [] {
      var past, last := events[..|events| - 1], events[|events| - 1];
      GroupingKeepsPressure(past, source);
      KeysFit(past);
      GroupingStep(Groups(past), last, source);
      BlindPlus(Pressure(past, source), Contribution(last, source));
    }
  }

  lemma RankingPermutes(events: seq<AuthEvent>)
    ensures multiset(Ranked(events)) == multiset(Grouped(events)) && |Ranked(events)| == |Groups(events)|
    ensures SortedBy(Busier, Ranked(events))
  {
    TupleOrder();
    SortSorts(Busier, Grouped(events));
    ValuesInKeyOrder(TupleLe, Groups(events), 0);
    assert |multiset(Ranked(events))| == |multiset(Grouped(events))|;
  }

  // ------------------------------------------------ what the empty name costs

  predicate LeadsGroup(events: seq<AuthEvent>, i: int) {
    0 <= i < |events| && forall j | 0 <= j < i :: KeyOf(events[j]) != KeyOf(events[i])
  }

  predicate Nameless(e: AuthEvent, source: string) {
    e.source == source && e.username == Some("")
  }

  /** A group keeps the user name of its first event. */
  lemma {:induction false} LeaderNames(events: seq<AuthEvent>, i: int)
    requires LeadsGroup(events, i)
    ensures var key := KeyOf(events[i]);
            && key in Groups(events)
            && Groups(events)[key].username == events[i].username && Groups(events)[key].source == events[i].source
  {
    var n := |events| - 1;
    var past := events[..n];
    if i < n {
      assert LeadsGroup(past, i);
      LeaderNames(past, i);
    } else {
      NotGrouped(past, KeyOf(events[n]));
    }
  }

  lemma {:induction false} NotGrouped(events: seq<AuthEvent>, key: seq<string>)
    ensures key in Groups(events) <==> exists j :: 0 <= j < |events| && KeyOf(events[j]) == key
  {
    if events != [] {
      var past := events[..|events| - 1];
      NotGrouped(past, key);
      if j :| 0 <= j < |past| && KeyOf(past[j]) == key {
        assert KeyOf(events[j]) == key;
      }
    }
  }

  lemma {:induction false} GroupHasLeader(events: seq<AuthEvent>, j: nat) returns (i: int)
    requires j < |events|
    ensures LeadsGroup(events, i) && KeyOf(events[i]) == KeyOf(events[j])
    decreases j
  {
    if k :| 0 <= k < j && KeyOf(events[k]) == KeyOf(events[j]) {
      i := GroupHasLeader(events, k);
    } else {
      i := j;
    }
  }

  lemma {:induction false} UsernamesOf(events: seq<AuthEvent>, source: string, name: string)
    ensures name in Pressure(events, source).usernames
       <==> exists e :: e in events && e.source == source && e.username == Some(name)
  {
    if events != [] {
      var past, last := events[..|events| - 1], events[|events| - 1];
      assert events == past + [last];
      UsernamesOf(past, source, name);
    }
  }

  lemma GroupedFrom(events: seq<AuthEvent>, e: AuthEvent)
    requires e in Grouped(events)
    ensures exists key :: key in Groups(events) && Groups(events)[key] == e
  {
    TupleOrder();
    var i :| 0 <= i < |Grouped(events)| && Grouped(events)[i] == e;
    ValuesInKeyOrder(TupleLe, Groups(events), i);
  }

  lemma InGrouped(events: seq<AuthEvent>, key: seq<string>)
    requires key in Groups(events)
    ensures Groups(events)[key] in Grouped(events)
  {
    TupleOrder();
    var groups := Groups(events);
    ValuesInKeyOrder(TupleLe, groups, 0);
    SortedKeysCover(TupleLe, groups.Keys);
    var i := IndexIn(SortedKeys(TupleLe, groups.Keys), key);
    ValuesInKeyOrder(TupleLe, groups, i);
    assert Values(TupleLe, groups)[i] == groups[key];
  }

  lemma IndexIn<T>(s: seq<T>, x: T) returns (i: nat)
    requires x in s
    ensures i < |s| && s[i] == x
  {
    i :| 0 <= i < |s| && s[i] == x;
  }

  /** The empty name survives grouping exactly when it is the name its group began with. */
  lemma EmptyNameSurvives(events: seq<AuthEvent>, source: string)
    ensures "" in Pressure(Grouped(events), source).usernames
       <==> exists i :: LeadsGroup(events, i) && Nameless(events[i], source)
  {
    UsernamesOf(Grouped(events), source, "");
    if e :| e in Grouped(events) && Nameless(e, source) {
      GroupedFrom(events, e);
      var key :| key in Groups(events) && Groups(events)[key] == e;
      NotGrouped(events, key);
      var j :| 0 <= j < |events| && KeyOf(events[j]) == key;
      var i := GroupHasLeader(events, j);
      LeaderNames(events, i);
    }
    if i :| LeadsGroup(events, i) && Nameless(events[i], source) {
      LeaderNames(events, i);
      InGrouped(events, KeyOf(events[i]));
    }
  }

  // ------------------------------------------------ aggregation and detection

  lemma BlindEqual(p: SourcePressure, q: SourcePressure)
    requires Blind(p) == Blind(q)
    ensures p == q <==> ("" in p.usernames <==> "" in q.usernames)
  {
    if "" in p.usernames <==> "" in q.usernames {
      forall name ensures name in p.usernames <==> name in q.usernames {
        assert name in Blind(p).usernames <==> name in Blind(q).usernames;
      }
    }
  }

  predicate EmptyNameKept(events: seq<AuthEvent>, source: string) {
    (exists e | e in events :: Nameless(e, source))
    ==> exists i | 0 <= i < |events| :: LeadsGroup(events, i) && Nameless(events[i], source)
  }

  /**
   With at most `MAX_EVENTS` groups, the server sees for a source exactly the pressure of the raw
   events, saturation included, if and only if no empty user name was absorbed by a group that
   began without a name.
   */
  lemma AggregationExactIff(events: seq<AuthEvent>, source: string)
    requires |Groups(events)| <= MAX_EVENTS
    ensures Pressure(Aggregated(events), source) == Pressure(events, source) <==> EmptyNameKept(events, source)
    ensures Blind(Pressure(Aggregated(events), source)) == Blind(Pressure(events, source))
  {
    RankingPermutes(events);
    PressurePermutes(Aggregated(events), Grouped(events), source);
    GroupingKeepsPressure(events, source);
    BlindEqual(Pressure(Grouped(events), source), Pressure(events, source));
    EmptyNameSurvives(events, source);
    UsernamesOf(events, source, "");
  }

  /** `aggregate` alone can lose a name: an event without one, then an event with the empty one. */
  lemma EmptyNameLost(service: string, source: string, at: Time)
    ensures var nameless := AuthEvent(service, source, None, Failure, 1, at);
            var events := [nameless, nameless.(username := Some(""))];
            && |Groups(events)| <= MAX_EVENTS
            && "" in Pressure(events, source).usernames && "" !in Pressure(Aggregated(events), source).usernames
  {
    var nameless := AuthEvent(service, source, None, Failure, 1, at);
    var events := [nameless, nameless.(username := Some(""))];
    assert events[..1] == [nameless] && [nameless][..0] == [] && Groups([]) == map[];
    assert Nameless(events[1], source) && KeyOf(events[1]) == KeyOf(events[0]);
    assert Groups([nameless]).Keys == {KeyOf(nameless)} == Groups(events).Keys;
    assert !EmptyNameKept(events, source);
    AggregationExactIff(events, source);
    UsernamesOf(events, source, "");
    BlindEqual(Pressure(Aggregated(events), source), Pressure(events, source));
  }

  lemma AggregateAlike(events: seq<AuthEvent>, reported: seq<AuthEvent>, source: string)
    requires multiset(events) == multiset(reported) && |Groups(reported)| <= MAX_EVENTS
    requires Pressure(events, source).failures > 0 ==> EmptyNameKept(reported, source)
    ensures Alike(Pressure(Aggregated(reported), source), Pressure(events, source))
  {
    PressurePermutes(events, reported, source);
    AggregationExactIff(reported, source);
    var p, q := Pressure(Aggregated(reported), source), Pressure(reported, source);
    assert Blind(p).failures == Blind(q).failures && Blind(p).services == Blind(q).services;
  }

  lemma AggregateFindings(policy: IntrusionPolicy, agent: Uuid, events: seq<AuthEvent>, reported: seq<AuthEvent>,
                          at: Time)
    requires multiset(events) == multiset(reported) && |Groups(reported)| <= MAX_EVENTS
    requires forall source: string | Pressure(events, source).failures > 0 :: EmptyNameKept(reported, source)
    ensures AuthFindings(policy, agent, Aggregated(reported), at) == AuthFindings(policy, agent, events, at)
  {
    forall source: string ensures Alike(Pressure(Aggregated(reported), source), Pressure(events, source)) {
      AggregateAlike(events, reported, source);
    }
    FindingsFollowPressure(policy, agent, Aggregated(reported), events, at);
  }

  lemma NameLost(events: seq<AuthEvent>, reported: seq<AuthEvent>, source: string)
    requires multiset(events) == multiset(reported) && |Groups(reported)| <= MAX_EVENTS
    requires !EmptyNameKept(reported, source)
    ensures |Pressure(Aggregated(reported), source).usernames| < |Pressure(events, source).usernames|
  {
    var p, q := Pressure(Aggregated(reported), source), Pressure(events, source);
    PressurePermutes(events, reported, source);
    AggregationExactIff(reported, source);
    BlindEqual(p, q);
    AggregateGrows(reported, source);
    assert "" in q.usernames && "" !in p.usernames;
    SubsetSize(p.usernames, q.usernames - {""});
  }

  /** A lost name shows: some thresholds raise a spray on the events and none on the aggregate. */
  lemma LostNameShows(agent: Uuid, events: seq<AuthEvent>, reported: seq<AuthEvent>, source: string, at: Time)
    requires multiset(events) == multiset(reported) && |Groups(reported)| <= MAX_EVENTS
    requires Pressure(events, source).failures > 0 && !EmptyNameKept(reported, source)
    ensures var policy := IntrusionPolicy(1, 1, |Pressure(events, source).usernames|, 1);
            AuthFindings(policy, agent, Aggregated(reported), at) != AuthFindings(policy, agent, events, at)
  {
    var policy := IntrusionPolicy(1, 1, |Pressure(events, source).usernames|, 1);
    var p, q := Pressure(Aggregated(reported), source), Pressure(events, source);
    NameLost(events, reported, source);
    ReportsExactly(policy, agent, events, at, Spray, source);
    ReportsExactly(policy, agent, Aggregated(reported), at, Spray, source);
  }

  /**
   What `aggregate` promises of any event list, in any order: under every policy the findings on the
   aggregate are the very same list as on the events, if and only if no failing source lost its empty
   user name to a group that began without one.
   */
  lemma AggregationDetectionIff(agent: Uuid, events: seq<AuthEvent>, reported: seq<AuthEvent>, at: Time)
    requires multiset(events) == multiset(reported) && |Groups(reported)| <= MAX_EVENTS
    ensures (forall policy: IntrusionPolicy | policy.Valid() ::
               AuthFindings(policy, agent, Aggregated(reported), at) == AuthFindings(policy, agent, events, at))
       <==> forall source: string | Pressure(events, source).failures > 0 :: EmptyNameKept(reported, source)
  {
    if source: string :| Pressure(events, source).failures > 0 && !EmptyNameKept(reported, source) {
      LostNameShows(agent, events, reported, source, at);
      assert IntrusionPolicy(1, 1, |Pressure(events, source).usernames|, 1).Valid();
    } else {
      forall policy: IntrusionPolicy
        ensures AuthFindings(policy, agent, Aggregated(reported), at) == AuthFindings(policy, agent, events, at)
      {
        AggregateFindings(policy, agent, events, reported, at);
      }
    }
  }

  /**
   However many groups there are, the aggregate never invents a finding nor makes one more severe:
   each of its findings is raised on the raw events too, under the same fingerprint.
   */
  lemma AggregationNeverInvents(policy: IntrusionPolicy, agent: Uuid, events: seq<AuthEvent>, at: Time)
    ensures forall c | c in AuthFindings(policy, agent, Aggregated(events), at) ::
              Kept(c, AuthFindings(policy, agent, events, at))
  {
    forall source: string ensures Grows(Pressure(Aggregated(events), source), Pressure(events, source)) {
      AggregateGrows(events, source);
    }
    forall c | c in AuthFindings(policy, agent, Aggregated(events), at)
      ensures Kept(c, AuthFindings(policy, agent, events, at))
    {
      FindingKept(policy, agent, Aggregated(events), events, at, c);
    }
  }

  lemma AggregateGrows(events: seq<AuthEvent>, source: string)
    ensures Grows(Pressure(Aggregated(events), source), Pressure(events, source))
  {
    var ranked, sent := Ranked(events), Aggregated(events);
    RankingPermutes(events);
    PressurePermutes(ranked, Grouped(events), source);
    GroupingKeepsPressure(events, source);
    assert ranked == sent + ranked[|sent|..];
    PressureConcat(sent, ranked[|sent|..], source);
    var p, q := Pressure(ranked, source), Pressure(events, source);
    assert Blind(p).failures == Blind(q).failures && Blind(p).successes == Blind(q).successes;
    assert Blind(p).services == Blind(q).services;
  }

  /** What is dropped beyond the limit is never busier than what is sent. */
  lemma TruncationKeepsBusiest(events: seq<AuthEvent>, kept: AuthEvent, dropped: AuthEvent)
    requires kept in Aggregated(events)
    requires dropped in Ranked(events)[|Aggregated(events)|..]
    ensures kept.count >= dropped.count
    ensures |Aggregated(events)| == Min(|Groups(events)|, MAX_EVENTS)
  {
    RankingPermutes(events);
    var ranked, n := Ranked(events), |Aggregated(events)|;
    var i :| 0 <= i < n && Aggregated(events)[i] == kept;
    var j :| 0 <= j < |ranked[n..]| && ranked[n..][j] == dropped;
    assert ranked[i] == kept && ranked[n + j] == dropped;
  }
}
