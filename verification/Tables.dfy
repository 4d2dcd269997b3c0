/**
 The tables behind the control plane, and what each database method does to them.

 The audit trail is compared as a bag, because the rows an update visits come back from the
 database in no stated order.
 */
module Tables {
  import opened Wrappers
  import opened Models
  import opened Posture

  datatype Asset = Asset(firstSeen: Time, lastSeen: Time, postureScore: Option<nat>)

  /** The columns of an incident row, and the record stored beside them. */
  datatype Row = Row(
    id: nat, assetId: Uuid, severity: Severity, status: IncidentStatus, category: Category,
    firstSeen: Time, lastSeen: Time, record: Incident)

  datatype AuditEntry =
    | AutoResolved(id: nat, fingerprint: string)
    | StatusChanged(id: nat, actor: string, previous: IncidentStatus, status: IncidentStatus)

  type Incidents = map<string, Row>
  type Baselines = map<(Uuid, string), string>

  /** `issued` counts the identifiers handed out so far; no identifier is ever issued twice. */
  datatype Store = Store(
    assets: map<Uuid, Asset>, incidents: Incidents, baselines: Baselines,
    trail: multiset<AuditEntry>, issued: nat)

  const EMPTY: Store := Store(map[], map[], map[], multiset{}, 0)

  // ------------------------------------------------ assets

  function UpsertAsset(s: Store, agent: Uuid, now: Time): Store {
    var asset := if agent in s.assets then s.assets[agent].(lastSeen := now) else Asset(now, now, None);
    s.(assets := s.assets[agent := asset])
  }

  function StoreSample(s: Store, agent: Uuid, now: Time): Store {
    if agent in s.assets then s.(assets := s.assets[agent := s.assets[agent].(lastSeen := now)]) else s
  }

  function StorePosture(s: Store, agent: Uuid, score: nat): Store {
    if agent in s.assets then s.(assets := s.assets[agent := s.assets[agent].(postureScore := Some(score))]) else s
  }

  // ------------------------------------------------ incidents

  function IntoIncident(c: IncidentCandidate, at: Time, id: nat): Incident {
    Incident(id, c.fingerprint, c.assetId, c.severity, c.category, Open, at, at, 1, c.evidence, c.body)
  }

  /** The known incident, seen once more. */
  function SeenAgain(i: Incident, c: IncidentCandidate, at: Time): Incident {
    i.(lastSeen := at, occurrences := Min(i.occurrences + 1, U64_MAX), status := Open,
       severity := Worse(i.severity, c.severity), category := c.category, evidence := c.evidence, body := c.body)
  }

  /** Insert the row, or on a fingerprint conflict update only the columns the statement names. */
  function UpsertRow(existing: Option<Row>, c: IncidentCandidate, at: Time, id: nat): Row {
    match existing
    case None =>
      var i := IntoIncident(c, at, id);
      Row(i.id, i.assetId, i.severity, i.status, i.category, i.firstSeen, i.lastSeen, i)
    case Some(row) =>
      var i := SeenAgain(row.record, c, at);
      row.(severity := i.severity, status := i.status, category := i.category, lastSeen := i.lastSeen, record := i)
  }

  function RowAt(incidents: Incidents, fingerprint: string): Option<Row> {
    if fingerprint in incidents then Some(incidents[fingerprint]) else None
  }

  function UpsertIncident(s: Store, c: IncidentCandidate, at: Time): Store {
    var existing := RowAt(s.incidents, c.fingerprint);
    s.(incidents := s.incidents[c.fingerprint := UpsertRow(existing, c, at, s.issued)],
       issued := if existing.None? then s.issued + 1 else s.issued)
  }

  /** Whether an automatic resolution for `agent` closes this row. */
  predicate Closes(row: Row, fingerprint: string, agent: Uuid, categories: seq<Category>, stillPresent: set<string>) {
    && row.assetId == agent
    && row.status != Resolved
    && fingerprint !in stillPresent
    && row.record.category in categories
  }

  function ResolvedRow(row: Row): Row {
    row.(status := Resolved, record := row.record.(status := Resolved))
  }

  function ClosedAmong(incidents: Incidents, among: set<string>, agent: Uuid, categories: seq<Category>,
                       stillPresent: set<string>): set<string> {
    set f | f in among && f in incidents && Closes(incidents[f], f, agent, categories, stillPresent)
  }

  function CloseAll(incidents: Incidents, closed: set<string>): Incidents {
    map f | f in incidents :: if f in closed then ResolvedRow(incidents[f]) else incidents[f]
  }

  function Closures(incidents: Incidents, closed: set<string>): set<AuditEntry> {
    set f | f in closed && f in incidents :: AutoResolved(incidents[f].record.id, f)
  }

  function AutoResolve(s: Store, agent: Uuid, categories: seq<Category>, stillPresent: set<string>): Store {
    var closed := ClosedAmong(s.incidents, s.incidents.Keys, agent, categories, stillPresent);
    s.(incidents := CloseAll(s.incidents, closed),
       trail := s.trail + multiset(Closures(s.incidents, closed)))
  }

  ghost predicate HasId(incidents: Incidents, fingerprint: string, id: nat) {
    fingerprint in incidents && incidents[fingerprint].id == id
  }

  /** The fingerprint of the incident with a given identifier, if there is one. */
  ghost function FindId(incidents: Incidents, id: nat): Option<string> {
    if exists f :: HasId(incidents, f, id) then
      var f :| HasId(incidents, f, id);
      Some(f)
    else
      None
  }

  ghost predicate UniqueIds(incidents: Incidents) {
    forall f, g | f in incidents && g in incidents && incidents[f].id == incidents[g].id :: f == g
  }

  ghost function SetStatus(s: Store, id: nat, status: IncidentStatus, actor: string): Store {
    match FindId(s.incidents, id)
    case None => s
    case Some(f) =>
      var row := s.incidents[f];
      s.(incidents := s.incidents[f := row.(status := status, record := row.record.(status := status))],
         trail := s.trail + multiset{StatusChanged(id, actor, row.record.status, status)})
  }

  // ------------------------------------------------ file baselines

  function BaselineOf(baselines: Baselines, agent: Uuid): map<string, string> {
    map k | k in baselines && k.0 == agent :: k.1 := baselines[k]
  }

  function MoveBaseline(baselines: Baselines, agent: Uuid, files: seq<WatchedFile>): Baselines {
    if files == [] then baselines
    else
      var last := files[|files| - 1];
      MoveBaseline(baselines, agent, files[..|files| - 1])[(agent, last.path) := last.digest]
  }

  // ------------------------------------------------ summaries

  predicate InScope(row: Row, scope: Option<Uuid>) {
    scope.Some? ==> row.assetId == scope.value
  }

  /** The rows one line of the `GROUP BY category, severity` query counts. */
  function Group(incidents: Incidents, among: set<string>, scope: Option<Uuid>, c: Category, s: Severity): set<string> {
    set f | f in among && InGroup(incidents, scope, f, c, s)
  }

  predicate InGroup(incidents: Incidents, scope: Option<Uuid>, f: string, c: Category, s: Severity) {
    f in incidents && InScope(incidents[f], scope) && Counted(incidents[f], c, s)
  }

  predicate Counted(row: Row, c: Category, s: Severity) {
    row.status != Resolved && row.category == c && row.severity == s
  }

  function GroupedAmong(incidents: Incidents, among: set<string>, scope: Option<Uuid>): Counts {
    map c: Category, s: Severity | Group(incidents, among, scope, c, s) != {} ::
      (c, s) := Min(|Group(incidents, among, scope, c, s)|, U32_MAX)
  }

  function Grouped(incidents: Incidents, scope: Option<Uuid>): Counts {
    GroupedAmong(incidents, incidents.Keys, scope)
  }

  lemma KeyOfGroup(incidents: Incidents, scope: Option<Uuid>, c: Category, s: Severity)
    ensures (exists f :: f in incidents && InScope(incidents[f], scope) && incidents[f].status != Resolved
                         && (incidents[f].category, incidents[f].severity) == (c, s))
       <==> Group(incidents, incidents.Keys, scope, c, s) != {}
  {
    if f :| f in incidents && InScope(incidents[f], scope) && incidents[f].status != Resolved
            && (incidents[f].category, incidents[f].severity) == (c, s) {
      assert f in Group(incidents, incidents.Keys, scope, c, s);
    }
  }

  /** Open or acknowledged rows of a kind, of the scope's asset or of every asset. */
  function Pending(incidents: Incidents, scope: Option<Uuid>, c: Category, s: Severity): set<string> {
    set f | && f in incidents
            && (scope == None || Some(incidents[f].assetId) == scope)
            && (incidents[f].status == Open || incidents[f].status == Acknowledged)
            && incidents[f].category == c && incidents[f].severity == s
  }

  lemma GroupIsPending(incidents: Incidents, scope: Option<Uuid>, c: Category, s: Severity)
    ensures Group(incidents, incidents.Keys, scope, c, s) == Pending(incidents, scope, c, s)
  {
  }

  /** The grouped counts count the pending rows, as far as a counter reaches. */
  lemma GroupedCounts(incidents: Incidents, scope: Option<Uuid>, c: Category, s: Severity)
    ensures Count(Grouped(incidents, scope), c, s) == Min(|Pending(incidents, scope, c, s)|, U32_MAX)
    ensures (c, s) in Grouped(incidents, scope) <==> Pending(incidents, scope, c, s) != {}
  {
    GroupIsPending(incidents, scope, c, s);
  }

  lemma ClosedGrows(incidents: Incidents, done: set<string>, f: string, agent: Uuid, categories: seq<Category>,
                    stillPresent: set<string>)
    requires f in incidents && f !in done
    ensures var before := ClosedAmong(incidents, done, agent, categories, stillPresent);
            var after := ClosedAmong(incidents, done + {f}, agent, categories, stillPresent);
            if Closes(incidents[f], f, agent, categories, stillPresent) then
              && CloseAll(incidents, after) == CloseAll(incidents, before)[f := ResolvedRow(incidents[f])]
              && CloseAll(incidents, before)[f] == incidents[f]
              && multiset(Closures(incidents, after))
                 == multiset(Closures(incidents, before)) + multiset{AutoResolved(incidents[f].record.id, f)}
            else after == before
  {
    var before := ClosedAmong(incidents, done, agent, categories, stillPresent);
    var after := ClosedAmong(incidents, done + {f}, agent, categories, stillPresent);
    if Closes(incidents[f], f, agent, categories, stillPresent) {
      assert after == before + {f};
      var entry := AutoResolved(incidents[f].record.id, f);
      assert Closures(incidents, after) == Closures(incidents, before) + {entry};
      assert entry !in Closures(incidents, before);
    } else {
      assert after == before;
    }
  }

  // ------------------------------------------------ the summary refines the list

  /** The columns the queries read agree with the record stored beside them. */
  predicate Coherent(row: Row, fingerprint: string) {
    && row.record.fingerprint == fingerprint
    && row.id == row.record.id
    && row.assetId == row.record.assetId
    && row.severity == row.record.severity
    && row.status == row.record.status
    && row.category == row.record.category
    && row.firstSeen == row.record.firstSeen
    && row.lastSeen == row.record.lastSeen
  }

  ghost predicate AllCoherent(incidents: Incidents) {
    forall f | f in incidents :: Coherent(incidents[f], f)
  }

  /** `order` lists the fingerprints of a scope, each once, in whatever order the query returned them. */
  ghost predicate Lists(incidents: Incidents, scope: Option<Uuid>, order: seq<string>) {
    && (forall i, j | 0 <= i < j < |order| :: order[i] != order[j])
    && (forall f :: f in order <==> f in incidents && InScope(incidents[f], scope))
  }

  function Records(incidents: Incidents, order: seq<string>): seq<Incident>
    requires forall f | f in order :: f in incidents
  {
    seq(|order|, i requires 0 <= i < |order| => incidents[order[i]].record)
  }

  function Elements(order: seq<string>): set<string> {
    set f | f in order
  }

  lemma RecordsGrow(incidents: Incidents, past: seq<string>, f: string)
    requires f in incidents && forall g | g in past :: g in incidents
    ensures Records(incidents, past + [f]) == Records(incidents, past) + [incidents[f].record]
  {
  }

  lemma {:induction false} SummaryOfRecords(incidents: Incidents, scope: Option<Uuid>, order: seq<string>)
    requires AllCoherent(incidents)
    requires forall i, j | 0 <= i < j < |order| :: order[i] != order[j]
    requires forall f | f in order :: f in incidents && InScope(incidents[f], scope)
    ensures Summary(Records(incidents, order)) == GroupedAmong(incidents, Elements(order), scope)
  {
    var among := Elements(order);
    if order == [] {
      assert forall c, s :: Group(incidents, among, scope, c, s) == {};
    } else {
      var past, f := order[..|order| - 1], order[|order| - 1];
      var earlier := Elements(past);
      assert order == past + [f];
      assert among == earlier + {f};
      SummaryOfRecords(incidents, scope, past);
      RecordsGrow(incidents, past, f);
      GroupedGrows(incidents, earlier, scope, f);
    }
  }

  lemma GroupGrows(incidents: Incidents, among: set<string>, scope: Option<Uuid>, f: string, c: Category, s: Severity)
    requires f in incidents && f !in among && InScope(incidents[f], scope)
    ensures var before := Group(incidents, among, scope, c, s);
            var after := Group(incidents, among + {f}, scope, c, s);
            && (Counted(incidents[f], c, s) ==> after == before + {f} && f !in before)
            && (!Counted(incidents[f], c, s) ==> after == before)
  {
    var before, after := Group(incidents, among, scope, c, s), Group(incidents, among + {f}, scope, c, s);
    var grown := if InGroup(incidents, scope, f, c, s) then before + {f} else before;
    forall g ensures g in after <==> g in grown {
    }
    assert after == grown;
    assert f !in before;
  }

  lemma GroupedGrows(incidents: Incidents, among: set<string>, scope: Option<Uuid>, f: string)
    requires f in incidents && f !in among && InScope(incidents[f], scope)
    ensures var row := incidents[f];
            var counts := GroupedAmong(incidents, among, scope);
            GroupedAmong(incidents, among + {f}, scope)
            == if row.status != Resolved then Added(counts, row.category, row.severity, 1) else counts
  {
    var row := incidents[f];
    var before, after := GroupedAmong(incidents, among, scope), GroupedAmong(incidents, among + {f}, scope);
    var added := if row.status != Resolved then Added(before, row.category, row.severity, 1) else before;
    forall c: Category, s: Severity
      ensures (c, s) in after <==> (c, s) in added
      ensures (c, s) in after ==> after[(c, s)] == added[(c, s)]
    {
      GroupGrows(incidents, among, scope, f, c, s);
    }
    SameCounts(after, added);
  }

  lemma SameCounts(a: Counts, b: Counts)
    requires forall c: Category, s: Severity :: (c, s) in a <==> (c, s) in b
    requires forall c: Category, s: Severity | (c, s) in a :: a[(c, s)] == b[(c, s)]
    ensures a == b
  {
    forall k ensures k in a <==> k in b {
      assert k == (k.0, k.1);
    }
    forall k | k in a ensures a[k] == b[k] {
      assert k == (k.0, k.1);
    }
  }

  /**
   Counting in the database gives the same summary, and so the same posture, as loading every
   incident of the scope and adding them up one by one, however many there are.
   */
  lemma GroupedIsSummary(incidents: Incidents, scope: Option<Uuid>, order: seq<string>, uninspected: seq<string>)
    requires AllCoherent(incidents) && Lists(incidents, scope, order)
    ensures Summary(Records(incidents, order)) == Grouped(incidents, scope)
    ensures ScoreOf(Summary(Records(incidents, order)), uninspected) == ScoreOf(Grouped(incidents, scope), uninspected)
  {
    SummaryOfRecords(incidents, scope, order);
    var among := Elements(order);
    forall c: Category, s: Severity
      ensures Group(incidents, among, scope, c, s) == Group(incidents, incidents.Keys, scope, c, s)
    {
      WholeScope(incidents, scope, order, c, s);
    }
    SameCounts(GroupedAmong(incidents, among, scope), Grouped(incidents, scope));
  }

  lemma WholeScope(incidents: Incidents, scope: Option<Uuid>, order: seq<string>, c: Category, s: Severity)
    requires Lists(incidents, scope, order)
    ensures Group(incidents, Elements(order), scope, c, s) == Group(incidents, incidents.Keys, scope, c, s)
  {
  }
}
