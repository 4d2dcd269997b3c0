/** Persistence of assets, incidents, file baselines and the audit trail; each method is one atomic step. */
module Storage {
  import opened Wrappers
  import opened Models
  import opened Posture
  import opened Tables

  class Database {
    var assets: map<Uuid, Asset>
    var incidents: Incidents
    var baselines: Baselines
    var auditLog: seq<AuditEntry>
    var issued: nat

    ghost function Contents(): Store
      reads this
    {
      Store(assets, incidents, baselines, multiset(auditLog), issued)
    }

    constructor ()
      ensures Contents() == EMPTY && auditLog == []
    {
      assets, incidents, baselines, auditLog, issued := map[], map[], map[], [], 0;
    }

    method UpsertAsset(agent: Uuid, now: Time)
      modifies this
      ensures Contents() == Tables.UpsertAsset(old(Contents()), agent, now) && auditLog == old(auditLog)
    {
      if agent in assets {
        assets := assets[agent := assets[agent].(lastSeen := now)];
      } else {
        assets := assets[agent := Asset(now, now, None)];
      }
    }

    method StoreSample(agent: Uuid, now: Time)
      modifies this
      ensures Contents() == Tables.StoreSample(old(Contents()), agent, now) && auditLog == old(auditLog)
    {
      if agent in assets {
        assets := assets[agent := assets[agent].(lastSeen := now)];
      }
    }

    method StorePosture(agent: Uuid, score: nat)
      modifies this
      ensures Contents() == Tables.StorePosture(old(Contents()), agent, score) && auditLog == old(auditLog)
    {
      if agent in assets {
        assets := assets[agent := assets[agent].(postureScore := Some(score))];
      }
    }

    method UpsertIncident(c: IncidentCandidate, at: Time) returns (incident: Incident)
      modifies this
      ensures Contents() == Tables.UpsertIncident(old(Contents()), c, at) && auditLog == old(auditLog)
      ensures incident == incidents[c.fingerprint].record
    {
      if c.fingerprint in incidents {
        var row := incidents[c.fingerprint];
        incident := row.record;
        incident := incident.(lastSeen := at);
        incident := incident.(occurrences := Min(incident.occurrences + 1, U64_MAX));
        incident := incident.(status := Open);
        incident := incident.(severity := Worse(incident.severity, c.severity));
        incident := incident.(category := c.category, evidence := c.evidence, body := c.body);
        incidents := incidents[c.fingerprint := row.(severity := incident.severity, status := incident.status,
                                                     category := incident.category, lastSeen := incident.lastSeen,
                                                     record := incident)];
      } else {
        incident := IntoIncident(c, at, issued);
        issued := issued + 1;
        incidents := incidents[c.fingerprint :=
          Row(incident.id, incident.assetId, incident.severity, incident.status, incident.category,
              incident.firstSeen, incident.lastSeen, incident)];
      }
    }

    method Audit(entry: AuditEntry)
      modifies this`auditLog
      ensures auditLog == old(auditLog) + [entry]
    {
      auditLog := auditLog + [entry];
    }

    method AutoResolve(agent: Uuid, categories: seq<Category>, stillPresent: set<string>) returns (resolved: nat)
      modifies this
      ensures Contents() == Tables.AutoResolve(old(Contents()), agent, categories, stillPresent)
      ensures old(auditLog) <= auditLog && |auditLog| == |old(auditLog)| + resolved
    {
      ghost var before := incidents;
      var rows := set f | f in incidents && incidents[f].assetId == agent && incidents[f].status != Resolved;
      resolved := 0;
      ghost var done: set<string> := {};
      ghost var closed := ClosedAmong(before, done, agent, categories, stillPresent);
      assert closed == {} && CloseAll(before, {}) == before && Closures(before, {}) == {};
      while rows != {}
        invariant rows !! done
        invariant rows <= before.Keys && done <= before.Keys
        invariant forall f | f in before && f !in done && f !in rows ::
                    !Closes(before[f], f, agent, categories, stillPresent)
        invariant forall f | f in rows :: before[f].assetId == agent && before[f].status != Resolved
        invariant assets == old(assets) && baselines == old(baselines) && issued == old(issued)
        invariant closed == ClosedAmong(before, done, agent, categories, stillPresent)
        invariant incidents == CloseAll(before, closed)
        invariant old(auditLog) <= auditLog && |auditLog| == |old(auditLog)| + resolved
        invariant multiset(auditLog) == multiset(old(auditLog)) + multiset(Closures(before, closed))
        decreases rows
      {
        var f :| f in rows;
        rows := rows - {f};
        ClosedGrows(before, done, f, agent, categories, stillPresent);
        done := done + {f};
        closed := ClosedAmong(before, done, agent, categories, stillPresent);
        if f !in stillPresent {
          var incident := incidents[f].record;
          if incident.category in categories {
            incident := incident.(status := Resolved);
            incidents := incidents[f := incidents[f].(status := Resolved, record := incident)];
            Audit(AutoResolved(incident.id, f));
            resolved := resolved + 1;
          }
        }
      }
      assert closed == ClosedAmong(before, before.Keys, agent, categories, stillPresent);
    }

    method UpdateIncidentStatus(id: nat, status: IncidentStatus, actor: string) returns (updated: Option<Incident>)
      requires UniqueIds(incidents)
      modifies this
      ensures Contents() == SetStatus(old(Contents()), id, status, actor)
      ensures old(auditLog) <= auditLog
      ensures updated.Some? <==> FindId(old(incidents), id).Some?
      ensures updated.Some? ==> updated.value == incidents[FindId(old(incidents), id).value].record
    {
      if f :| f in incidents && incidents[f].id == id {
        assert HasId(incidents, f, id);
        var row := incidents[f];
        var incident := row.record;
        var previous := incident.status;
        incident := incident.(status := status);
        incidents := incidents[f := row.(status := status, record := incident)];
        Audit(StatusChanged(id, actor, previous, status));
        return Some(incident);
      }
      updated := None;
    }

    method FileBaseline(agent: Uuid) returns (baseline: map<string, string>)
      ensures baseline == BaselineOf(baselines, agent)
    {
      baseline := map k | k in baselines && k.0 == agent :: k.1 := baselines[k];
    }

    method UpdateFileBaseline(agent: Uuid, files: seq<WatchedFile>)
      modifies this
      ensures Contents() == old(Contents()).(baselines := MoveBaseline(old(baselines), agent, files))
      ensures auditLog == old(auditLog)
    {
      for i := 0 to |files|
        invariant Contents() == old(Contents()).(baselines := MoveBaseline(old(baselines), agent, files[..i]))
        invariant auditLog == old(auditLog)
      {
        assert files[..i + 1][..i] == files[..i];
        baselines := baselines[(agent, files[i].path) := files[i].digest];
      }
      assert files[..|files|] == files;
    }

    method OpenFindingCounts(scope: Option<Uuid>) returns (findings: FindingCounts)
      ensures fresh(findings) && findings.counts == Grouped(incidents, scope)
    {
      findings := new FindingCounts();
      var keys := set f | f in incidents && InScope(incidents[f], scope) && incidents[f].status != Resolved
                     :: (incidents[f].category, incidents[f].severity);
      assert forall c, s :: (c, s) in keys <==> Group(incidents, incidents.Keys, scope, c, s) != {} by {
        forall c, s ensures (c, s) in keys <==> Group(incidents, incidents.Keys, scope, c, s) != {} {
          KeyOfGroup(incidents, scope, c, s);
        }
      }
      ghost var all := keys;
      while keys != {}
        invariant keys <= all && fresh(findings)
        invariant forall c, s :: (c, s) in findings.counts <==> (c, s) in all - keys
        invariant forall c, s | (c, s) in findings.counts ::
                    findings.counts[(c, s)] == Min(|Group(incidents, incidents.Keys, scope, c, s)|, U32_MAX)
        decreases keys
      {
        var key :| key in keys;
        keys := keys - {key};
        var (category, severity) := key;
        var total := |Group(incidents, incidents.Keys, scope, category, severity)|;
        findings.Add(category, severity, Min(total, U32_MAX));
      }
      SameCounts(findings.counts, Grouped(incidents, scope));
    }

    /** The same summary for every asset, from one query grouped by asset, category and severity. */
    method OpenFindingsByAsset() returns (grouped: map<Uuid, Counts>)
      ensures forall asset: Uuid :: CountsOf(grouped, asset) == Grouped(incidents, Some(asset))
    {
      grouped := map[];
      var keys := set f | f in incidents && incidents[f].status != Resolved
                     :: (incidents[f].assetId, incidents[f].category, incidents[f].severity);
      forall asset: Uuid, c: Category, s: Severity
        ensures (asset, c, s) in keys <==> Group(incidents, incidents.Keys, Some(asset), c, s) != {}
      {
        KeyOfAssetGroup(incidents, asset, c, s);
      }
      ghost var all := keys;
      while keys != {}
        invariant keys <= all
        invariant forall asset: Uuid, c: Category, s: Severity ::
                    (c, s) in CountsOf(grouped, asset) <==> (asset, c, s) in all - keys
        invariant forall asset: Uuid, c: Category, s: Severity | (c, s) in CountsOf(grouped, asset) ::
                    CountsOf(grouped, asset)[(c, s)]
                    == Min(|Group(incidents, incidents.Keys, Some(asset), c, s)|, U32_MAX)
        decreases keys
      {
        var key :| key in keys;
        keys := keys - {key};
        var (asset, category, severity) := key;
        var total := |Group(incidents, incidents.Keys, Some(asset), category, severity)|;
        grouped := grouped[asset := Added(CountsOf(grouped, asset), category, severity, Min(total, U32_MAX))];
      }
      forall asset: Uuid ensures CountsOf(grouped, asset) == Grouped(incidents, Some(asset)) {
        SameCounts(CountsOf(grouped, asset), Grouped(incidents, Some(asset)));
      }
    }
  }

  function CountsOf(grouped: map<Uuid, Counts>, asset: Uuid): Counts {
    if asset in grouped then grouped[asset] else map[]
  }

  lemma KeyOfAssetGroup(incidents: Incidents, asset: Uuid, c: Category, s: Severity)
    ensures (exists f :: f in incidents && incidents[f].status != Resolved
                         && (incidents[f].assetId, incidents[f].category, incidents[f].severity) == (asset, c, s))
       <==> Group(incidents, incidents.Keys, Some(asset), c, s) != {}
  {
    if f :| f in incidents && incidents[f].status != Resolved
            && (incidents[f].assetId, incidents[f].category, incidents[f].severity) == (asset, c, s) {
      assert f in Group(incidents, incidents.Keys, Some(asset), c, s);
    }
  }
}
