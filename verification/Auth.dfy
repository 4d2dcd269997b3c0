/** How one request is admitted, throttled, refused or let in, and what each outcome leaves in the table. */
module Auth {
  import opened Wrappers
  import opened Defense

  datatype Gate = Gate(cfg: Config, expected: Option<string>) {
    predicate Valid() {
      cfg.Valid()
    }
  }

  datatype Verdict =
    | Throttled(decision: Decision)
    | Unprotected
    | Unauthorized(locks: bool)
    | Authorized

  datatype DefenseEvent = DefenseEvent(reason: string, source: IpAddr)

  /** Whether the request got past the perimeter, so that a request slot was consumed. */
  predicate Admitted(verdict: Verdict) {
    !verdict.Throttled?
  }

  function Reason(decision: Decision): string {
    match decision
    case Allow => "allow"
    case RateLimited(_) => "rate.limit"
    case LockedOut(_) => "auth.lockout"
  }

  /** The defence events persisted for one verdict. */
  function Recorded(verdict: Verdict, client: IpAddr): seq<DefenseEvent> {
    match verdict
    case Throttled(decision) => [DefenseEvent(Reason(decision), client)]
    case Unauthorized(true) => [DefenseEvent("auth.lockout", client), DefenseEvent("auth.rejected", client)]
    case Unauthorized(false) => [DefenseEvent("auth.rejected", client)]
    case Unprotected => []
    case Authorized => []
  }

  function GateEntry(gate: Gate, entry: Option<ClientState>, now: Instant, supplied: string): (ClientState, Verdict)
    requires gate.Valid()
  {
    var (checked, decision) := CheckEntry(gate.cfg, entry, now);
    if decision != Allow then (checked, Throttled(decision))
    else if gate.expected.None? then (checked, Unprotected)
    else if supplied == gate.expected.value then (SuccessEntry(checked), Authorized)
    else
      var (failed, locks) := FailureEntry(gate.cfg, Some(checked), now);
      (failed, Unauthorized(locks))
  }

  function GateTable(gate: Gate, table: Table, client: IpAddr, now: Instant, supplied: string, victim: Option<IpAddr>)
    : (Table, Verdict)
    requires gate.Valid()
  {
    var room := Evict(table, victim);
    var (state, verdict) := GateEntry(gate, Lookup(room, client), now, supplied);
    (room[client := state], verdict)
  }

  /** The gate is the composition of the perimeter's own steps on the table. */
  lemma GateComposes(gate: Gate, table: Table, client: IpAddr, now: Instant, supplied: string, victim: Option<IpAddr>)
    requires gate.Valid()
    ensures var (checked, decision) := CheckTable(gate.cfg, table, client, now, victim);
            GateTable(gate, table, client, now, supplied, victim) ==
            if decision != Allow then (checked, Throttled(decision))
            else if gate.expected.None? then (checked, Unprotected)
            else if supplied == gate.expected.value then (SuccessTable(checked, client), Authorized)
            else
              var (failed, locks) := FailureTable(gate.cfg, checked, client, now);
              (failed, Unauthorized(locks))
  {
    var room := Evict(table, victim);
    var checked := CheckEntry(gate.cfg, Lookup(room, client), now).0;
    var failed := FailureEntry(gate.cfg, Some(checked), now).0;
    assert room[client := checked][client := failed] == room[client := failed];
    assert room[client := checked][client := SuccessEntry(checked)] == room[client := SuccessEntry(checked)];
  }

  /** No oracle: a throttled request learns nothing from its credential, and neither does the table. */
  lemma ThrottlingIsBlind(gate: Gate, table: Table, client: IpAddr, now: Instant, one: string, other: string,
                          victim: Option<IpAddr>)
    requires gate.Valid()
    ensures GateTable(gate, table, client, now, one, victim).1.Throttled? ==>
              GateTable(gate, table, client, now, one, victim) == GateTable(gate, table, client, now, other, victim)
    ensures !GateTable(gate, table, client, now, one, victim).1.Throttled? && gate.expected.Some? ==>
              (GateTable(gate, table, client, now, one, victim).1 == Authorized <==> one == gate.expected.value)
    ensures !GateTable(gate, table, client, now, one, victim).1.Throttled? ==>
              (GateTable(gate, table, client, now, one, victim).1.Unprotected? <==> gate.expected.None?)
  {
  }

  class AppState {
    const perimeter: Perimeter
    const apiToken: Option<string>
    var defenseEvents: seq<DefenseEvent>

    constructor (perimeter: Perimeter, apiToken: Option<string>)
      ensures this.perimeter == perimeter && this.apiToken == apiToken && defenseEvents == []
    {
      this.perimeter, this.apiToken, this.defenseEvents := perimeter, apiToken, [];
    }

    method RecordDefense(reason: string, source: IpAddr)
      modifies this
      ensures defenseEvents == old(defenseEvents) + [DefenseEvent(reason, source)]
    {
      defenseEvents := defenseEvents + [DefenseEvent(reason, source)];
    }

    /** `bearer` is the token read from the request's headers, if there was one. */
    method RequireAuth(client: IpAddr, now: Instant, bearer: Option<string>)
      returns (verdict: Verdict, ghost victim: Option<IpAddr>)
      requires perimeter.Valid()
      modifies this, perimeter
      ensures perimeter.Valid()
      ensures VictimOk(old(perimeter.clients), client, victim)
      ensures (perimeter.clients, verdict)
           == GateTable(Gate(perimeter.cfg, apiToken), old(perimeter.clients), client, now,
                        if bearer.Some? then bearer.value else "", victim)
      ensures defenseEvents == old(defenseEvents) + Recorded(verdict, client)
    {
      var supplied := if bearer.Some? then bearer.value else "";
      var decision;
      decision, victim := perimeter.Check(client, now);
      GateComposes(Gate(perimeter.cfg, apiToken), old(perimeter.clients), client, now, supplied, victim);
      if decision != Allow {
        RecordDefense(Reason(decision), client);
        return Throttled(decision), victim;
      }
      if apiToken.None? {
        return Unprotected, victim;
      }
      if supplied != apiToken.value {
        var locks := perimeter.RecordFailure(client, now);
        if locks {
          RecordDefense("auth.lockout", client);
        }
        RecordDefense("auth.rejected", client);
        return Unauthorized(locks), victim;
      }
      perimeter.RecordSuccess(client);
      verdict := Authorized;
    }
  }
}
