/** What the server writes down about its own defence, over whole runs of the gate. */
module DefenseLog {
  import opened Wrappers
  import opened Defense
  import opened Auth
  import opened PerimeterRuns

  function Written(gate: Gate, table: Table, event: Event): seq<DefenseEvent>
    requires gate.Valid()
  {
    if event.Request? then Recorded(VerdictOf(gate, table, event).value, event.source) else []
  }

  /** The defence events a run records, oldest first. */
  function Log(gate: Gate, table: Table, events: seq<Event>): seq<DefenseEvent>
    requires gate.Valid()
    decreases |events|
  {
    if events == [] then []
    else Written(gate, table, events[0]) + Log(gate, Apply(gate, table, events[0]), events[1..])
  }

  /** How many requests of `source` got a verdict of some kind. */
  function Times(gate: Gate, table: Table, events: seq<Event>, source: IpAddr, kind: Verdict -> bool): nat
    requires gate.Valid()
    decreases |events|
  {
    if events == [] then 0
    else
      IsOf(VerdictFor(gate, table, events[0], source), kind)
      + Times(gate, Apply(gate, table, events[0]), events[1..], source, kind)
  }

  function IsOf(verdict: Option<Verdict>, kind: Verdict -> bool): nat {
    if verdict.Some? && kind(verdict.value) then 1 else 0
  }

  predicate IsRateLimit(v: Verdict) {
    v.Throttled? && v.decision.RateLimited?
  }

  predicate IsRejection(v: Verdict) {
    v.Unauthorized?
  }

  /** Refused while locked out, or the failure that locks. */
  predicate IsLockout(v: Verdict) {
    (v.Throttled? && v.decision.LockedOut?) || v == Unauthorized(true)
  }

  function Entries(log: seq<DefenseEvent>, reason: string, source: IpAddr): nat {
    if log == [] then 0
    else (if log[0] == DefenseEvent(reason, source) then 1 else 0) + Entries(log[1..], reason, source)
  }

  lemma {:induction false} EntriesConcat(a: seq<DefenseEvent>, b: seq<DefenseEvent>, reason: string, source: IpAddr)
    ensures Entries(a + b, reason, source) == Entries(a, reason, source) + Entries(b, reason, source)
  {
    if a == [] {
      assert a + b == b;
    } else {
      assert (a + b)[0] == a[0] && (a + b)[1..] == a[1..] + b;
      EntriesConcat(a[1..], b, reason, source);
    }
  }

  lemma EntriesOfOne(r: string, client: IpAddr, reason: string, source: IpAddr)
    ensures Entries([DefenseEvent(r, client)], reason, source) == if r == reason && client == source then 1 else 0
  {
    assert [DefenseEvent(r, client)][1..] == [];
  }

  lemma ReasonsDiffer()
    ensures "rate.limit" != "auth.lockout" && "rate.limit" != "auth.rejected" && "auth.lockout" != "auth.rejected"
  {
    assert |"rate.limit"| == 10 && |"auth.lockout"| == 12 && |"auth.rejected"| == 13;
  }

  lemma RecordedEntries(verdict: Verdict, client: IpAddr, source: IpAddr)
    ensures var log := Recorded(verdict, client);
            && Entries(log, "rate.limit", source) == (if client == source && IsRateLimit(verdict) then 1 else 0)
            && Entries(log, "auth.rejected", source) == (if client == source && IsRejection(verdict) then 1 else 0)
            && Entries(log, "auth.lockout", source) == (if client == source && IsLockout(verdict) then 1 else 0)
  {
    RecordedAs(verdict, client, "rate.limit", source);
    RecordedAs(verdict, client, "auth.rejected", source);
    RecordedAs(verdict, client, "auth.lockout", source);
    ReasonsDiffer();
  }

  lemma RecordedAs(verdict: Verdict, client: IpAddr, reason: string, source: IpAddr)
    ensures Entries(Recorded(verdict, client), reason, source)
         == if client != source then 0
            else if verdict.Throttled? then (if Reason(verdict.decision) == reason then 1 else 0)
            else if verdict.Unauthorized? then
              (if "auth.rejected" == reason then 1 else 0)
              + (if verdict.locks && "auth.lockout" == reason then 1 else 0)
            else 0
  {
    match verdict
    case Throttled(decision) => EntriesOfOne(Reason(decision), client, reason, source);
    case Unauthorized(locks) =>
      EntriesOfOne("auth.rejected", client, reason, source);
      EntriesOfOne("auth.lockout", client, reason, source);
      EntriesConcat([DefenseEvent("auth.lockout", client)], [DefenseEvent("auth.rejected", client)], reason, source);
    case Unprotected =>
    case Authorized =>
  }

  lemma WrittenEntries(gate: Gate, table: Table, event: Event, source: IpAddr)
    requires gate.Valid()
    ensures var log, verdict := Written(gate, table, event), VerdictFor(gate, table, event, source);
            && Entries(log, "rate.limit", source) == IsOf(verdict, IsRateLimit)
            && Entries(log, "auth.rejected", source) == IsOf(verdict, IsRejection)
            && Entries(log, "auth.lockout", source) == IsOf(verdict, IsLockout)
  {
    if event.Request? {
      RecordedEntries(VerdictOf(gate, table, event).value, event.source, source);
    }
  }

  /**
   The log accounts for the defence: per address, one "rate.limit" entry for each refusal for lack of
   tokens, one "auth.rejected" for each failed comparison, and one "auth.lockout" for each refusal
   while locked and for each failure that locks.
   */
  lemma {:induction false} LogAccounts(gate: Gate, table: Table, events: seq<Event>, source: IpAddr)
    requires gate.Valid()
    ensures var log := Log(gate, table, events);
            && Entries(log, "rate.limit", source) == Times(gate, table, events, source, IsRateLimit)
            && Entries(log, "auth.rejected", source) == Times(gate, table, events, source, IsRejection)
            && Entries(log, "auth.lockout", source) == Times(gate, table, events, source, IsLockout)
    decreases |events|
  {
    if events != [] {
      var own, rest := Written(gate, table, events[0]), Log(gate, Apply(gate, table, events[0]), events[1..]);
      LogAccounts(gate, Apply(gate, table, events[0]), events[1..], source);
      WrittenEntries(gate, table, events[0], source);
      EntriesConcat(own, rest, "rate.limit", source);
      EntriesConcat(own, rest, "auth.rejected", source);
      EntriesConcat(own, rest, "auth.lockout", source);
    }
  }

  /** The failure that locks writes its lockout first, then its rejection. */
  lemma LockoutWrittenFirst(gate: Gate, table: Table, event: Event)
    requires gate.Valid() && VerdictOf(gate, table, event) == Some(Unauthorized(true))
    ensures Log(gate, table, [event])
         == [DefenseEvent("auth.lockout", event.source), DefenseEvent("auth.rejected", event.source)]
  {
    assert [event][1..] == [];
    assert Log(gate, Apply(gate, table, event), []) == [];
  }
}
