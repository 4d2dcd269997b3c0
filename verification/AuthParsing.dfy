/** Where authentication events come from: the lines of sshd and the blocks of the Windows security log. */
module AuthParsing {
  import opened Wrappers
  import opened Models
  import opened Intrusion
  import opened AuthLog

  // ------------------------------------------------ text

  /** Unicode's White_Space property. */
  predicate IsSpace(c: char) {
    || '\t' <= c <= '\r' || c == ' ' || c == '\U{85}' || c == '\U{A0}' || c == '\U{1680}'
    || '\U{2000}' <= c <= '\U{200A}' || c == '\U{2028}' || c == '\U{2029}' || c == '\U{202F}'
    || c == '\U{205F}' || c == '\U{3000}'
  }

  predicate IsWord(text: string) {
    text != "" && forall c | c in text :: !IsSpace(c)
  }

  function Find(text: string, pattern: string): (at: Option<nat>)
    ensures at.Some? ==> at.value + |pattern| <= |text|
  {
    if pattern <= text then Some(0)
    else if text == "" then None
    else
      var rest := Find(text[1..], pattern);
      if rest.Some? then Some(rest.value + 1) else None
  }

  /** The second piece of `text` split at `marker`. */
  function After(text: string, marker: string): Option<string> {
    var first := Find(text, marker);
    if first.None? then None
    else
      var rest := text[first.value + |marker|..];
      var second := Find(rest, marker);
      Some(if second.Some? then rest[..second.value] else rest)
  }

  function LeadingWord(text: string): string {
    if text == "" || IsSpace(text[0]) then "" else [text[0]] + LeadingWord(text[1..])
  }

  /** The first piece of `text` split at white space. */
  function FirstWord(text: string): Option<string> {
    if text == "" then None
    else if IsSpace(text[0]) then FirstWord(text[1..])
    else Some(LeadingWord(text))
  }

  function WordAfter(text: string, marker: string): Option<string> {
    var rest := After(text, marker);
    if rest.Some? then FirstWord(rest.value) else None
  }

  function TrimStart(text: string, drop: char -> bool): string {
    if text != "" && drop(text[0]) then TrimStart(text[1..], drop) else text
  }

  function TrimEnd(text: string, drop: char -> bool): string {
    if text != "" && drop(text[|text| - 1]) then TrimEnd(text[..|text| - 1], drop) else text
  }

  function Trim(text: string): string {
    TrimEnd(TrimStart(text, IsSpace), IsSpace)
  }

  // ------------------------------------------------ sshd

  /** What a line says of an attempt, and of whom; `None` for a line that is no attempt. */
  function Attempt(line: string): Option<(AuthOutcome, Option<string>)> {
    var failed := After(line, "Failed password for ");
    var accepted := After(line, "Accepted ");
    if failed.Some? then
      var rest := failed.value;
      var invalid := "invalid user ";
      Some((Failure, FirstWord(if invalid <= rest then rest[|invalid|..] else rest)))
    else if After(line, "Invalid user ").Some? then
      Some((Failure, WordAfter(line, "Invalid user ")))
    else if Find(line, "Failed publickey for").Some? then
      Some((Failure, WordAfter(line, "Failed publickey for ")))
    else if accepted.Some? then
      Some((Success, WordAfter(accepted.value, " for ")))
    else
      None
  }

  function ParseLine(line: string, now: Time): Option<AuthEvent> {
    var attempt := Attempt(line);
    var source := WordAfter(line, " from ");
    if Find(line, "sshd").None? || attempt.None? || source.None? then None
    else Some(AuthEvent("sshd", source.value, attempt.value.1, attempt.value.0, 1, now))
  }

  function SshdEvents(lines: seq<string>, now: Time): seq<AuthEvent> {
    if lines == [] then []
    else
      var event := ParseLine(lines[|lines| - 1], now);
      SshdEvents(lines[..|lines| - 1], now) + if event.Some? then [event.value] else []
  }

  method ParseSshdLog(lines: seq<string>, now: Time) returns (result: seq<AuthEvent>)
    ensures result == Aggregated(SshdEvents(lines, now))
  {
    var events: seq<AuthEvent> := [];
    for i := 0 to |lines|
      invariant events == SshdEvents(lines[..i], now)
    {
      assert lines[..i + 1][..i] == lines[..i];
      var event := ParseLine(lines[i], now);
      if event.Some? {
        events := events + [event.value];
      }
    }
    assert lines[..|lines|] == lines;
    result := Aggregate(events);
  }

  // ------------------------------------------------ the Windows security log

  /** The value on a line of the form `field: value`. */
  function LineValue(line: string, field: string): Option<string> {
    var text := Trim(line);
    if field <= text then Some(Trim(TrimStart(text[|field|..], c => c == ':'))) else None
  }

  /** The last value of `field` in a block that says anything. */
  function FieldValue(block: seq<string>, field: string): Option<string> {
    if block == [] then None
    else
      var value := LineValue(block[|block| - 1], field);
      if value.Some? && value.value != "" && value.value != "-" then value
      else FieldValue(block[..|block| - 1], field)
  }

  /** A logon without a network source, or from the host itself, is no event. */
  function ParseBlock(block: seq<string>, outcome: AuthOutcome, now: Time): Option<AuthEvent> {
    var source := FieldValue(block, "Source Network Address");
    if source.None? || source.value == "127.0.0.1" || source.value == "::1" then None
    else Some(AuthEvent("windows-logon", source.value, FieldValue(block, "Account Name"), outcome, 1, now))
  }

  function WindowsEvents(blocks: seq<seq<string>>, outcome: AuthOutcome, now: Time): seq<AuthEvent> {
    if blocks == [] then []
    else
      var event := ParseBlock(blocks[|blocks| - 1], outcome, now);
      WindowsEvents(blocks[..|blocks| - 1], outcome, now) + if event.Some? then [event.value] else []
  }

  method ParseWindowsSecurityLog(blocks: seq<seq<string>>, outcome: AuthOutcome, now: Time)
    returns (events: seq<AuthEvent>)
    ensures events == WindowsEvents(blocks, outcome, now)
  {
    events := [];
    for i := 0 to |blocks|
      invariant events == WindowsEvents(blocks[..i], outcome, now)
    {
      assert blocks[..i + 1][..i] == blocks[..i];
      var event := ParseBlock(blocks[i], outcome, now);
      if event.Some? {
        events := events + [event.value];
      }
    }
    assert blocks[..|blocks|] == blocks;
  }

  /** `failed` and `granted` are what the two queries returned, nothing for a query that failed. */
  method CollectWindows(failed: seq<seq<string>>, granted: seq<seq<string>>, now: Time)
    returns (result: seq<AuthEvent>)
    ensures result == Aggregated(WindowsEvents(failed, Failure, now) + WindowsEvents(granted, Success, now))
  {
    var failures := ParseWindowsSecurityLog(failed, Failure, now);
    var successes := ParseWindowsSecurityLog(granted, Success, now);
    result := Aggregate(failures + successes);
  }

  // ------------------------------------------------ what the parsers never emit

  lemma {:induction false} LeadingWordIsWord(text: string)
    requires text != "" && !IsSpace(text[0])
    ensures IsWord(LeadingWord(text))
  {
    if |text| > 1 && !IsSpace(text[1]) {
      LeadingWordIsWord(text[1..]);
    } else {
      assert LeadingWord(text[1..]) == "";
    }
  }

  lemma {:induction false} FirstWordIsWord(text: string)
    ensures FirstWord(text).Some? ==> IsWord(FirstWord(text).value)
    ensures FirstWord(text).None? <==> forall c | c in text :: IsSpace(c)
  {
    if text != "" {
      assert text == [text[0]] + text[1..];
      if IsSpace(text[0]) {
        FirstWordIsWord(text[1..]);
      } else {
        LeadingWordIsWord(text);
      }
    }
  }

  predicate WordOrNone(name: Option<string>) {
    name.Some? ==> IsWord(name.value)
  }

  lemma WordAfterIsWord(text: string, marker: string)
    ensures WordOrNone(WordAfter(text, marker))
  {
    if After(text, marker).Some? {
      FirstWordIsWord(After(text, marker).value);
    }
  }

  lemma AttemptNames(line: string)
    ensures Attempt(line).Some? ==> WordOrNone(Attempt(line).value.1)
  {
    var failed, accepted := After(line, "Failed password for "), After(line, "Accepted ");
    WordAfterIsWord(line, "Invalid user ");
    WordAfterIsWord(line, "Failed publickey for ");
    if failed.Some? {
      var invalid := "invalid user ";
      FirstWordIsWord(if invalid <= failed.value then failed.value[|invalid|..] else failed.value);
    }
    if accepted.Some? {
      WordAfterIsWord(accepted.value, " for ");
    }
  }

  /** No raw line leaves the host: an sshd event carries single words, one occurrence and the cycle's instant. */
  lemma {:induction false} SshdEventsAreWords(lines: seq<string>, now: Time)
    ensures forall e | e in SshdEvents(lines, now) ::
              && IsWord(e.source) && WordOrNone(e.username)
              && e.service == "sshd" && e.count == 1 && e.lastSeen == now
  {
    if lines != [] {
      SshdEventsAreWords(lines[..|lines| - 1], now);
      AttemptNames(lines[|lines| - 1]);
      WordAfterIsWord(lines[|lines| - 1], " from ");
    }
  }

  lemma {:induction false} FieldValueSays(block: seq<string>, field: string)
    ensures FieldValue(block, field) != Some("") && FieldValue(block, field) != Some("-")
  {
    if block != [] {
      FieldValueSays(block[..|block| - 1], field);
    }
  }

  lemma {:induction false} WindowsEventsAreRemote(blocks: seq<seq<string>>, outcome: AuthOutcome, now: Time)
    ensures forall e | e in WindowsEvents(blocks, outcome, now) ::
              && e.username != Some("") && e.username != Some("-")
              && e.source !in {"", "-", "127.0.0.1", "::1"}
              && e.outcome == outcome && e.count == 1 && e.lastSeen == now
  {
    if blocks != [] {
      WindowsEventsAreRemote(blocks[..|blocks| - 1], outcome, now);
      FieldValueSays(blocks[|blocks| - 1], "Source Network Address");
      FieldValueSays(blocks[|blocks| - 1], "Account Name");
    }
  }

  /** An event list that reaches `aggregate` in the agent. */
  ghost predicate ParsedEvents(events: seq<AuthEvent>) {
    || (exists lines, now :: events == SshdEvents(lines, now))
    || (exists failed, granted, now ::
          events == WindowsEvents(failed, Failure, now) + WindowsEvents(granted, Success, now))
  }

  lemma ParsedNamesAreNotEmpty(events: seq<AuthEvent>)
    requires ParsedEvents(events)
    ensures forall e | e in events :: e.username != Some("")
  {
    if lines, now :| events == SshdEvents(lines, now) {
      SshdEventsAreWords(lines, now);
    } else {
      var failed, granted, now :|
        events == WindowsEvents(failed, Failure, now) + WindowsEvents(granted, Success, now);
      WindowsEventsAreRemote(failed, Failure, now);
      WindowsEventsAreRemote(granted, Success, now);
    }
  }

  /**
   Aggregating before shipping changes no conclusion: of whatever the agent reads, in whatever order,
   the detector raises the very same findings on the aggregate as on the events.
   */
  lemma AggregationPreservesDetection(policy: IntrusionPolicy, agent: Uuid, events: seq<AuthEvent>,
                                      reported: seq<AuthEvent>, at: Time)
    requires ParsedEvents(events) && multiset(events) == multiset(reported)
    requires |Groups(reported)| <= MAX_EVENTS
    ensures AuthFindings(policy, agent, Aggregated(reported), at) == AuthFindings(policy, agent, events, at)
  {
    ParsedNamesAreNotEmpty(events);
    forall e | e in reported ensures e.username != Some("") {
      assert e in multiset(events);
    }
    AggregateFindings(policy, agent, events, reported, at);
  }
}
