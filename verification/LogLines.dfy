/** What the parsers read in a line, by where its markers and words stand. */
module LogLines {
  import opened Wrappers
  import opened Models
  import opened Intrusion
  import opened AuthParsing

  predicate At(text: string, pattern: string, i: nat) {
    i + |pattern| <= |text| && text[i..i + |pattern|] == pattern
  }

  predicate Contains(text: string, pattern: string) {
    exists i: nat | i <= |text| :: At(text, pattern, i)
  }

  lemma AtTail(text: string, pattern: string, i: nat)
    requires text != []
    ensures At(text, pattern, i + 1) <==> At(text[1..], pattern, i)
  {
    if i + 1 + |pattern| <= |text| {
      assert text[1..][i..i + |pattern|] == text[i + 1..i + 1 + |pattern|];
    }
  }

  /** `Find` is the first occurrence. */
  lemma {:induction false} FindExactly(text: string, pattern: string)
    ensures Find(text, pattern).Some? ==>
              && At(text, pattern, Find(text, pattern).value)
              && forall j: nat | j < Find(text, pattern).value :: !At(text, pattern, j)
    ensures Find(text, pattern).None? ==> forall j: nat :: !At(text, pattern, j)
  {
    if pattern <= text {
    } else if text != "" {
      FindExactly(text[1..], pattern);
      forall j: nat ensures At(text, pattern, j) ==> j > 0 && At(text[1..], pattern, j - 1) {
        if j > 0 {
          AtTail(text, pattern, j - 1);
        }
      }
      if Find(text, pattern).Some? {
        AtTail(text, pattern, Find(text[1..], pattern).value);
      }
    }
  }

  lemma FoundIffContains(text: string, pattern: string)
    ensures Find(text, pattern).Some? <==> Contains(text, pattern)
  {
    FindExactly(text, pattern);
  }

  lemma AfterIffContains(text: string, marker: string)
    ensures After(text, marker).Some? <==> Contains(text, marker)
  {
    FoundIffContains(text, marker);
  }

  /** `word` stands alone in `text` at `i`, ended by white space or by the text. */
  predicate WordAt(text: string, word: string, i: nat) {
    IsWord(word) && At(text, word, i) && (i + |word| == |text| || IsSpace(text[i + |word|]))
  }

  lemma {:induction false} LeadingWordReads(word: string, tail: string)
    requires forall c | c in word :: !IsSpace(c)
    requires tail == "" || IsSpace(tail[0])
    ensures LeadingWord(word + tail) == word
  {
    if word == "" {
      assert word + tail == tail;
    } else {
      assert (word + tail)[0] == word[0] && (word + tail)[1..] == word[1..] + tail;
      LeadingWordReads(word[1..], tail);
    }
  }

  lemma FirstWordReads(text: string, word: string)
    requires WordAt(text, word, 0)
    ensures FirstWord(text) == Some(word)
  {
    var tail := text[|word|..];
    assert text == word + tail;
    LeadingWordReads(word, tail);
    assert text[0] == word[0];
  }

  /** The first `marker` of the line is at `i`, and no other begins within the `length` characters after it. */
  predicate Marks(line: string, marker: string, i: nat, length: nat) {
    && At(line, marker, i)
    && (forall j: nat | j < i :: !At(line, marker, j))
    && (forall j: nat | i + |marker| <= j < i + |marker| + length :: !At(line, marker, j))
  }

  /** `word` stands right after the first `marker` of the line. */
  ghost predicate Follows(line: string, marker: string, word: string) {
    exists i: nat :: Marks(line, marker, i, |word|) && WordAt(line, word, i + |marker|)
  }

  lemma AtSuffix(line: string, pattern: string, from: nat, j: nat)
    requires from <= |line|
    ensures At(line[from..], pattern, j) <==> At(line, pattern, from + j)
  {
    if from + j + |pattern| <= |line| {
      assert line[from..][j..j + |pattern|] == line[from + j..from + j + |pattern|];
    }
  }

  lemma FirstIs(text: string, pattern: string, i: nat)
    requires At(text, pattern, i) && forall j: nat | j < i :: !At(text, pattern, j)
    ensures Find(text, pattern) == Some(i)
  {
    FindExactly(text, pattern);
  }

  lemma SecondIsLater(line: string, marker: string, from: nat, length: nat)
    requires from <= |line| && forall j: nat | from <= j < from + length :: !At(line, marker, j)
    ensures Find(line[from..], marker).Some? ==> length <= Find(line[from..], marker).value
  {
    FindExactly(line[from..], marker);
    if Find(line[from..], marker).Some? {
      AtSuffix(line, marker, from, Find(line[from..], marker).value);
    }
  }

  /** What follows the first marker is cut no sooner than the next one begins. */
  lemma AfterMark(line: string, marker: string, i: nat, length: nat) returns (n: nat)
    requires Marks(line, marker, i, length)
    ensures n <= |line| - (i + |marker|) && (length <= n || n == |line| - (i + |marker|))
    ensures After(line, marker) == Some(line[i + |marker|..][..n])
  {
    var from := i + |marker|;
    FirstIs(line, marker, i);
    SecondIsLater(line, marker, from, length);
    var second := Find(line[from..], marker);
    if second.Some? {
      n := second.value;
    } else {
      n := |line| - from;
      assert line[from..][..n] == line[from..];
    }
  }

  lemma WordKept(line: string, word: string, from: nat, n: nat, skip: nat)
    requires WordAt(line, word, from + skip) && n <= |line| - from
    requires skip + |word| <= n || n == |line| - from
    ensures skip <= n && WordAt(line[from..][..n][skip..], word, 0)
  {
    var rest := line[from..][..n];
    assert rest[skip..][..|word|] == line[from + skip..from + skip + |word|];
  }

  lemma WordRead(line: string, marker: string, i: nat, skip: nat, word: string)
    requires Marks(line, marker, i, skip + |word|) && WordAt(line, word, i + |marker| + skip)
    ensures var rest := After(line, marker);
            rest.Some? && skip <= |rest.value| && FirstWord(rest.value[skip..]) == Some(word)
  {
    var n := AfterMark(line, marker, i, skip + |word|);
    WordKept(line, word, i + |marker|, n, skip);
    FirstWordReads(line[i + |marker|..][..n][skip..], word);
  }

  /** The word after a marker is read as it stands, whatever precedes the marker and follows the word. */
  lemma WordAfterReads(line: string, marker: string, word: string)
    requires Follows(line, marker, word)
    ensures WordAfter(line, marker) == Some(word)
  {
    var i: nat :| Marks(line, marker, i, |word|) && WordAt(line, word, i + |marker|);
    WordRead(line, marker, i, 0, word);
    assert After(line, marker).value[0..] == After(line, marker).value;
  }

  // ------------------------------------------------ sshd

  predicate SaysFailure(line: string) {
    Contains(line, "Failed password for ") || Contains(line, "Invalid user ") || Contains(line, "Failed publickey for")
  }

  /** A line of sshd is an event iff it names an attempt and a source; a failure outweighs an acceptance. */
  lemma LineExactly(line: string, now: Time)
    ensures ParseLine(line, now).Some?
       <==> && Contains(line, "sshd")
            && (SaysFailure(line) || Contains(line, "Accepted "))
            && WordAfter(line, " from ").Some?
    ensures ParseLine(line, now).Some? ==>
              var e := ParseLine(line, now).value;
              && (e.outcome == Failure <==> SaysFailure(line))
              && Some(e.source) == WordAfter(line, " from ")
              && e.service == "sshd" && e.count == 1 && e.lastSeen == now
  {
    FoundIffContains(line, "sshd");
    FoundIffContains(line, "Failed publickey for");
    AfterIffContains(line, "Failed password for ");
    AfterIffContains(line, "Invalid user ");
    AfterIffContains(line, "Accepted ");
  }

  /** Whose password failed: the word after the marker, or after "invalid user " where that follows the marker. */
  lemma FailedPasswordRead(line: string, name: string, source: string, now: Time)
    requires Contains(line, "sshd") && Follows(line, " from ", source)
    requires Follows(line, "Failed password for ", name) && name != "invalid"
    ensures ParseLine(line, now) == Some(AuthEvent("sshd", source, Some(name), Failure, 1, now))
  {
    LineExactly(line, now);
    WordAfterReads(line, " from ", source);
    WordAfterReads(line, "Failed password for ", name);
    AfterIffContains(line, "Failed password for ");
    FoundIffContains(line, "sshd");
    NotInvalid(After(line, "Failed password for ").value, name);
  }

  lemma NotInvalid(rest: string, name: string)
    requires FirstWord(rest) == Some(name) && name != "invalid"
    ensures !("invalid user " <= rest)
  {
    if "invalid user " <= rest {
      assert rest[..7] == "invalid" && rest[7] == ' ';
      assert WordAt(rest, "invalid", 0);
      FirstWordReads(rest, "invalid");
    }
  }

  lemma InvalidSkipped(line: string, i: nat, name: string)
    requires Marks(line, "Failed password for ", i, 13 + |name|)
    requires At(line, "invalid user ", i + 20) && WordAt(line, name, i + 33)
    ensures var rest := After(line, "Failed password for ");
            rest.Some? && "invalid user " <= rest.value && FirstWord(rest.value[13..]) == Some(name)
  {
    WordRead(line, "Failed password for ", i, 13, name);
    var n := AfterMark(line, "Failed password for ", i, 13 + |name|);
    assert line[i + 20..][..n][..13] == line[i + 20..i + 33];
  }

  lemma FailedInvalidRead(line: string, i: nat, name: string, source: string, now: Time)
    requires Contains(line, "sshd") && Follows(line, " from ", source)
    requires Marks(line, "Failed password for ", i, 13 + |name|)
    requires At(line, "invalid user ", i + 20) && WordAt(line, name, i + 33)
    ensures ParseLine(line, now) == Some(AuthEvent("sshd", source, Some(name), Failure, 1, now))
  {
    WordAfterReads(line, " from ", source);
    FoundIffContains(line, "sshd");
    InvalidSkipped(line, i, name);
  }

  lemma InvalidUserRead(line: string, name: string, source: string, now: Time)
    requires Contains(line, "sshd") && Follows(line, " from ", source)
    requires !Contains(line, "Failed password for ") && Follows(line, "Invalid user ", name)
    ensures ParseLine(line, now) == Some(AuthEvent("sshd", source, Some(name), Failure, 1, now))
  {
    WordAfterReads(line, " from ", source);
    WordAfterReads(line, "Invalid user ", name);
    AfterIffContains(line, "Failed password for ");
    FoundIffContains(line, "sshd");
  }

  lemma FailedKeyRead(line: string, name: string, source: string, now: Time)
    requires Contains(line, "sshd") && Follows(line, " from ", source)
    requires !Contains(line, "Failed password for ") && !Contains(line, "Invalid user ")
    requires Follows(line, "Failed publickey for ", name)
    ensures ParseLine(line, now) == Some(AuthEvent("sshd", source, Some(name), Failure, 1, now))
  {
    WordAfterReads(line, " from ", source);
    WordAfterReads(line, "Failed publickey for ", name);
    AfterIffContains(line, "Failed password for ");
    AfterIffContains(line, "Invalid user ");
    FoundIffContains(line, "sshd");
    FoundIffContains(line, "Failed publickey for");
    AfterIffContains(line, "Failed publickey for ");
    assert "Failed publickey for" <= "Failed publickey for ";
    PrefixContained(line, "Failed publickey for ", "Failed publickey for");
  }

  lemma PrefixContained(line: string, long: string, short: string)
    requires Contains(line, long) && short <= long
    ensures Contains(line, short)
  {
    var i: nat :| i <= |line| && At(line, long, i);
    assert line[i..i + |short|] == line[i..i + |long|][..|short|];
    assert At(line, short, i);
  }

  /** Who was let in: the word after " for ", in what follows "Accepted ". */
  lemma AcceptedRead(line: string, name: string, source: string, now: Time)
    requires Contains(line, "sshd") && Follows(line, " from ", source)
    requires !SaysFailure(line) && After(line, "Accepted ").Some?
    requires Follows(After(line, "Accepted ").value, " for ", name)
    ensures ParseLine(line, now) == Some(AuthEvent("sshd", source, Some(name), Success, 1, now))
  {
    WordAfterReads(line, " from ", source);
    WordAfterReads(After(line, "Accepted ").value, " for ", name);
    AfterIffContains(line, "Failed password for ");
    AfterIffContains(line, "Invalid user ");
    FoundIffContains(line, "sshd");
    FoundIffContains(line, "Failed publickey for");
  }

  /** Every line counts, once and in place: reading a log in parts and joining the events is reading it whole. */
  lemma {:induction false} SshdEventsConcat(a: seq<string>, b: seq<string>, now: Time)
    ensures SshdEvents(a + b, now) == SshdEvents(a, now) + SshdEvents(b, now)
    ensures |b| == 1 ==> SshdEvents(b, now) == match ParseLine(b[0], now) case Some(e) => [e] case None => []
  {
    if b == [] {
      assert a + b == a;
    } else {
      var init := b[..|b| - 1];
      assert (a + b)[..|a + b| - 1] == a + init;
      SshdEventsConcat(a, init, now);
    }
  }

  // ------------------------------------------------ the Windows security log

  predicate AllOf(text: string, kind: char -> bool) {
    forall c | c in text :: kind(c)
  }

  lemma {:induction false} TrimStartReads(gap: string, text: string, drop: char -> bool)
    requires AllOf(gap, drop) && text != "" && !drop(text[0])
    ensures TrimStart(gap + text, drop) == text
  {
    if gap == "" {
      assert gap + text == text;
    } else {
      assert (gap + text)[0] == gap[0] && (gap + text)[1..] == gap[1..] + text;
      TrimStartReads(gap[1..], text, drop);
    }
  }

  lemma {:induction false} TrimEndReads(text: string, gap: string, drop: char -> bool)
    requires AllOf(gap, drop) && text != "" && !drop(text[|text| - 1])
    ensures TrimEnd(text + gap, drop) == text
  {
    if gap == "" {
      assert text + gap == text;
    } else {
      var n := |gap| - 1;
      assert (text + gap)[|text| + n] == gap[n] && (text + gap)[..|text| + n] == text + gap[..n];
      TrimEndReads(text, gap[..n], drop);
    }
  }

  /** Text that neither begins nor ends with white space. */
  predicate Tight(text: string) {
    text != "" && !IsSpace(text[0]) && !IsSpace(text[|text| - 1])
  }

  lemma TrimReads(before: string, text: string, after: string)
    requires AllOf(before, IsSpace) && AllOf(after, IsSpace) && Tight(text)
    ensures Trim(before + text + after) == text
  {
    assert before + text + after == before + (text + after);
    TrimStartReads(before, text + after, IsSpace);
    TrimEndReads(text, after, IsSpace);
  }

  /** A `field: value` line gives back its value, however it is indented, padded and ended. */
  lemma LineValueReads(indent: string, field: string, colons: string, pad: string, value: string, end: string)
    requires AllOf(indent, IsSpace) && AllOf(pad, IsSpace) && AllOf(end, IsSpace)
    requires Tight(field) && Tight(value) && AllOf(colons, c => c == ':') && (pad + value)[0] != ':'
    ensures LineValue(indent + field + colons + pad + value + end, field) == Some(value)
  {
    var line := field + colons + pad + value;
    assert indent + field + colons + pad + value + end == indent + line + end;
    assert line[|line| - 1] == value[|value| - 1];
    TrimReads(indent, line, end);
    var rest := colons + (pad + value);
    assert line[|field|..] == rest;
    TrimStartReads(colons, pad + value, c => c == ':');
    TrimReads(pad, value, "");
    assert pad + value + "" == pad + value;
  }

  /** The line says nothing of the field: it has none, or an empty one, or a dash. */
  predicate Quiet(line: string, field: string) {
    LineValue(line, field) in {None, Some(""), Some("-")}
  }

  /** `value` is what the last line of the block that says anything of the field says. */
  predicate SaysAt(block: seq<string>, field: string, value: string, i: int) {
    && 0 <= i < |block|
    && LineValue(block[i], field) == Some(value) && !Quiet(block[i], field)
    && forall j | i < j < |block| :: Quiet(block[j], field)
  }

  lemma LastLineDecides(block: seq<string>, field: string)
    requires block != []
    ensures var n := |block| - 1;
            if Quiet(block[n], field) then FieldValue(block, field) == FieldValue(block[..n], field)
            else FieldValue(block, field) == LineValue(block[n], field)
  {
  }

  lemma {:induction false} FieldValueNone(block: seq<string>, field: string)
    ensures FieldValue(block, field).None? <==> forall j | 0 <= j < |block| :: Quiet(block[j], field)
  {
    if block != [] {
      LastLineDecides(block, field);
      FieldValueNone(block[..|block| - 1], field);
    }
  }

  lemma SaysEarlier(block: seq<string>, field: string, value: string, i: int)
    requires block != [] && SaysAt(block[..|block| - 1], field, value, i) && Quiet(block[|block| - 1], field)
    ensures SaysAt(block, field, value, i)
  {
    assert forall j | 0 <= j < |block| - 1 :: block[..|block| - 1][j] == block[j];
  }

  lemma {:induction false} FieldValueExactly(block: seq<string>, field: string) returns (i: int)
    requires FieldValue(block, field).Some?
    ensures SaysAt(block, field, FieldValue(block, field).value, i)
  {
    LastLineDecides(block, field);
    i := |block| - 1;
    if Quiet(block[i], field) {
      i := FieldValueExactly(block[..i], field);
      SaysEarlier(block, field, FieldValue(block, field).value, i);
    }
  }

  /** A block is an event iff it says a network source other than the host itself. */
  lemma BlockExactly(block: seq<string>, outcome: AuthOutcome, now: Time)
    ensures var source := FieldValue(block, "Source Network Address");
            ParseBlock(block, outcome, now)
            == if source in {None, Some("127.0.0.1"), Some("::1")} then None
               else Some(AuthEvent("windows-logon", source.value, FieldValue(block, "Account Name"), outcome, 1, now))
  {
  }

  lemma {:induction false} WindowsEventsConcat(a: seq<seq<string>>, b: seq<seq<string>>, outcome: AuthOutcome,
                                               now: Time)
    ensures WindowsEvents(a + b, outcome, now) == WindowsEvents(a, outcome, now) + WindowsEvents(b, outcome, now)
    ensures |b| == 1 ==>
              WindowsEvents(b, outcome, now) == match ParseBlock(b[0], outcome, now) case Some(e) => [e] case None => []
  {
    if b == [] {
      assert a + b == a;
    } else {
      var init := b[..|b| - 1];
      assert (a + b)[..|a + b| - 1] == a + init;
      WindowsEventsConcat(a, init, outcome, now);
    }
  }
}
