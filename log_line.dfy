/** `parseLogLine`: one line of the bot's log read as a timestamp, a level
    keyword and a message. */
module LogLine {
  import opened Wrappers
  import opened JsText

  /** A parsed line; `kind` is the lower-cased level keyword. The random
      `id` the source attaches is not modelled. */
  datatype LogEntry = LogEntry(kind: string, message: string, timestamp: string)

  /** The level keywords, in the order of the alternation. */
  const Levels: seq<string> := ["INFO", "ERROR", "WARNING", "DEBUG", "TRACE"]

  /** The values of `Log["type"]`. */
  const Kinds: seq<string> := ["info", "error", "warning", "debug", "trace"]

  // ------------------------------------------------------------ timestamp

  /** The fixed part `DDDD-DD-DDTDD:DD:DD.` of a timestamp, position by
      position. */
  predicate HeadCharOk(i: int, c: char)
  {
    if i == 4 || i == 7 then c == '-'
    else if i == 10 then c == 'T'
    else if i == 13 || i == 16 then c == ':'
    else if i == 19 then c == '.'
    else IsDigit(c)
  }

  predicate HeadShape(s: string)
  {
    |s| >= 20 && forall i :: 0 <= i < 20 ==> HeadCharOk(i, s[i])
  }

  /** `t` is a whole match of `\d{4}-\d{2}-\d{2}T\d{2}:\d{2}:\d{2}\.\d+Z`. */
  predicate IsTimestamp(t: string)
  {
    |t| >= 22 && HeadShape(t) && AllDigits(t[20..|t| - 1]) && t[|t| - 1] == 'Z'
  }

  /** The length of the timestamp that starts `line`, if one does. */
  function TimestampLength(line: string): (n: Option<nat>)
    ensures n.Some? ==> n.value <= |line| && IsTimestamp(line[..n.value])
  {
    if !HeadShape(line) then None
    else
      var k := DigitRun(line[20..]);
      if k >= 1 && 20 + k < |line| && line[20 + k] == 'Z' then
        assert line[..21 + k][20..20 + k] == line[20..][..k];
        Some(21 + k)
      else None
  }

  /** A line starts with at most one timestamp, and the lookup finds it
      whenever there is one. */
  lemma TimestampLengthSpec(line: string, m: int)
    requires 0 <= m <= |line| && IsTimestamp(line[..m])
    ensures TimestampLength(line) == Some(m)
  {
    var t := line[..m];
    assert HeadShape(line) by {
      assert forall i :: 0 <= i < 20 ==> t[i] == line[i];
    }
    var k := DigitRun(line[20..]);
    assert forall i :: 20 <= i < m - 1 ==> IsDigit(line[i]) by {
      assert forall i :: 20 <= i < m - 1 ==> t[20..m - 1][i - 20] == line[i];
    }
    assert forall i :: 20 <= i < 20 + k ==> IsDigit(line[i]) by {
      assert forall i :: 20 <= i < 20 + k ==> line[20..][..k][i - 20] == line[i];
    }
    assert 20 + k < |line| ==> !IsDigit(line[20 + k]) by {
      assert 20 + k < |line| ==> line[20..][k] == line[20 + k];
    }
    assert line[m - 1] == 'Z' by {
      assert t[m - 1] == line[m - 1];
    }
  }

  // --------------------------------------------------------------- level

  /** Length of the run of `*` that starts at position `i` of `s`. */
  function StarsFrom(s: string, i: nat): (n: nat)
    requires i <= |s|
    ensures i + n <= |s|
    ensures StarsBetween(s, i, i + n)
    ensures i + n < |s| ==> s[i + n] != '*'
    decreases |s| - i
  {
    if i < |s| && s[i] == '*' then 1 + StarsFrom(s, i + 1) else 0
  }

  /** Every position from `i` up to `j` holds `*`. */
  predicate StarsBetween(s: string, i: int, j: int)
  {
    forall x :: i <= x < j && 0 <= x < |s| ==> s[x] == '*'
  }

  /** `key` occurs in `s` at position `i`. */
  predicate KeyAt(key: string, s: string, i: nat)
  {
    i + |key| <= |s| && s[i..i + |key|] == key
  }

  /** The index of the first of `keys` that occurs at position `i`. */
  function FirstKeyAt(keys: seq<string>, s: string, i: nat): (r: Option<nat>)
    ensures r.Some? ==> r.value < |keys| && KeyAt(keys[r.value], s, i)
    ensures r.Some? ==> forall j :: 0 <= j < r.value ==> !KeyAt(keys[j], s, i)
    ensures r.None? ==> forall k :: 0 <= k < |keys| ==> !KeyAt(keys[k], s, i)
  {
    if keys == [] then None
    else if KeyAt(keys[0], s, i) then Some(0)
    else match FirstKeyAt(keys[1..], s, i)
      case None => None
      case Some(j) => Some(j + 1)
  }

  /** The match of `^\**(k0|k1|...)\**` at the start of `s`: the index of
      the keyword and the length of the whole match. */
  function KeywordMatch(keys: seq<string>, s: string): (r: Option<(nat, nat)>)
    ensures r.Some? ==> r.value.0 < |keys| && r.value.1 <= |s|
  {
    var a := StarsFrom(s, 0);
    match FirstKeyAt(keys, s, a)
    case None => None
    case Some(k) =>
      var e := a + |keys[k]|;
      Some((k, e + StarsFrom(s, e)))
  }

  /** Every keyword starts with a character other than `*`. */
  predicate StarFree(keys: seq<string>)
  {
    forall k :: 0 <= k < |keys| ==> keys[k] != [] && keys[k][0] != '*'
  }

  /** The asterisks before a keyword are exactly the leading run. */
  lemma StarsBeforeKeyword(keys: seq<string>, s: string, a: nat, k: nat)
    requires StarFree(keys)
    requires k < |keys| && StarsBetween(s, 0, a) && KeyAt(keys[k], s, a)
    ensures a == StarsFrom(s, 0)
  {
    assert s[a..a + |keys[k]|][0] == s[a];
  }

  /** The match fails exactly when no run of asterisks at the start of `s`
      is followed by a keyword. */
  lemma KeywordMatchNone(keys: seq<string>, s: string)
    requires StarFree(keys)
    ensures KeywordMatch(keys, s).None? <==>
      forall a: nat, k: nat :: k < |keys| && StarsBetween(s, 0, a) ==> !KeyAt(keys[k], s, a)
  {
    forall a: nat, k: nat | k < |keys| && StarsBetween(s, 0, a) && KeyAt(keys[k], s, a)
      ensures KeywordMatch(keys, s).Some?
    {
      StarsBeforeKeyword(keys, s, a, k);
    }
  }

  /** A match is the leading asterisks, the first keyword found after them,
      and then every asterisk that follows it. */
  lemma KeywordMatchSome(keys: seq<string>, s: string)
    requires KeywordMatch(keys, s).Some?
    ensures var k := KeywordMatch(keys, s).value.0;
      var len := KeywordMatch(keys, s).value.1;
      var a := StarsFrom(s, 0);
      && a + |keys[k]| <= len
      && StarsBetween(s, 0, a) && (a < |s| ==> s[a] != '*')
      && KeyAt(keys[k], s, a) && (forall j :: 0 <= j < k ==> !KeyAt(keys[j], s, a))
      && StarsBetween(s, a + |keys[k]|, len) && (len < |s| ==> s[len] != '*')
  {
  }

  /** A keyword followed by a colon matches with no asterisks, provided no
      earlier keyword shares its first character. */
  lemma KeywordBeforeColon(keys: seq<string>, k: nat, tail: string)
    requires StarFree(keys) && k < |keys|
    requires forall j :: 0 <= j < k ==> keys[j][0] != keys[k][0]
    requires tail != [] && tail[0] == ':'
    ensures KeywordMatch(keys, keys[k] + tail) == Some((k, |keys[k]|))
  {
    var s := keys[k] + tail;
    assert s[0] == keys[k][0];
    assert StarsFrom(s, 0) == 0;
    forall j | 0 <= j < k ensures !KeyAt(keys[j], s, 0) {
      assert keys[j][0] != s[0];
    }
    assert s[0..|keys[k]|] == keys[k];
    assert FirstKeyAt(keys, s, 0) == Some(k);
    assert s[|keys[k]|] == ':';
  }

  /** `^\**(INFO|ERROR|WARNING|DEBUG|TRACE)\**`. */
  function LevelMatch(s: string): (r: Option<(nat, nat)>)
    ensures r.Some? ==> r.value.0 < |Levels| && r.value.1 <= |s|
  {
    KeywordMatch(Levels, s)
  }

  /** The level keywords start with distinct letters. */
  lemma LevelsShape()
    ensures StarFree(Levels)
    ensures forall j, k :: 0 <= j < k < |Levels| ==> Levels[j][0] != Levels[k][0]
    ensures forall k :: 0 <= k < |Levels| ==> !IsSpace(Levels[k][0])
  {
  }

  // ------------------------------------------------------------- message

  /** The first `:` of `s`. */
  function ColonIndex(s: string): (r: Option<nat>)
    ensures r.Some? ==> r.value < |s| && s[r.value] == ':' && forall i :: 0 <= i < r.value ==> s[i] != ':'
    ensures r.None? <==> ':' !in s
  {
    if s == [] then None
    else if s[0] == ':' then Some(0)
    else match ColonIndex(s[1..])
      case None => None
      case Some(i) => Some(i + 1)
  }

  /** `replace(/^[^:]*:\s*\/, "")`: everything through the first colon and
      the white space after it goes; without a colon nothing does. */
  function DropLabel(s: string): (r: string)
    ensures ':' !in s ==> r == s
    ensures ':' in s ==> |r| < |s| && (r == [] || !IsSpace(r[0]))
    ensures ':' in s ==> exists c :: 0 <= c < |s| && s[c] == ':' && ':' !in s[..c] && r == TrimStart(s[c + 1..])
  {
    match ColonIndex(s)
    case None => s
    case Some(c) =>
      assert ':' !in s[..c];
      TrimStart(s[c + 1..])
  }

  /** A label without a colon goes, together with its colon and the white
      space after it, whatever the rest holds. */
  lemma DropLabelOfName(name: string, rest: string)
    requires ':' !in name
    ensures DropLabel(name + ":" + rest) == TrimStart(rest)
  {
    var s := name + ":" + rest;
    assert s[|name|] == ':';
    var c := ColonIndex(s).value;
    assert c == |name|;
    assert s[c + 1..] == rest;
  }

  /** The message after a name keeps its own colons: `[db]: a: b` reads as
      `a: b`. */
  lemma MessageAfterLabel(name: string, msg: string)
    requires ':' !in name && IsTrimmed(msg)
    ensures Trim(DropLabel(name + ": " + msg)) == msg
  {
    assert name + ": " + msg == name + ":" + (" " + msg);
    TrimStartOfSpaces(" ", msg);
    TrimmedIsFixed(msg);
    DropLabelOfName(name, " " + msg);
  }

  /** The message is what follows the first colon, trimmed; without a colon
      it is the whole (trimmed) text. */
  lemma MessageOfAfterLevel(t: string)
    requires IsTrimmed(t)
    ensures ':' !in t ==> Trim(DropLabel(t)) == t
    ensures ':' in t ==> exists c :: 0 <= c < |t| && t[c] == ':' && ':' !in t[..c] && Trim(DropLabel(t)) == Trim(t[c + 1..])
  {
    if ':' in t {
      var c := ColonIndex(t).value;
      assert ':' !in t[..c];
      TrimOfTrimStart(t[c + 1..]);
    } else {
      TrimmedIsFixed(t);
    }
  }

  // ---------------------------------------------------------------- parse

  function ParseLogLine(line: string): Option<LogEntry>
  {
    match TimestampLength(line)
    case None => None
    case Some(n) =>
      var timestamp := line[..n];
      var remaining := Trim(line[n..]);
      match LevelMatch(remaining)
      case None => None
      case Some((k, len)) =>
        var afterLevel := Trim(remaining[len..]);
        Some(LogEntry(Lower(Levels[k]), Trim(DropLabel(afterLevel)), timestamp))
  }

  lemma LowerLevel(k: nat)
    requires k < |Levels|
    ensures Lower(Levels[k]) == Kinds[k]
  {
    LowerLevels();
  }

  lemma LowerLevels()
    ensures forall k :: 0 <= k < |Levels| ==> Lower(Levels[k]) == Kinds[k]
  {
    assert Lower(Levels[0]) == Kinds[0];
    assert Lower(Levels[1]) == Kinds[1];
    assert Lower(Levels[2]) == Kinds[2];
    assert Lower(Levels[3]) == Kinds[3];
    assert Lower(Levels[4]) == Kinds[4];
  }

  /** What every parsed entry satisfies. */
  predicate WellFormed(e: LogEntry)
  {
    IsTimestamp(e.timestamp) && e.kind in Kinds && IsTrimmed(e.message)
  }

  /** A line parses exactly when it starts with a timestamp and the trimmed
      rest starts with a level; the entry's timestamp is that prefix of the
      line, its kind one of the five lower-case levels, and its message
      trimmed. */
  lemma ParseLogLineSpec(line: string)
    ensures (forall m :: 0 <= m <= |line| ==> !IsTimestamp(line[..m])) ==> ParseLogLine(line).None?
    ensures ParseLogLine(line).Some? <==>
      TimestampLength(line).Some? && LevelMatch(Trim(line[TimestampLength(line).value..])).Some?
    ensures ParseLogLine(line).Some? ==>
      var e := ParseLogLine(line).value;
      && WellFormed(e)
      && e.timestamp <= line
      && e.kind == Lower(Levels[LevelMatch(Trim(line[|e.timestamp|..])).value.0])
      && var remaining := Trim(line[|e.timestamp|..]);
         var afterLevel := Trim(remaining[LevelMatch(remaining).value.1..]);
         && (':' !in afterLevel ==> e.message == afterLevel)
         && (':' in afterLevel ==>
               exists c :: 0 <= c < |afterLevel| && afterLevel[c] == ':' && ':' !in afterLevel[..c]
                 && e.message == Trim(afterLevel[c + 1..]))
  {
    if TimestampLength(line).Some? {
      var n := TimestampLength(line).value;
      var remaining := Trim(line[n..]);
      if LevelMatch(remaining).Some? {
        var (k, len) := LevelMatch(remaining).value;
        ParseLogLineOf(line, n, k, len);
        MessageOfAfterLevel(Trim(remaining[len..]));
        LowerLevel(k);
        assert Kinds[k] in Kinds;
        assert line[..n] <= line;
      }
    }
  }

  /** Every parsed entry is well formed. */
  lemma ParsedIsWellFormed(line: string)
    ensures ParseLogLine(line).Some? ==> WellFormed(ParseLogLine(line).value)
  {
    ParseLogLineSpec(line);
  }

  // --------------------------------------------------------------- format

  function KindIndex(kind: string): (k: nat)
    requires kind in Kinds
    ensures k < |Kinds| && Kinds[k] == kind
  {
    if kind == Kinds[0] then 0
    else if kind == Kinds[1] then 1
    else if kind == Kinds[2] then 2
    else if kind == Kinds[3] then 3
    else 4
  }

  /** A log line in the bot's layout: timestamp, upper-case level, a colon
      and the message. */
  function FormatLogLine(e: LogEntry): string
    requires WellFormed(e)
  {
    LaidOut(e.timestamp, KindIndex(e.kind), e.message)
  }

  function LaidOut(ts: string, k: nat, msg: string): string
    requires k < |Levels|
  {
    ts + (" " + Levels[k] + ": " + msg)
  }

  lemma TimestampOfLine(ts: string, rest: string)
    requires IsTimestamp(ts)
    ensures TimestampLength(ts + rest) == Some(|ts|)
    ensures (ts + rest)[..|ts|] == ts && (ts + rest)[|ts|..] == rest
  {
    var line := ts + rest;
    assert line[..|ts|] == ts;
    TimestampLengthSpec(line, |ts|);
  }

  /** The text after the level in a formatted line: a colon, then the
      message after one space. */
  function Tail(msg: string): string
  {
    if msg == [] then ":" else ": " + msg
  }

  /** The trimmed rest of a formatted line is the keyword and its tail. */
  lemma RemainingOfFormat(level: string, msg: string)
    requires level != [] && !IsSpace(level[0]) && IsTrimmed(msg)
    ensures Trim(" " + level + ": " + msg) == level + Tail(msg)
  {
    var body := level + Tail(msg);
    assert body[0] == level[0];
    if msg == [] {
      assert " " + level + ": " + msg == " " + body + " ";
      TrimAroundTrimmed(" ", body, " ");
    } else {
      assert " " + level + ": " + msg == " " + body + "";
      assert body[|body| - 1] == msg[|msg| - 1];
      TrimAroundTrimmed(" ", body, "");
    }
  }

  /** Dropping the label of a text that starts with a colon leaves the
      rest without its leading white space. */
  lemma DropLabelOfColon(rest: string)
    ensures DropLabel(":" + rest) == TrimStart(rest)
  {
    var s := ":" + rest;
    assert ColonIndex(s) == Some(0);
    assert s[1..] == rest;
  }

  /** The tail is trimmed already. */
  lemma TailIsTrimmed(msg: string)
    requires IsTrimmed(msg)
    ensures IsTrimmed(Tail(msg))
  {
    var tail := Tail(msg);
    assert tail[0] == ':';
    if msg != [] {
      assert tail[|tail| - 1] == msg[|msg| - 1];
    }
  }

  /** Dropping the label of the tail leaves the message. */
  lemma DropLabelOfTail(msg: string)
    requires IsTrimmed(msg)
    ensures DropLabel(Tail(msg)) == msg
  {
    if msg == [] {
      assert Tail(msg) == ":" + "";
      DropLabelOfColon("");
    } else {
      assert Tail(msg) == ": " + msg;
      SpacedMessage(msg);
    }
  }

  /** A space before a message that does not start with white space is
      dropped with the label. */
  lemma SpacedMessage(msg: string)
    requires msg != [] && !IsSpace(msg[0])
    ensures DropLabel(": " + msg) == msg
  {
    assert ": " + msg == ":" + (" " + msg);
    DropLabelOfColon(" " + msg);
    TrimStartOfSpaces(" ", msg);
  }

  /** The tail reads back as the message. */
  lemma MessageOfTail(msg: string)
    requires IsTrimmed(msg)
    ensures Trim(DropLabel(Trim(Tail(msg)))) == msg
  {
    TailIsTrimmed(msg);
    TrimmedIsFixed(Tail(msg));
    DropLabelOfTail(msg);
    TrimmedIsFixed(msg);
  }

  /** The parse of a line whose timestamp and level have been found. */
  lemma ParseLogLineOf(line: string, n: nat, k: nat, len: nat)
    requires TimestampLength(line) == Some(n)
    requires LevelMatch(Trim(line[n..])) == Some((k, len))
    ensures ParseLogLine(line) == Some(LogEntry(Lower(Levels[k]), Trim(DropLabel(Trim(Trim(line[n..])[len..]))), line[..n]))
  {
  }

  /** A line laid out as timestamp, level keyword, colon and trimmed
      message parses back into those parts. */
  lemma ParseLaidOut(ts: string, k: nat, msg: string)
    requires IsTimestamp(ts) && k < |Levels| && IsTrimmed(msg)
    ensures ParseLogLine(LaidOut(ts, k, msg)) == Some(LogEntry(Lower(Levels[k]), msg, ts))
  {
    var level := Levels[k];
    var rest := " " + level + ": " + msg;
    var line := ts + rest;
    TimestampOfLine(ts, rest);
    LevelsShape();
    RemainingOfFormat(level, msg);
    var remaining := level + Tail(msg);
    KeywordBeforeColon(Levels, k, Tail(msg));
    assert remaining[|level|..] == Tail(msg);
    ParseLogLineOf(line, |ts|, k, |level|);
    MessageOfTail(msg);
  }

  /** Parsing a formatted line gives back the entry. */
  lemma ParseFormat(e: LogEntry)
    requires WellFormed(e)
    ensures ParseLogLine(FormatLogLine(e)) == Some(e)
  {
    var k := KindIndex(e.kind);
    ParseLaidOut(e.timestamp, k, e.message);
    LowerLevel(k);
  }

}
