/** The log endpoint: each line of the log file is searched for
    `\[(.*?)\] (\w+): (.*)`, kept when its level passes the `level` query
    parameter, and collected until `limit` entries are found; the entries
    are returned newest first. */
module LogEndpoint {
  import opened Wrappers
  import opened JsText

  // -------------------------------------------------------------- matching

  /** The characters `.` matches: everything but a line terminator. */
  predicate IsDot(c: char)
  {
    c != '\n' && c != '\r' && c != '\U{2028}' && c != '\U{2029}'
  }

  predicate DotsBetween(line: string, i: int, j: int)
  {
    forall x :: i <= x < j && 0 <= x < |line| ==> IsDot(line[x])
  }

  /** Length of the run of characters `.` matches, from position `i`. */
  function DotsFrom(line: string, i: nat): (n: nat)
    requires i <= |line|
    ensures i + n <= |line| && DotsBetween(line, i, i + n)
    ensures i + n < |line| ==> !IsDot(line[i + n])
    decreases |line| - i
  {
    if i < |line| && IsDot(line[i]) then 1 + DotsFrom(line, i + 1) else 0
  }

  /** Length of the run of word characters from position `i`. */
  function WordsFrom(line: string, i: nat): (n: nat)
    requires i <= |line|
    ensures i + n <= |line| && forall x :: i <= x < i + n ==> IsWordChar(line[x])
    ensures i + n < |line| ==> !IsWordChar(line[i + n])
    decreases |line| - i
  {
    if i < |line| && IsWordChar(line[i]) then 1 + WordsFrom(line, i + 1) else 0
  }

  /** The level and message when `\] (\w+): (.*)` matches at position `j`.
      The word run is taken whole, since a shorter one would leave a word
      character where the colon must be. */
  function CloseAt(line: string, j: nat): (r: Option<(string, string)>)
    ensures r.Some? ==> j + 1 < |line| && line[j] == ']' && line[j + 1] == ' ' && r.value.0 != []
  {
    if j + 1 < |line| && line[j] == ']' && line[j + 1] == ' ' then
      var w := WordsFrom(line, j + 2);
      var c := j + 2 + w;
      if w >= 1 && c + 1 < |line| && line[c] == ':' && line[c + 1] == ' ' then
        var m := DotsFrom(line, c + 2);
        Some((line[j + 2..c], line[c + 2..c + 2 + m]))
      else None
    else None
  }

  /** The whole pattern matches with `[` at `p` and `]` at `j`. */
  predicate MatchesAt(line: string, p: int, j: int)
  {
    0 <= p < j <= |line| && line[p] == '[' && DotsBetween(line, p + 1, j) && CloseAt(line, j).Some?
  }

  /** The lazy `(.*?)`: the first closing position from `j` on. */
  function LazyClose(line: string, j: nat): Option<nat>
    requires j <= |line|
    decreases |line| - j
  {
    if CloseAt(line, j).Some? then Some(j)
    else if j < |line| && IsDot(line[j]) then LazyClose(line, j + 1)
    else None
  }

  /** The search for the pattern from position `p` on: the first `[` from
      which the rest matches. */
  function MatchFrom(line: string, p: nat): Option<(nat, nat)>
    requires p <= |line|
    decreases |line| - p
  {
    if p == |line| then None
    else if line[p] == '[' && LazyClose(line, p + 1).Some? then Some((p, LazyClose(line, p + 1).value))
    else MatchFrom(line, p + 1)
  }

  /** The captures of a matching line. */
  datatype LineMatch = LineMatch(timestamp: string, level: string, message: string)

  /** `line.match(/\[(.*?)\] (\w+): (.*)/)`. */
  function MatchLine(line: string): Option<LineMatch>
  {
    match MatchFrom(line, 0)
    case None => None
    case Some((p, j)) =>
      if p < j && CloseAt(line, j).Some? then
        var (level, message) := CloseAt(line, j).value;
        Some(LineMatch(line[p + 1..j], level, message))
      else None
  }

  /** The lazy scan stops at the nearest closing position reachable over
      characters `.` matches. */
  lemma {:induction false} LazyCloseSpec(line: string, j0: nat)
    requires j0 <= |line|
    ensures LazyClose(line, j0).None? <==>
      forall j :: j0 <= j <= |line| && DotsBetween(line, j0, j) ==> CloseAt(line, j).None?
    ensures LazyClose(line, j0).Some? ==>
      var j := LazyClose(line, j0).value;
      && j0 <= j <= |line| && DotsBetween(line, j0, j) && CloseAt(line, j).Some?
      && forall j' :: j0 <= j' < j ==> CloseAt(line, j').None?
    decreases |line| - j0
  {
    assert forall j :: j0 < j <= |line| && DotsBetween(line, j0, j) ==> j0 < |line| && IsDot(line[j0]);
    if CloseAt(line, j0).None? && j0 < |line| && IsDot(line[j0]) {
      LazyCloseSpec(line, j0 + 1);
      assert LazyClose(line, j0) == LazyClose(line, j0 + 1);
      forall j | j0 + 1 <= j <= |line|
        ensures DotsBetween(line, j0, j) <==> DotsBetween(line, j0 + 1, j)
      {
      }
    }
  }

  /** No match starts at `p` when the scan from `p` fails. */
  lemma NoMatchAt(line: string, p: nat)
    requires p < |line| && !(line[p] == '[' && LazyClose(line, p + 1).Some?)
    ensures forall j :: !MatchesAt(line, p, j)
  {
    LazyCloseSpec(line, p + 1);
  }

  /** When the scan from `p` succeeds, it finds the nearest closing
      position of a match at `p`. */
  lemma FirstMatchAt(line: string, p: nat)
    requires p < |line| && line[p] == '[' && LazyClose(line, p + 1).Some?
    ensures MatchesAt(line, p, LazyClose(line, p + 1).value)
    ensures forall j :: MatchesAt(line, p, j) ==> LazyClose(line, p + 1).value <= j
  {
    LazyCloseSpec(line, p + 1);
  }

  /** The search returns the leftmost `[` from which the pattern matches,
      closed at the nearest possible `]`. */
  lemma {:induction false} MatchFromSpec(line: string, p0: nat)
    requires p0 <= |line|
    ensures MatchFrom(line, p0).None? <==> forall p, j :: p0 <= p ==> !MatchesAt(line, p, j)
    ensures MatchFrom(line, p0).Some? ==>
      var (p, j) := MatchFrom(line, p0).value;
      && p0 <= p && MatchesAt(line, p, j)
      && forall p', j' :: p0 <= p' && MatchesAt(line, p', j') ==> p < p' || (p == p' && j <= j')
    decreases |line| - p0
  {
    if p0 < |line| {
      if line[p0] == '[' && LazyClose(line, p0 + 1).Some? {
        FirstMatchAt(line, p0);
      } else {
        NoMatchAt(line, p0);
        MatchFromSpec(line, p0 + 1);
        assert MatchFrom(line, p0) == MatchFrom(line, p0 + 1);
        assert forall p, j :: p0 <= p && MatchesAt(line, p, j) ==> p0 + 1 <= p;
      }
    }
  }

  /** A line matches exactly when the pattern occurs in it; the captures
      are those of the leftmost occurrence with the shortest first group. */
  lemma MatchLineSpec(line: string)
    ensures MatchLine(line).None? <==> forall p, j :: !MatchesAt(line, p, j)
    ensures MatchLine(line).Some? ==> exists p, j ::
      && MatchesAt(line, p, j)
      && (forall p', j' :: MatchesAt(line, p', j') ==> p < p' || (p == p' && j <= j'))
      && MatchLine(line).value == LineMatch(line[p + 1..j], CloseAt(line, j).value.0, CloseAt(line, j).value.1)
  {
    MatchFromSpec(line, 0);
    if MatchFrom(line, 0).Some? {
      MatchLineOfSearch(line);
    }
  }

  /** When the search succeeds, the captures come from what it found. */
  lemma MatchLineOfSearch(line: string)
    requires MatchFrom(line, 0).Some?
    requires var (p, j) := MatchFrom(line, 0).value; MatchesAt(line, p, j)
    ensures var (p, j) := MatchFrom(line, 0).value;
      MatchLine(line) == Some(LineMatch(line[p + 1..j], CloseAt(line, j).value.0, CloseAt(line, j).value.1))
  {
  }

  /** A match with `[` at the start whose first group contains no closing
      position is the one the search finds. */
  lemma MatchLineAt(line: string, j: nat)
    requires MatchesAt(line, 0, j)
    requires forall j' :: 0 < j' < j ==> CloseAt(line, j').None?
    ensures MatchLine(line) == Some(LineMatch(line[1..j], CloseAt(line, j).value.0, CloseAt(line, j).value.1))
  {
    MatchFromSpec(line, 0);
    var (p, j') := MatchFrom(line, 0).value;
    assert p == 0 && j' <= j;
    assert j' == j;
    MatchLineOfSearch(line);
  }

  /** The line `[ts] level: message`. */
  function Layout(ts: string, level: string, message: string): string
  {
    "[" + ts + "] " + level + ": " + message
  }

  /** A run of word characters ended by another character is taken
      whole. */
  lemma {:induction false} WordRunIs(line: string, i: nat, n: nat)
    requires i + n < |line| && !IsWordChar(line[i + n])
    requires forall x :: i <= x < i + n ==> IsWordChar(line[x])
    ensures WordsFrom(line, i) == n
    decreases n
  {
    if n > 0 {
      WordRunIs(line, i + 1, n - 1);
    }
  }

  /** A line that ends in characters `.` matches gives them all to `(.*)`. */
  lemma {:induction false} DotRunIs(line: string, i: nat)
    requires i <= |line|
    requires forall x :: i <= x < |line| ==> IsDot(line[x])
    ensures DotsFrom(line, i) == |line| - i
    decreases |line| - i
  {
    if i < |line| {
      DotRunIs(line, i + 1);
    }
  }

  /** `\] (\w+): (.*)` matches at `j` when `]`, a space, a word, `: ` and a
      rest without line terminators follow each other from `j` to the end. */
  lemma CloseOfParts(line: string, j: nat, level: string, message: string)
    requires j + 2 + |level| + 2 + |message| == |line|
    requires line[j] == ']' && line[j + 1] == ' '
    requires line[j + 2 + |level|] == ':' && line[j + 2 + |level| + 1] == ' '
    requires line[j + 2..j + 2 + |level|] == level && line[j + 2 + |level| + 2..] == message
    requires level != [] && forall x :: 0 <= x < |level| ==> IsWordChar(level[x])
    requires forall x :: 0 <= x < |message| ==> IsDot(message[x])
    ensures CloseAt(line, j) == Some((level, message))
  {
    var c := j + 2 + |level|;
    forall x | j + 2 <= x < c ensures IsWordChar(line[x]) {
      assert line[x] == level[x - (j + 2)];
    }
    forall x | c + 2 <= x < |line| ensures IsDot(line[x]) {
      assert line[x] == message[x - (c + 2)];
    }
    assert !IsWordChar(line[c]);
    WordRunIs(line, j + 2, |level|);
    DotRunIs(line, c + 2);
    assert line[c + 2..c + 2 + DotsFrom(line, c + 2)] == message;
  }

  /** The closing part of the layout matches at its `]`. */
  lemma CloseOfLayout(ts: string, level: string, message: string)
    requires level != [] && forall x :: 0 <= x < |level| ==> IsWordChar(level[x])
    requires forall x :: 0 <= x < |message| ==> IsDot(message[x])
    ensures CloseAt(Layout(ts, level, message), 1 + |ts|) == Some((level, message))
  {
    var line := Layout(ts, level, message);
    var j := 1 + |ts|;
    var c := j + 2 + |level|;
    assert line == "[" + ts + "] " + level + ": " + message;
    assert line[j..c] == "] " + level;
    assert line[c..] == ": " + message;
    assert line[j + 2..c] == level;
    assert line[c + 2..] == message;
    CloseOfParts(line, j, level, message);
  }

  /** A line in the pattern's own layout yields its parts, provided the
      first part has no `]` and no line terminator, the level is a word, and
      the message has no line terminator. */
  lemma MatchOfLayout(ts: string, level: string, message: string)
    requires forall x :: 0 <= x < |ts| ==> ts[x] != ']' && IsDot(ts[x])
    requires level != [] && forall x :: 0 <= x < |level| ==> IsWordChar(level[x])
    requires forall x :: 0 <= x < |message| ==> IsDot(message[x])
    ensures MatchLine(Layout(ts, level, message)) == Some(LineMatch(ts, level, message))
  {
    var line := Layout(ts, level, message);
    var j := 1 + |ts|;
    CloseOfLayout(ts, level, message);
    OpenOfLayout(ts, level, message);
    forall x | 1 <= x < j ensures line[x] != ']' && IsDot(line[x]) {
      assert line[x] == line[1..j][x - 1];
    }
    forall j' | 0 < j' < j ensures CloseAt(line, j').None? {
      assert line[j'] != ']';
    }
    MatchLineAt(line, j);
  }

  /** The layout opens with `[` followed by the first part. */
  lemma OpenOfLayout(ts: string, level: string, message: string)
    ensures var line := Layout(ts, level, message);
      |line| > 1 + |ts| && line[0] == '[' && line[1..1 + |ts|] == ts
  {
    var line := Layout(ts, level, message);
    assert line == "[" + ts + ("] " + level + ": " + message);
  }

  // ------------------------------------------------------------ the query

  /** The query parameters as a map: each pair is stored in turn, so the
      last value given for a key wins. */
  function QueryOf(pairs: seq<(string, string)>): map<string, string>
  {
    if pairs == [] then map[]
    else QueryOf(pairs[..|pairs| - 1])[pairs[|pairs| - 1].0 := pairs[|pairs| - 1].1]
  }

  /** The map holds exactly the keys given, each with the last value given
      for it. */
  lemma {:induction false} QueryOfSpec(pairs: seq<(string, string)>)
    ensures forall k :: k in QueryOf(pairs) <==> exists i :: 0 <= i < |pairs| && pairs[i].0 == k
    ensures forall k :: k in QueryOf(pairs) ==>
      exists i :: (0 <= i < |pairs| && pairs[i] == (k, QueryOf(pairs)[k])
                   && forall j :: i < j < |pairs| ==> pairs[j].0 != k)
  {
    if pairs != [] {
      var init := pairs[..|pairs| - 1];
      QueryOfSpec(init);
      assert forall i :: 0 <= i < |init| ==> init[i] == pairs[i];
      var last := pairs[|pairs| - 1];
      forall k | k in QueryOf(pairs)
        ensures exists i :: (0 <= i < |pairs| && pairs[i] == (k, QueryOf(pairs)[k])
                             && forall j :: i < j < |pairs| ==> pairs[j].0 != k)
      {
        if k == last.0 {
          assert pairs[|pairs| - 1] == (k, QueryOf(pairs)[k]);
        } else {
          var i :| 0 <= i < |init| && init[i] == (k, QueryOf(init)[k])
            && forall j :: i < j < |init| ==> init[j].0 != k;
          assert pairs[i] == (k, QueryOf(pairs)[k]);
        }
      }
    }
  }

  /** `getQuery`: the loop over the decoded query pairs. */
  method GetQuery(pairs: seq<(string, string)>) returns (query: map<string, string>)
    ensures query == QueryOf(pairs)
  {
    query := map[];
    for n := 0 to |pairs|
      invariant query == QueryOf(pairs[..n])
    {
      assert pairs[..n + 1][..n] == pairs[..n];
      query := query[pairs[n].0 := pairs[n].1];
    }
    assert pairs[..|pairs|] == pairs;
  }

  /** `(query.level as string) || "all"`. */
  function LevelParam(query: map<string, string>): string
  {
    if "level" in query && query["level"] != "" then query["level"] else "all"
  }

  /** `parseInt(query.limit as string) || 100`: a missing, zero or
      unreadable limit becomes 100. */
  function LimitParam(query: map<string, string>): int
  {
    var parsed := if "limit" in query then ParseIntAuto(query["limit"]) else None;
    if parsed.None? || parsed.value == 0 then 100 else parsed.value
  }

  /** The limit is never zero; it is 100 unless the parameter reads as a
      non-zero number, in particular when it does not start (after white
      space and a sign) with a digit; a positive decimal count is read as
      itself. */
  lemma LimitParamSpec(query: map<string, string>, n: nat)
    ensures LimitParam(query) != 0
    ensures "limit" !in query ==> LimitParam(query) == 100
    ensures "limit" in query && !StartsWithDigit(Unsigned(TrimStart(query["limit"]))) ==> LimitParam(query) == 100
    ensures "limit" in query && query["limit"] == Decimal(n) && n > 0 ==> LimitParam(query) == n
    ensures "limit" in query && query["limit"] == Decimal(0) ==> LimitParam(query) == 100
  {
    if "limit" in query && query["limit"] == Decimal(n) {
      ParseIntAutoOfDecimal(n);
    }
    if "limit" in query && query["limit"] == Decimal(0) {
      ParseIntAutoOfDecimal(0);
    }
  }

  predicate StartsWithDigit(t: string)
  {
    t != [] && IsDigit(t[0])
  }

  /** `?limit=abc` gives the default. */
  lemma WordLimitIsDefault()
    ensures LimitParam(map["limit" := "abc"]) == 100
  {
    var q := map["limit" := "abc"];
    assert !IsSpace('a');
    assert TrimStart("abc") == "abc";
    assert Unsigned("abc") == "abc";
    assert !StartsWithDigit("abc");
    LimitParamSpec(q, 0);
  }

  // ------------------------------------------------------------ collecting

  datatype LogRecord = LogRecord(timestamp: string, level: string, message: string)

  /** What one line contributes: its record when it matches and its
      lower-cased level passes the filter. */
  function RecordOf(line: string, level: string): (r: seq<LogRecord>)
    ensures |r| <= 1
  {
    match MatchLine(line)
    case None => []
    case Some(m) =>
      if level != "all" && level != Lower(m.level) then []
      else [LogRecord(m.timestamp, Lower(m.level), m.message)]
  }

  /** The records of every matching, passing line, in file order. */
  function Selected(lines: seq<string>, level: string): seq<LogRecord>
  {
    FlatMap(lines, (line: string) => RecordOf(line, level))
  }

  /** The contributions of each element, concatenated in order. */
  function FlatMap<T, U>(s: seq<T>, f: T -> seq<U>): seq<U>
  {
    if s == [] then [] else FlatMap(s[..|s| - 1], f) + f(s[|s| - 1])
  }

  /** The number of entries collected before the loop stops: a limit below
      one still lets the first entry through. */
  function Cap(limit: int): nat
  {
    if limit < 1 then 1 else limit
  }

  /** The first `n` elements, or all of them when there are fewer. */
  function Take<T>(s: seq<T>, n: nat): (r: seq<T>)
    ensures |r| == (if |s| <= n then |s| else n) && r <= s
    ensures |s| <= n ==> r == s
  {
    if |s| <= n then s else s[..n]
  }

  function Reversed<T>(s: seq<T>): (r: seq<T>)
    ensures |r| == |s|
    ensures forall i :: 0 <= i < |s| ==> r[i] == s[|s| - 1 - i]
  {
    if s == [] then [] else [s[|s| - 1]] + Reversed(s[..|s| - 1])
  }

  lemma SelectedAppend(a: seq<string>, b: seq<string>, level: string)
    ensures Selected(a + b, level) == Selected(a, level) + Selected(b, level)
  {
    FlatMapAppend(a, b, (line: string) => RecordOf(line, level));
  }

  lemma {:induction false} FlatMapAppend<T, U>(a: seq<T>, b: seq<T>, f: T -> seq<U>)
    ensures FlatMap(a + b, f) == FlatMap(a, f) + FlatMap(b, f)
  {
    if b == [] {
      assert a + b == a;
    } else {
      FlatMapAppend(a, b[..|b| - 1], f);
      assert (a + b)[..|a + b| - 1] == a + b[..|b| - 1];
      assert (a + b)[|a + b| - 1] == b[|b| - 1];
    }
  }

  /** Every selected record comes from a matching line, carries a
      lower-case level, and passes the filter; and no more records are
      selected than there are lines. */
  lemma {:induction false} SelectedSpec(lines: seq<string>, level: string)
    ensures |Selected(lines, level)| <= |lines|
    ensures forall r :: r in Selected(lines, level) ==>
      && (level == "all" || r.level == level)
      && (forall x :: 0 <= x < |r.level| ==> !('A' <= r.level[x] <= 'Z'))
      && exists i :: 0 <= i < |lines| && MatchLine(lines[i]).Some?
           && r == LogRecord(MatchLine(lines[i]).value.timestamp, Lower(MatchLine(lines[i]).value.level), MatchLine(lines[i]).value.message)
  {
    if lines != [] {
      var init := lines[..|lines| - 1];
      SelectedSpec(init, level);
      assert forall i :: 0 <= i < |init| ==> init[i] == lines[i];
    }
  }

  /** One more line adds its own contribution. */
  lemma SelectedStep(lines: seq<string>, i: nat, level: string)
    requires i < |lines|
    ensures Selected(lines[..i + 1], level) == Selected(lines[..i], level) + RecordOf(lines[i], level)
  {
    assert lines[..i + 1][..i] == lines[..i];
  }

  /** Once `n` records are collected, the rest of the file is not needed. */
  lemma TakeOfPrefix(lines: seq<string>, i: nat, level: string, n: nat)
    requires i <= |lines| && |Selected(lines[..i], level)| == n
    ensures Take(Selected(lines, level), n) == Selected(lines[..i], level)
  {
    var a := Selected(lines[..i], level);
    var b := Selected(lines[i..], level);
    SelectedAppend(lines[..i], lines[i..], level);
    assert lines[..i] + lines[i..] == lines;
    assert (a + b)[..n] == a;
  }

  /** The handler: no file gives no entries; otherwise the first `Cap`
      selected records in file order, reversed. */
  method ReadLogs(file: Option<seq<string>>, query: map<string, string>) returns (logs: seq<LogRecord>)
    ensures file.None? ==> logs == []
    ensures file.Some? ==> logs == Reversed(Take(Selected(file.value, LevelParam(query)), Cap(LimitParam(query))))
  {
    if file.None? {
      return [];
    }
    var lines := file.value;
    var level := LevelParam(query);
    var limit := LimitParam(query);
    var collected: seq<LogRecord> := [];
    var i := 0;
    while i < |lines|
      invariant 0 <= i <= |lines|
      invariant collected == Selected(lines[..i], level)
      invariant |collected| < Cap(limit)
      decreases |lines| - i
    {
      SelectedStep(lines, i, level);
      var m := MatchLine(lines[i]);
      if m.Some? {
        var lowered := Lower(m.value.level);
        if level != "all" && level != lowered {
          i := i + 1;
          continue;
        }
        collected := collected + [LogRecord(m.value.timestamp, lowered, m.value.message)];
        if |collected| >= limit {
          TakeOfPrefix(lines, i + 1, level, Cap(limit));
          break;
        }
      }
      i := i + 1;
    }
    if i == |lines| {
      assert lines[..i] == lines;
    }
    logs := Reversed(collected);
  }

  /** `getQuery` followed by the handler. */
  method HandleLogs(file: Option<seq<string>>, pairs: seq<(string, string)>) returns (logs: seq<LogRecord>)
    ensures file.None? ==> logs == []
    ensures file.Some? ==>
      var query := QueryOf(pairs);
      logs == Reversed(Take(Selected(file.value, LevelParam(query)), Cap(LimitParam(query))))
  {
    var query := GetQuery(pairs);
    logs := ReadLogs(file, query);
  }

  /** Exactly `Cap(limit)` entries come back when that many lines are
      selected, and every selected one otherwise; so at most 100 when no
      limit is given, and one when the limit is below 1 and some line is
      selected; each passes the level filter. */
  lemma ReadLogsBound(lines: seq<string>, query: map<string, string>)
    ensures var sel := Selected(lines, LevelParam(query));
      var logs := Reversed(Take(sel, Cap(LimitParam(query))));
      && |logs| == (if |sel| <= Cap(LimitParam(query)) then |sel| else Cap(LimitParam(query)))
      && (LimitParam(query) < 1 && sel != [] ==> |logs| == 1)
      && ("limit" !in query ==> |logs| <= 100)
      && forall r :: r in logs ==> LevelParam(query) == "all" || r.level == LevelParam(query)
  {
    var level := LevelParam(query);
    var sel := Selected(lines, level);
    var logs := Reversed(Take(sel, Cap(LimitParam(query))));
    SelectedSpec(lines, level);
    forall r | r in logs ensures level == "all" || r.level == level {
      var i :| 0 <= i < |logs| && logs[i] == r;
      var t := Take(sel, Cap(LimitParam(query)));
      assert t[|t| - 1 - i] in sel;
    }
  }
}
