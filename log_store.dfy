/** The dashboard's log store: the text of a day's log file is split into
    lines, blank lines are dropped, every line is parsed, and the entries
    that parse are kept under their date. A date already held is never
    fetched again. */
module LogStore {
  import opened Wrappers
  import opened JsText
  import opened LogLine

  // ------------------------------------------------------------- parsing

  /** `s.filter(keep)`. */
  function Filter<T>(s: seq<T>, keep: T -> bool): seq<T>
  {
    if s == [] then []
    else Filter(s[..|s| - 1], keep) + (if keep(s[|s| - 1]) then [s[|s| - 1]] else [])
  }

  /** `s.map(f).filter((x) => x !== null)`. */
  function FilterMap<T, U>(s: seq<T>, f: T -> Option<U>): seq<U>
  {
    if s == [] then []
    else
      FilterMap(s[..|s| - 1], f) +
        match f(s[|s| - 1])
        case None => []
        case Some(y) => [y]
  }

  /** Exactly the elements `keep` accepts are kept, in their order, and no
      more of them than were given. */
  lemma {:induction false} FilterSpec<T>(s: seq<T>, keep: T -> bool)
    ensures |Filter(s, keep)| <= |s|
    ensures forall x :: x in Filter(s, keep) <==> x in s && keep(x)
    ensures (forall i :: 0 <= i < |s| ==> keep(s[i])) ==> Filter(s, keep) == s
  {
    if s != [] {
      var init := s[..|s| - 1];
      FilterSpec(init, keep);
      assert s == init + [s[|s| - 1]];
      assert forall i :: 0 <= i < |init| ==> init[i] == s[i];
    }
  }

  /** The filter works element by element: filtering two lists one after
      the other is filtering their concatenation, so the kept elements stay
      in their order. */
  lemma {:induction false} FilterAppend<T>(a: seq<T>, b: seq<T>, keep: T -> bool)
    ensures Filter(a + b, keep) == Filter(a, keep) + Filter(b, keep)
  {
    if b == [] {
      assert a + b == a;
    } else {
      FilterAppend(a, b[..|b| - 1], keep);
      assert (a + b)[..|a + b| - 1] == a + b[..|b| - 1];
      assert (a + b)[|a + b| - 1] == b[|b| - 1];
    }
  }

  /** The same for parsing and dropping what does not parse. */
  lemma {:induction false} FilterMapAppend<T, U>(a: seq<T>, b: seq<T>, f: T -> Option<U>)
    ensures FilterMap(a + b, f) == FilterMap(a, f) + FilterMap(b, f)
  {
    if b == [] {
      assert a + b == a;
    } else {
      FilterMapAppend(a, b[..|b| - 1], f);
      assert (a + b)[..|a + b| - 1] == a + b[..|b| - 1];
      assert (a + b)[|a + b| - 1] == b[|b| - 1];
    }
  }

  /** Every value kept is what `f` gives for some element; when `f` gives a
      value for every element, there is one value per element, in order. */
  lemma {:induction false} FilterMapSpec<T, U>(s: seq<T>, f: T -> Option<U>)
    ensures |FilterMap(s, f)| <= |s|
    ensures forall y :: y in FilterMap(s, f) ==> exists i :: 0 <= i < |s| && f(s[i]) == Some(y)
    ensures (forall i :: 0 <= i < |s| ==> f(s[i]).Some?) ==>
      |FilterMap(s, f)| == |s| && forall i :: 0 <= i < |s| ==> FilterMap(s, f)[i] == f(s[i]).value
  {
    if s != [] {
      var init := s[..|s| - 1];
      FilterMapSpec(init, f);
      assert forall i :: 0 <= i < |init| ==> init[i] == s[i];
    }
  }

  /** The test `line.trim() !== ""`. */
  predicate NotBlank(line: string)
  {
    Trim(line) != ""
  }

  /** The entries a day's log text yields: its lines, without the blank
      ones, each parsed, without those that do not parse. */
  function ParseLogText(data: string): seq<LogEntry>
  {
    FilterMap(Filter(Split(data, '\n'), NotBlank), ParseLogLine)
  }

  /** The log text holds no more entries than non-blank lines, and each of
      them is well formed. */
  lemma ParseLogTextSpec(data: string)
    ensures |ParseLogText(data)| <= |Filter(Split(data, '\n'), NotBlank)| <= |Split(data, '\n')|
    ensures forall e :: e in ParseLogText(data) ==> WellFormed(e)
  {
    var lines := Filter(Split(data, '\n'), NotBlank);
    FilterSpec(Split(data, '\n'), NotBlank);
    FilterMapSpec(lines, ParseLogLine);
    forall e | e in ParseLogText(data) ensures WellFormed(e) {
      var i :| 0 <= i < |lines| && ParseLogLine(lines[i]) == Some(e);
      ParsedIsWellFormed(lines[i]);
    }
  }

  // ------------------------------------------------------------ round trip

  /** A day's log text: one formatted line per entry. */
  function LogText(es: seq<LogEntry>): string
    requires forall e :: e in es ==> WellFormed(e)
  {
    if es == [] then "" else Join(FormattedLines(es), '\n')
  }

  function FormattedLines(es: seq<LogEntry>): (lines: seq<string>)
    requires forall e :: e in es ==> WellFormed(e)
    ensures |lines| == |es| && forall i :: 0 <= i < |es| ==> lines[i] == FormatLogLine(es[i])
  {
    if es == [] then [] else [FormatLogLine(es[0])] + FormattedLines(es[1..])
  }

  /** A timestamp holds no line break and does not start with white space. */
  lemma TimestampChars(t: string)
    requires IsTimestamp(t)
    ensures '\n' !in t && !IsSpace(t[0])
  {
    forall i | 0 <= i < |t| ensures t[i] != '\n' {
      if 20 <= i < |t| - 1 {
        assert t[20..|t| - 1][i - 20] == t[i];
      }
    }
  }

  /** A formatted line is one non-blank line. */
  lemma FormattedLineShape(e: LogEntry)
    requires WellFormed(e) && '\n' !in e.message
    ensures '\n' !in FormatLogLine(e) && Trim(FormatLogLine(e)) != ""
  {
    var line := FormatLogLine(e);
    var k := KindIndex(e.kind);
    TimestampChars(e.timestamp);
    assert line == e.timestamp + (" " + Levels[k] + ": " + e.message);
    assert '\n' !in Levels[k];
    assert TrimStart(line) == line;
    assert line != [];
  }

  /** The empty log text yields no entries. */
  lemma ParseEmptyText()
    ensures ParseLogText("") == []
  {
    assert Split("", '\n') == [""];
    assert !NotBlank("");
  }

  /** The non-blank lines of a non-empty log text are its formatted lines. */
  lemma LinesOfLogText(es: seq<LogEntry>)
    requires es != []
    requires forall e :: e in es ==> WellFormed(e) && '\n' !in e.message
    ensures Filter(Split(LogText(es), '\n'), NotBlank) == FormattedLines(es)
  {
    var lines := FormattedLines(es);
    forall i | 0 <= i < |lines| ensures '\n' !in lines[i] && NotBlank(lines[i]) {
      FormattedLineShape(es[i]);
    }
    SplitJoin(lines, '\n');
    FilterSpec(lines, NotBlank);
  }

  /** The formatted lines parse back to the entries. */
  lemma ParseFormattedLines(es: seq<LogEntry>)
    requires forall e :: e in es ==> WellFormed(e)
    ensures FilterMap(FormattedLines(es), ParseLogLine) == es
  {
    var lines := FormattedLines(es);
    forall i | 0 <= i < |lines| ensures ParseLogLine(lines[i]) == Some(es[i]) {
      ParseFormat(es[i]);
    }
    FilterMapSpec(lines, ParseLogLine);
  }

  /** Writing entries out one per line and reading the text back gives the
      same entries, provided no message holds a line break. */
  lemma ParseLogTextOfLogText(es: seq<LogEntry>)
    requires forall e :: e in es ==> WellFormed(e) && '\n' !in e.message
    ensures ParseLogText(LogText(es)) == es
  {
    if es == [] {
      ParseEmptyText();
    } else {
      LinesOfLogText(es);
      ParseFormattedLines(es);
    }
  }

  // ---------------------------------------------------------------- store

  /** What the request for a day's log answers: its text, or a failure that
      may carry a message. */
  datatype FetchResult = Fetched(body: string) | FetchFailed(message: Option<string>)

  /** The error shown for a failed request. */
  function FailureMessage(message: Option<string>): (m: string)
    ensures message.Some? ==> m == message.value
    ensures message.None? ==> m == "Failed to fetch logs"
  {
    if message.Some? then message.value else "Failed to fetch logs"
  }

  class LogsStore {
    /** Parsed entries by date. */
    var logs: map<string, seq<LogEntry>>
    var loading: bool
    var error: Option<string>

    /** Every stored entry is well formed. */
    predicate Valid()
      reads this
    {
      forall d, e :: d in logs && e in logs[d] ==> WellFormed(e)
    }

    constructor()
      ensures logs == map[] && !loading && error.None?
      ensures Valid()
    {
      logs := map[];
      loading := false;
      error := None;
    }

    /** The synchronous start of `fetchLogs`: a date already held (even
        with no entries) ends the call; otherwise loading starts and the
        error is cleared. */
    method BeginFetch(date: string) returns (started: bool)
      modifies this
      ensures started <==> date !in old(logs)
      ensures !started ==> unchanged(this)
      ensures started ==> logs == old(logs) && loading && error.None?
    {
      if date in logs {
        return false;
      }
      loading := true;
      error := None;
      return true;
    }

    /** The end of `fetchLogs`, once the request is answered: the parsed
        entries are stored under the date, or the failure's message becomes
        the error; loading stops either way. */
    method FinishFetch(date: string, response: FetchResult)
      requires Valid()
      modifies this
      ensures Valid()
      ensures !loading
      ensures response.Fetched? ==>
        logs == old(logs)[date := ParseLogText(response.body)] && error == old(error)
      ensures response.FetchFailed? ==>
        logs == old(logs) && error == Some(FailureMessage(response.message))
    {
      if response.Fetched? {
        var parsed := ParseLogText(response.body);
        ParseLogTextSpec(response.body);
        var before := logs;
        logs := before[date := parsed];
        forall d, e | d in logs && e in logs[d] ensures WellFormed(e) {
          if d != date {
            assert e in before[d];
          }
        }
      } else {
        error := Some(FailureMessage(response.message));
      }
      loading := false;
    }

    /** `fetchLogs(date)`, with the request's answer as a parameter. Days
        already stored keep their entries, and the store stays valid. */
    method FetchLogs(date: string, response: FetchResult)
      requires Valid()
      modifies this
      ensures Valid()
      ensures date in old(logs) ==> unchanged(this)
      ensures forall d :: d in old(logs) ==> d in logs && logs[d] == old(logs)[d]
      ensures date !in old(logs) ==> !loading && match response
        case Fetched(body) => logs == old(logs)[date := ParseLogText(body)] && error.None?
        case FetchFailed(message) => logs == old(logs) && error == Some(FailureMessage(message))
    {
      var started := BeginFetch(date);
      if started {
        FinishFetch(date, response);
      }
    }
  }
}
