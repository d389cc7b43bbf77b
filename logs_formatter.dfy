/**
  logsFormatter.js: turns the JSON-lines log into a readable text. Each
  non-empty line is parsed as one record; a record renders as its
  `key:value` pairs, one per line, closed by a separator line; records are
  separated by a blank line. A value that cannot be converted to text (an
  object with its own "toString" property) throws like a line that does not
  parse. Any of these failures leaves both files as they were.
 */
module LogsFormatter {
  import opened Wrappers
  import opened Text
  import opened Json

  const SeparatorLine := "--------LOG SEPARATOR--------"
  /** Between two rendered records: `join('\n\n')`. */
  const RecordGap := "\n\n"

  /** `rawData.split('\n').filter(Boolean)`: the lines with the empty ones dropped. */
  function NonEmptyLines(raw: string): (r: seq<string>)
    ensures forall i :: 0 <= i < |r| ==> r[i] != "" && '\n' !in r[i]
  {
    Filter(Split(raw, '\n'))
  }

  function Filter(lines: seq<string>): (r: seq<string>)
    ensures forall i :: 0 <= i < |r| ==> r[i] != "" && r[i] in lines
  {
    if lines == [] then []
    else
      var rest := Filter(lines[..|lines| - 1]);
      var last := lines[|lines| - 1];
      assert forall x :: x in lines[..|lines| - 1] ==> x in lines;
      if last == "" then rest else rest + [last]
  }

  /** Filtering a concatenation filters each part: the kept lines stay in their order. */
  lemma {:induction false} FilterAppend(a: seq<string>, b: seq<string>)
    ensures Filter(a + b) == Filter(a) + Filter(b)
    decreases |b|
  {
    if b == [] {
      assert a + b == a;
    } else {
      var n := |b| - 1;
      assert (a + b)[..|a| + n] == a + b[..n];
      FilterAppend(a, b[..n]);
    }
  }

  /** A single line is kept exactly when it is not empty. */
  lemma FilterSingle(x: string)
    ensures Filter([x]) == if x == "" then [] else [x]
  {
    assert [x][..0] == [];
  }

  /** A line is kept exactly when it is one of the lines and is not empty. */
  lemma {:induction false} FilterKeepsNonEmpty(lines: seq<string>, line: string)
    ensures line in Filter(lines) <==> line in lines && line != ""
  {
    if lines != [] {
      FilterKeepsNonEmpty(lines[..|lines| - 1], line);
      assert lines == lines[..|lines| - 1] + [lines[|lines| - 1]];
    }
  }

  lemma {:induction false} FilterOfNonEmpty(lines: seq<string>)
    requires forall i :: 0 <= i < |lines| ==> lines[i] != ""
    ensures Filter(lines) == lines
  {
    if lines != [] {
      FilterOfNonEmpty(lines[..|lines| - 1]);
      assert lines == lines[..|lines| - 1] + [lines[|lines| - 1]];
    }
  }

  /** `.map((line) => JSON.parse(line))`: all records, or `None` as soon as one line fails. */
  function ParseAll(parse: Parser, lines: seq<string>): (r: Option<seq<Json>>)
    ensures r.Some? <==> forall i :: 0 <= i < |lines| ==> parse(lines[i]).Some?
    ensures r.Some? ==> |r.value| == |lines| && forall i :: 0 <= i < |lines| ==> r.value[i] == parse(lines[i]).value
  {
    if lines == [] then Some([])
    else
      var init := lines[..|lines| - 1];
      match ParseAll(parse, init)
      case None => None
      case Some(rs) =>
        match parse(lines[|lines| - 1])
        case None => None
        case Some(v) => Some(rs + [v])
  }

  /** `${key}:${value}`: the key and a colon, then the value's text; `None` when the value's text throws. */
  function RenderEntry(e: (string, Json)): (r: Option<string>)
    ensures r.None? <==> TextThrows(e.1)
    ensures r.Some? ==> StartsWith(r.value, e.0 + ":") && ':' in r.value
  {
    match ToText(e.1)
    case None => None
    case Some(t) =>
      var r := e.0 + ":" + t;
      assert r[|e.0|] == ':';
      assert r[..|e.0 + ":"|] == e.0 + ":";
      Some(r)
  }

  /** The rendered entries, one line each in entry order, or `None` when one of them throws. */
  function EntryLines(entries: seq<(string, Json)>): (r: Option<seq<string>>)
    ensures r.Some? <==> forall i :: 0 <= i < |entries| ==> !TextThrows(entries[i].1)
    ensures r.Some? ==> |r.value| == |entries| && forall i :: 0 <= i < |entries| ==> RenderEntry(entries[i]) == Some(r.value[i])
  {
    if forall i :: 0 <= i < |entries| ==> RenderEntry(entries[i]).Some? then
      Some(seq(|entries|, i requires 0 <= i < |entries| => RenderEntry(entries[i]).value))
    else None
  }

  /** A record that renders: not `null`, and no value of its entries throws when converted to text. */
  predicate RecordRenders(log: Json) {
    Entries(log).Some? && forall j :: 0 <= j < |Entries(log).value| ==> !TextThrows(Entries(log).value[j].1)
  }

  /**
    One record: its `Object.entries` rendered and joined by newlines, then
    the separator on a line of its own. `Object.entries(null)` throws, and
    so does the conversion of a value with its own "toString" property.
   */
  function RenderRecord(log: Json): (r: Option<string>)
    ensures r.Some? <==> RecordRenders(log)
    ensures log == JNull ==> r.None?
  {
    match Entries(log)
    case None => None
    case Some(entries) =>
      match EntryLines(entries)
      case None => None
      case Some(lines) => Some(Join(lines, "\n") + "\n" + SeparatorLine)
  }

  /** Every record rendered, or `None` if one of them throws. */
  function RenderAll(logs: seq<Json>): (r: Option<seq<string>>)
    ensures r.Some? <==> forall i :: 0 <= i < |logs| ==> RecordRenders(logs[i])
    ensures r.Some? ==> |r.value| == |logs| && forall i :: 0 <= i < |logs| ==> Some(r.value[i]) == RenderRecord(logs[i])
  {
    if logs == [] then Some([])
    else
      var init := logs[..|logs| - 1];
      match RenderAll(init)
      case None => None
      case Some(rs) =>
        match RenderRecord(logs[|logs| - 1])
        case None => None
        case Some(t) => Some(rs + [t])
  }

  /** The formatted text, or `None` when a line does not parse or a record does not render. */
  function Format(parse: Parser, raw: string): (r: Option<string>)
    ensures r.Some? <==>
              (forall i :: 0 <= i < |NonEmptyLines(raw)| ==> parse(NonEmptyLines(raw)[i]).Some?) &&
              (forall i :: 0 <= i < |NonEmptyLines(raw)| ==> RecordRenders(parse(NonEmptyLines(raw)[i]).value))
  {
    match ParseAll(parse, NonEmptyLines(raw))
    case None => None
    case Some(logs) =>
      match RenderAll(logs)
      case None => None
      case Some(rendered) => Some(Join(rendered, RecordGap))
  }

  /**
    A `null` record, or a record with a value that has its own "toString"
    property, such as the line `{"a":{"toString":1}}`, makes the whole
    formatting fail.
   */
  lemma UnrenderableRecordFails(parse: Parser, raw: string, i: nat, key: string, x: Json)
    requires i < |NonEmptyLines(raw)| && parse(NonEmptyLines(raw)[i]).Some?
    requires var log := parse(NonEmptyLines(raw)[i]).value;
             log == JNull || (log.JObject? && (key, JObject([("toString", x)])) in log.entries)
    ensures Format(parse, raw).None?
  {
    var log := parse(NonEmptyLines(raw)[i]).value;
    if log != JNull {
      var j :| 0 <= j < |log.entries| && log.entries[j] == (key, JObject([("toString", x)]));
      assert [("toString", x)][0].0 == "toString";
      assert TextThrows(Entries(log).value[j].1);
    }
  }

  /** The two files involved: the raw log, absent once deleted or never written, and the formatted output. */
  datatype Files = Files(rawLog: Option<string>, formatted: string)

  /**
    The script: on success the formatted text is appended to the output and
    the raw log deleted; when the raw log is missing or formatting fails the
    `catch` leaves both files unchanged.
   */
  function Process(parse: Parser, files: Files): (r: Files)
    ensures files.rawLog.None? ==> r == files
    ensures files.rawLog.Some? && Format(parse, files.rawLog.value).None? ==> r == files
    ensures files.rawLog.Some? && Format(parse, files.rawLog.value).Some? ==>
              r.rawLog.None? && r.formatted == files.formatted + Format(parse, files.rawLog.value).value
  {
    match files.rawLog
    case None => files
    case Some(raw) =>
      match Format(parse, raw)
      case None => files
      case Some(text) => Files(None, files.formatted + text)
  }

  /** A line count: how many of `lines` are exactly `t`. */
  function Count(lines: seq<string>, t: string): nat {
    if lines == [] then 0 else Count(lines[..|lines| - 1], t) + (if lines[|lines| - 1] == t then 1 else 0)
  }

  lemma {:induction false} CountAppend(a: seq<string>, b: seq<string>, t: string)
    ensures Count(a + b, t) == Count(a, t) + Count(b, t)
    decreases |b|
  {
    if b == [] {
      assert a + b == a;
    } else {
      var n := |b| - 1;
      assert (a + b)[..|a| + n] == a + b[..n];
      CountAppend(a, b[..n], t);
    }
  }

  lemma {:induction false} CountNone(lines: seq<string>, t: string)
    requires forall i :: 0 <= i < |lines| ==> lines[i] != t
    ensures Count(lines, t) == 0
  {
    if lines != [] {
      CountNone(lines[..|lines| - 1], t);
    }
  }

  /** Empty input, or input of newlines only, formats to the empty text. */
  lemma {:induction false} BlankInputFormatsEmpty(parse: Parser, raw: string)
    requires forall i :: 0 <= i < |raw| ==> raw[i] == '\n'
    ensures Format(parse, raw) == Some("")
  {
    BlankLinesAllEmpty(raw);
    FilterAllEmpty(Split(raw, '\n'));
  }

  lemma {:induction false} FilterAllEmpty(lines: seq<string>)
    requires forall i :: 0 <= i < |lines| ==> lines[i] == ""
    ensures Filter(lines) == []
  {
    if lines != [] {
      FilterAllEmpty(lines[..|lines| - 1]);
    }
  }

  lemma {:induction false} BlankLinesAllEmpty(raw: string)
    requires forall i :: 0 <= i < |raw| ==> raw[i] == '\n'
    ensures forall i :: 0 <= i < |Split(raw, '\n')| ==> Split(raw, '\n')[i] == ""
    decreases |raw|
  {
    if raw != [] {
      BlankLinesAllEmpty(raw[1..]);
    }
  }

  lemma SeparatorChars()
    ensures '\n' !in SeparatorLine && ':' !in SeparatorLine
  {
    forall i | 0 <= i < |SeparatorLine| ensures SeparatorLine[i] != '\n' && SeparatorLine[i] != ':' {
    }
  }

  /** The separator goes on a line of its own after the record's lines. */
  lemma SeparatorLineSplit(body: string)
    ensures Split(body + "\n" + SeparatorLine, '\n') == Split(body, '\n') + [SeparatorLine]
  {
    assert body + "\n" + SeparatorLine == body + ['\n'] + SeparatorLine;
    SplitConcat(body, SeparatorLine, '\n');
    SeparatorChars();
    SplitWithoutSeparator(SeparatorLine, '\n');
  }

  /** No entry line is a separator line: each holds a colon. */
  lemma EntryLinesNotSeparator(entries: seq<(string, Json)>)
    requires OneLineEntries(entries)
    ensures Count(Split(Join(EntryLines(entries).value, "\n"), '\n'), SeparatorLine) == 0
  {
    var ls := EntryLines(entries).value;
    var bodyLines := Split(Join(ls, "\n"), '\n');
    SeparatorChars();
    if |ls| == 0 {
      assert bodyLines == [""];
    } else {
      SplitJoin(ls, '\n');
    }
    forall i | 0 <= i < |bodyLines| ensures bodyLines[i] != SeparatorLine {
      if |ls| != 0 {
        assert ':' in bodyLines[i];
      }
    }
    CountNone(bodyLines, SeparatorLine);
  }

  /**
    The lines of one rendered record: its `key:value` lines in entry order,
    then the separator line. A record without entries renders an empty line
    before the separator.
   */
  lemma RecordLineStructure(log: Json)
    requires RecordRenders(log) && OneLineRecord(log)
    ensures |Entries(log).value| >= 1 ==>
              Split(RenderRecord(log).value, '\n') == EntryLines(Entries(log).value).value + [SeparatorLine]
    ensures |Entries(log).value| == 0 ==> Split(RenderRecord(log).value, '\n') == ["", SeparatorLine]
  {
    var es := Entries(log).value;
    var ls := EntryLines(es).value;
    var body := Join(ls, "\n");
    RenderedBody(log);
    SeparatorLineSplit(body);
    if |es| >= 1 {
      assert forall i :: 0 <= i < |ls| ==> '\n' !in ls[i];
      EntryBlockLines(ls);
    } else {
      assert body == "";
    }
  }

  lemma RenderedBody(log: Json)
    requires RecordRenders(log)
    ensures RenderRecord(log) == Some(Join(EntryLines(Entries(log).value).value, "\n") + "\n" + SeparatorLine)
  {
  }

  lemma EntryBlockLines(ls: seq<string>)
    requires |ls| >= 1 && forall i :: 0 <= i < |ls| ==> '\n' !in ls[i]
    ensures Split(Join(ls, "\n"), '\n') == ls
  {
    SplitJoin(ls, '\n');
  }

  /** The lines of one rendered record hold exactly one separator line. */
  lemma RecordLines(entries: seq<(string, Json)>)
    requires OneLineEntries(entries)
    ensures Count(Split(Join(EntryLines(entries).value, "\n") + "\n" + SeparatorLine, '\n'), SeparatorLine) == 1
  {
    var body := Join(EntryLines(entries).value, "\n");
    SeparatorLineSplit(body);
    EntryLinesNotSeparator(entries);
    CountAppend(Split(body, '\n'), [SeparatorLine], SeparatorLine);
    assert [SeparatorLine][..0] == [];
  }

  /** No rendered line holds a newline: every key and every value text is one line. */
  predicate OneLineRecords(logs: seq<Json>) {
    forall i :: 0 <= i < |logs| ==> OneLineRecord(logs[i])
  }

  predicate OneLineRecord(log: Json) {
    RecordRenders(log) ==> OneLineEntries(Entries(log).value)
  }

  /** The entries render, each to a text without a newline. */
  predicate OneLineEntries(entries: seq<(string, Json)>) {
    forall j :: 0 <= j < |entries| ==> RenderEntry(entries[j]).Some? && '\n' !in RenderEntry(entries[j]).value
  }

  /** Joining rendered records: one separator line per record, as long as the records' lines hold no newline. */
  lemma {:induction false} JoinedSeparators(logs: seq<Json>, rendered: seq<string>)
    requires |rendered| == |logs| && OneLineRecords(logs)
    requires forall i :: 0 <= i < |logs| ==> Some(rendered[i]) == RenderRecord(logs[i])
    ensures Count(Split(Join(rendered, RecordGap), '\n'), SeparatorLine) == |logs|
    decreases |logs|
  {
    if |logs| == 0 {
      assert Split("", '\n') == [""];
    } else {
      assert OneLineRecord(logs[0]);
      RecordLines(Entries(logs[0]).value);
      if |logs| > 1 {
        var rest := Join(rendered[1..], RecordGap);
        JoinedSeparators(logs[1..], rendered[1..]);
        GapSplit(rendered[0], rest);
        CountAppend(Split(rendered[0], '\n') + [""], Split(rest, '\n'), SeparatorLine);
        CountAppend(Split(rendered[0], '\n'), [""], SeparatorLine);
        assert [""][..0] == [];
      }
    }
  }

  /** A blank line between two texts: the lines of the first, an empty line, the lines of the second. */
  lemma GapSplit(a: string, b: string)
    ensures Split(a + RecordGap + b, '\n') == Split(a, '\n') + [""] + Split(b, '\n')
  {
    var tail := ['\n'] + b;
    assert a + RecordGap + b == a + ['\n'] + tail;
    SplitConcat(a, tail, '\n');
    assert tail == [] + ['\n'] + b;
    SplitConcat([], b, '\n');
  }

  /**
    The output holds one separator line per non-empty input line, provided
    no rendered key or value spans several lines.
   */
  lemma SeparatorPerRecord(parse: Parser, raw: string)
    requires Format(parse, raw).Some?
    requires OneLineRecords(ParseAll(parse, NonEmptyLines(raw)).value)
    ensures Count(Split(Format(parse, raw).value, '\n'), SeparatorLine) == |NonEmptyLines(raw)|
  {
    var logs := ParseAll(parse, NonEmptyLines(raw)).value;
    JoinedSeparators(logs, RenderAll(logs).value);
  }
}
