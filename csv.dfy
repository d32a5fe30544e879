/** The CSV text the ledger export produces: every field wrapped in double quotes
    with inner quotes doubled (the escaping of section 2, rules 5 to 7, of
    RFC 4180), fields joined with commas, lines joined with a bare line feed. The
    reader here is the inverse used to show that nothing is lost. */
module Csv {
  import opened Types

  /** Every double quote in the field doubled: collapsing each `""` back gives
      the field, and the text grows by one character per quote. */
  function DoubleQuotes(s: string): (r: string)
    ensures Undouble(r) == s
    ensures |r| == |s| + QuoteCount(s)
  {
    if s == [] then []
    else (if s[0] == '"' then "\"\"" else [s[0]]) + DoubleQuotes(s[1..])
  }

  /** How many double quotes the text holds. */
  function QuoteCount(s: string): nat {
    if s == [] then 0 else (if s[0] == '"' then 1 else 0) + QuoteCount(s[1..])
  }

  /** Reads every `""` as one quote. */
  function Undouble(s: string): string
    decreases |s|
  {
    if s == [] then []
    else if |s| >= 2 && s[0] == '"' && s[1] == '"' then "\"" + Undouble(s[2..])
    else [s[0]] + Undouble(s[1..])
  }

  /** One exported field: the field with its quotes doubled, between quotes. */
  function Escape(s: string): (r: string)
    ensures |r| >= 2 && r[0] == '"' && r[|r| - 1] == '"'
    ensures |r| == |s| + QuoteCount(s) + 2
  {
    "\"" + DoubleQuotes(s) + "\""
  }

  function EscapeAll(fields: seq<string>): (r: seq<string>)
    ensures |r| == |fields|
  {
    if fields == [] then [] else [Escape(fields[0])] + EscapeAll(fields[1..])
  }

  /** The parts with `sep` between each two of them. */
  function Join(parts: seq<string>, sep: char): string {
    if parts == [] then ""
    else if |parts| == 1 then parts[0]
    else parts[0] + [sep] + Join(parts[1..], sep)
  }

  /** One exported line: the escaped fields separated by commas. */
  function RowLine(fields: seq<string>): string {
    Join(EscapeAll(fields), ',')
  }

  // ---------------------------------------------------------------------------
  // Reading the text back
  // ---------------------------------------------------------------------------

  /** Reads the inside of a quoted field (the opening quote already consumed): a
      doubled quote stands for one quote, a single quote closes the field. Yields
      the field and what follows the closing quote. */
  function ParseQuotedBody(s: string): (r: Option<(string, string)>)
    ensures r.Some? ==> |r.value.1| < |s|
  {
    if s == [] then None
    else if s[0] == '"' then
      (if |s| >= 2 && s[1] == '"' then
         match ParseQuotedBody(s[2..])
         case None => None
         case Some((f, rest)) => Some(("\"" + f, rest))
       else Some(("", s[1..])))
    else
      match ParseQuotedBody(s[1..])
      case None => None
      case Some((f, rest)) => Some(([s[0]] + f, rest))
  }

  /** Reads comma-separated quoted fields up to the end of a line. */
  function ParseFields(s: string): (r: Option<(seq<string>, string)>)
    ensures r.Some? ==> |r.value.1| < |s|
    decreases |s|
  {
    if s == [] || s[0] != '"' then None
    else
      match ParseQuotedBody(s[1..])
      case None => None
      case Some((f, rest)) =>
        if rest != [] && rest[0] == ',' then
          match ParseFields(rest[1..])
          case None => None
          case Some((fs, tail)) => Some(([f] + fs, tail))
        else Some(([f], rest))
  }

  /** Reads lines of quoted fields separated by line feeds. */
  function ParseRecords(s: string): Option<seq<seq<string>>>
    decreases |s|
  {
    if s == [] then Some([])
    else
      match ParseFields(s)
      case None => None
      case Some((fields, rest)) =>
        if rest == [] then Some([fields])
        else if rest[0] == '\n' && rest[1..] != [] then
          match ParseRecords(rest[1..])
          case None => None
          case Some(records) => Some([fields] + records)
        else None
  }

  /** Splits at every occurrence of `sep`. */
  function Split(s: string, sep: char): seq<string>
    decreases |s|
  {
    if s == [] then [""]
    else
      var tail := Split(s[1..], sep);
      if s[0] == sep then [""] + tail else [[s[0]] + tail[0]] + tail[1..]
  }

  /** Splits a document at its first line feed. */
  function SplitFirstLine(s: string): (r: (string, Option<string>))
    decreases |s|
  {
    if s == [] then ("", None)
    else if s[0] == '\n' then ("", Some(s[1..]))
    else
      var (line, rest) := SplitFirstLine(s[1..]);
      ([s[0]] + line, rest)
  }

  // ---------------------------------------------------------------------------
  // Round trips
  // ---------------------------------------------------------------------------

  /** Undoubling recovers the field and stops exactly at its closing quote. */
  lemma {:induction false} QuotedBodyRoundTrip(t: string, rest: string)
    requires rest == [] || rest[0] != '"'
    ensures ParseQuotedBody(DoubleQuotes(t) + "\"" + rest) == Some((t, rest))
  {
    var s := DoubleQuotes(t) + "\"" + rest;
    if t == [] {
      assert s == "\"" + rest;
      assert s[1..] == rest;
    } else if t[0] == '"' {
      QuotedBodyRoundTrip(t[1..], rest);
      assert s == "\"\"" + (DoubleQuotes(t[1..]) + "\"" + rest);
      assert s[2..] == DoubleQuotes(t[1..]) + "\"" + rest;
      assert "\"" + t[1..] == t;
    } else {
      QuotedBodyRoundTrip(t[1..], rest);
      assert s == [t[0]] + (DoubleQuotes(t[1..]) + "\"" + rest);
      assert s[1..] == DoubleQuotes(t[1..]) + "\"" + rest;
      assert [t[0]] + t[1..] == t;
    }
  }

  /** A field reads back as itself from its escaped form, whatever it holds
      (quotes, commas or line feeds). */
  lemma FieldRoundTrip(t: string)
    ensures var e := Escape(t); ParseQuotedBody(e[1..]) == Some((t, ""))
  {
    var e := Escape(t);
    assert e[1..] == DoubleQuotes(t) + "\"" + "";
    QuotedBodyRoundTrip(t, "");
  }

  /** An escaped field at the end of a line is read as the line's last field. */
  lemma LastFieldRoundTrip(f: string, tail: string)
    requires tail == [] || tail[0] == '\n'
    ensures ParseFields(Escape(f) + tail) == Some(([f], tail))
  {
    var body := DoubleQuotes(f) + "\"" + tail;
    var s := Escape(f) + tail;
    assert s == "\"" + body;
    assert s[0] == '"' && s[1..] == body;
    QuotedBodyRoundTrip(f, tail);
    assert ParseQuotedBody(s[1..]) == Some((f, tail));
  }

  /** An escaped field followed by a comma is read, then the fields after the
      comma. */
  lemma FieldThenMore(f: string, more: string, fs: seq<string>, tail: string)
    requires ParseFields(more) == Some((fs, tail))
    ensures ParseFields(Escape(f) + "," + more) == Some(([f] + fs, tail))
  {
    var after := "," + more;
    var body := DoubleQuotes(f) + "\"" + after;
    var s := Escape(f) + "," + more;
    assert s == "\"" + body;
    assert s[0] == '"' && s[1..] == body;
    QuotedBodyRoundTrip(f, after);
    assert ParseQuotedBody(s[1..]) == Some((f, after));
    assert after[1..] == more;
  }

  /** A line of escaped fields reads back as the fields, leaving whatever came
      after the line. */
  lemma {:induction false} RowRoundTrip(fields: seq<string>, tail: string)
    requires fields != []
    requires tail == [] || tail[0] == '\n'
    ensures ParseFields(RowLine(fields) + tail) == Some((fields, tail))
  {
    var f := fields[0];
    if |fields| == 1 {
      RowLineOne(fields);
      LastFieldRoundTrip(f, tail);
      assert fields == [f];
    } else {
      var rest := fields[1..];
      var more := RowLine(rest) + tail;
      RowLineCons(fields, tail);
      RowRoundTrip(rest, tail);
      FieldThenMore(f, more, rest, tail);
      assert [f] + rest == fields;
    }
  }

  lemma RowLineOne(fields: seq<string>)
    requires |fields| == 1
    ensures RowLine(fields) == Escape(fields[0])
  {
    assert EscapeAll(fields) == [Escape(fields[0])];
  }

  /** A line of two or more fields is the first escaped field, a comma and the
      line of the others. */
  lemma RowLineCons(fields: seq<string>, tail: string)
    requires |fields| > 1
    ensures RowLine(fields) + tail == Escape(fields[0]) + "," + (RowLine(fields[1..]) + tail)
  {
    var e := EscapeAll(fields);
    assert e == [Escape(fields[0])] + EscapeAll(fields[1..]);
    assert e[1..] == EscapeAll(fields[1..]);
  }

  function RowLines(rows: seq<seq<string>>): (r: seq<string>)
    ensures |r| == |rows|
  {
    if rows == [] then [] else [RowLine(rows[0])] + RowLines(rows[1..])
  }

  /** Lines of escaped rows, joined with line feeds, read back as the rows. */
  lemma {:induction false} RecordsRoundTrip(rows: seq<seq<string>>)
    requires forall i :: 0 <= i < |rows| ==> rows[i] != []
    ensures ParseRecords(Join(RowLines(rows), '\n')) == Some(rows)
  {
    if |rows| == 1 {
      SingleRecordRoundTrip(rows[0]);
      assert rows == [rows[0]];
    } else if |rows| > 1 {
      RecordsRoundTrip(rows[1..]);
      RecordsStep(rows);
    }
  }

  lemma SingleRecordRoundTrip(fields: seq<string>)
    requires fields != []
    ensures ParseRecords(Join(RowLines([fields]), '\n')) == Some([fields])
  {
    var line := RowLine(fields);
    assert RowLines([fields]) == [line];
    assert Join(RowLines([fields]), '\n') == line + "";
    RowRoundTrip(fields, "");
    RowLineNonEmpty(fields);
  }

  /** One more row in front of rows that already read back. */
  lemma RecordsStep(rows: seq<seq<string>>)
    requires |rows| > 1 && rows[0] != [] && rows[1] != []
    requires ParseRecords(Join(RowLines(rows[1..]), '\n')) == Some(rows[1..])
    ensures ParseRecords(Join(RowLines(rows), '\n')) == Some(rows)
  {
    RowLinesCons(rows);
    RowLinesNonEmpty(rows[1..]);
    LineThenRecords(rows[0], Join(RowLines(rows[1..]), '\n'), rows[1..]);
    assert [rows[0]] + rows[1..] == rows;
  }

  /** An escaped row, a line feed and text that reads back as records read back
      as the row followed by the records. */
  lemma LineThenRecords(fields: seq<string>, restText: string, records: seq<seq<string>>)
    requires fields != []
    requires restText != [] && ParseRecords(restText) == Some(records)
    ensures ParseRecords(RowLine(fields) + ("\n" + restText)) == Some([fields] + records)
  {
    RowRoundTrip(fields, "\n" + restText);
    ParseRecordsCons(RowLine(fields) + ("\n" + restText), fields, restText, records);
  }

  /** The text of two or more rows: the first row's line, a line feed, and the
      text of the others. */
  lemma RowLinesCons(rows: seq<seq<string>>)
    requires |rows| > 1
    ensures Join(RowLines(rows), '\n') == RowLine(rows[0]) + ("\n" + Join(RowLines(rows[1..]), '\n'))
  {
    assert RowLines(rows)[1..] == RowLines(rows[1..]);
  }

  /** The text of rows whose first row has a field is not empty. */
  lemma RowLinesNonEmpty(rows: seq<seq<string>>)
    requires rows != [] && rows[0] != []
    ensures Join(RowLines(rows), '\n') != []
  {
    RowLineNonEmpty(rows[0]);
    JoinStartsWithFirst(RowLines(rows), '\n');
  }

  /** A line read as `fields`, a line feed, and more lines read as `records`
      read together as `fields` followed by `records`. */
  lemma ParseRecordsCons(s: string, fields: seq<string>, restText: string, records: seq<seq<string>>)
    requires ParseFields(s) == Some((fields, "\n" + restText))
    requires restText != [] && ParseRecords(restText) == Some(records)
    ensures ParseRecords(s) == Some([fields] + records)
  {
    assert ("\n" + restText)[1..] == restText;
  }

  lemma RowLineNonEmpty(fields: seq<string>)
    requires fields != []
    ensures RowLine(fields) != []
  {
    assert EscapeAll(fields)[0] == Escape(fields[0]);
  }

  lemma {:induction false} JoinStartsWithFirst(parts: seq<string>, sep: char)
    requires parts != []
    ensures |Join(parts, sep)| >= |parts[0]|
  {
  }

  /** With parts free of the separator, splitting the joined text gives them back. */
  lemma {:induction false} SplitJoin(parts: seq<string>, sep: char)
    requires parts != []
    requires forall i, j :: 0 <= i < |parts| && 0 <= j < |parts[i]| ==> parts[i][j] != sep
    ensures Split(Join(parts, sep), sep) == parts
    decreases |parts|, |parts[0]|
  {
    var p := parts[0];
    if p == [] {
      if |parts| == 1 {
      } else {
        assert Join(parts, sep) == [sep] + Join(parts[1..], sep);
        assert ([sep] + Join(parts[1..], sep))[1..] == Join(parts[1..], sep);
        SplitJoin(parts[1..], sep);
        assert [""] + parts[1..] == parts;
      }
    } else {
      var shorter := [p[1..]] + parts[1..];
      assert forall i, j :: 0 <= i < |shorter| && 0 <= j < |shorter[i]| ==> shorter[i][j] != sep by {
        forall i, j | 0 <= i < |shorter| && 0 <= j < |shorter[i]| ensures shorter[i][j] != sep {
          if i == 0 {
            assert shorter[0][j] == parts[0][j + 1];
          } else {
            assert shorter[i] == parts[i];
          }
        }
      }
      SplitJoin(shorter, sep);
      assert shorter[1..] == parts[1..];
      JoinDropFirstChar(parts, sep);
      assert [p[0]] + p[1..] == p;
      assert [p] + parts[1..] == parts;
    }
  }

  lemma JoinDropFirstChar(parts: seq<string>, sep: char)
    requires parts != [] && parts[0] != []
    ensures Join(parts, sep) != []
    ensures Join(parts, sep)[0] == parts[0][0]
    ensures Join(parts, sep)[1..] == Join([parts[0][1..]] + parts[1..], sep)
  {
    var shorter := [parts[0][1..]] + parts[1..];
    assert shorter[1..] == parts[1..];
  }

  /** The first line of a text without line feeds followed by more text. */
  lemma {:induction false} SplitFirstLineOf(line: string, rest: Option<string>)
    requires forall i :: 0 <= i < |line| ==> line[i] != '\n'
    ensures SplitFirstLine(line + (if rest.Some? then "\n" + rest.value else "")) == (line, rest)
  {
    var s := line + (if rest.Some? then "\n" + rest.value else "");
    if line == [] {
      assert s == (if rest.Some? then "\n" + rest.value else "");
      if rest.Some? {
        assert s[1..] == rest.value;
      }
    } else {
      SplitFirstLineOf(line[1..], rest);
      assert s[1..] == line[1..] + (if rest.Some? then "\n" + rest.value else "");
      assert [line[0]] + line[1..] == line;
    }
  }

  /** Reads a whole export: the plain header line, then the quoted records. */
  function ParseDocument(s: string): Option<(seq<string>, seq<seq<string>>)> {
    var (header, rest) := SplitFirstLine(s);
    match rest
    case None => Some((Split(header, ','), []))
    case Some(body) =>
      match ParseRecords(body)
      case None => None
      case Some(records) => Some((Split(header, ','), records))
  }

  /** The export text: the headers joined by commas as the first line, then one
      line per row, lines separated by line feeds. */
  function Document(headers: seq<string>, rows: seq<seq<string>>): (r: string)
    ensures rows == [] ==> r == Join(headers, ',')
    ensures rows != [] ==> r == Join(headers, ',') + "\n" + Join(RowLines(rows), '\n')
    ensures |Join(headers, ',')| <= |r| && r[..|Join(headers, ',')|] == Join(headers, ',')
    ensures rows != [] <==> |r| > |Join(headers, ',')| && r[|Join(headers, ',')|] == '\n'
  {
    var h := Join(headers, ',');
    if rows == [] then
      Join([h], '\n')
    else
      assert ([h] + RowLines(rows))[1..] == RowLines(rows);
      var r := Join([h] + RowLines(rows), '\n');
      assert r[..|h|] == h;
      r
  }

  /** An export reads back as its headers and rows, provided the headers (which
      are written unquoted) hold no comma and no line feed, and no row is empty. */
  lemma {:induction false} DocumentRoundTrip(headers: seq<string>, rows: seq<seq<string>>)
    requires headers != []
    requires forall i, j :: 0 <= i < |headers| && 0 <= j < |headers[i]| ==> headers[i][j] != ',' && headers[i][j] != '\n'
    requires forall i :: 0 <= i < |rows| ==> rows[i] != []
    ensures ParseDocument(Document(headers, rows)) == Some((headers, rows))
  {
    var headerLine := Join(headers, ',');
    JoinAvoids(headers, ',', '\n');
    SplitJoin(headers, ',');
    var rest: Option<string> := if rows == [] then None else Some(Join(RowLines(rows), '\n'));
    assert Document(headers, rows) == headerLine + (if rest.Some? then "\n" + rest.value else "");
    SplitFirstLineOf(headerLine, rest);
    if rows != [] {
      RecordsRoundTrip(rows);
    }
  }

  /** Joining parts free of a character other than the separator leaves the
      result free of it. */
  lemma {:induction false} JoinAvoids(parts: seq<string>, sep: char, c: char)
    requires sep != c
    requires forall i, j :: 0 <= i < |parts| && 0 <= j < |parts[i]| ==> parts[i][j] != c
    ensures forall k :: 0 <= k < |Join(parts, sep)| ==> Join(parts, sep)[k] != c
    decreases |parts|
  {
    if |parts| > 1 {
      JoinAvoids(parts[1..], sep, c);
      var tail := Join(parts[1..], sep);
      forall k | 0 <= k < |Join(parts, sep)| ensures Join(parts, sep)[k] != c {
        if k < |parts[0]| {
          assert Join(parts, sep)[k] == parts[0][k];
        } else if k > |parts[0]| {
          assert Join(parts, sep)[k] == tail[k - |parts[0]| - 1];
        }
      }
    }
  }
}
