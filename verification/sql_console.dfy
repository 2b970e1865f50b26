/**
 * CSV export of the SQL console: each cell is escaped as in section 2 of
 * RFC 4180 (a field holding a comma, a double quote or a line feed is
 * enclosed in double quotes, and a double quote inside it is written twice),
 * cells are joined with "," and records with a bare line feed.
 *
 * The escaping is specified by a reader that follows the same rules: it
 * reads every generated field, record and document back.
 */
module SqlConsole {
  import opened Wrappers
  import opened JsText

  /** A value in a query result row, as JSON delivers it: null, a string,
      an integer, or a fractional number carried with the text JavaScript's
      `String` gives it (for example "2.5"). */
  datatype Cell = Null | Text(text: string) | Int(n: int) | Real(shown: string)

  /** The columns and rows a query returned. */
  datatype QueryResult = QueryResult(columns: seq<string>, rows: seq<seq<Cell>>)

  /** `String(value ?? "")`: null becomes the empty string. */
  function CellText(c: Cell): string {
    match c
    case Null => ""
    case Text(s) => s
    case Int(n) => IntToString(n)
    case Real(shown) => shown
  }

  /** The texts of a row's cells, in order; a null cell gives "". */
  function CellTexts(row: seq<Cell>): (texts: seq<string>)
    ensures |texts| == |row|
    ensures forall i :: 0 <= i < |row| ==> texts[i] == CellText(row[i])
    ensures forall i :: 0 <= i < |row| && row[i].Null? ==> texts[i] == ""
  {
    if |row| == 0 then [] else [CellText(row[0])] + CellTexts(row[1..])
  }

  /** Whether a field must be enclosed in quotes. A carriage return alone
      does not count, unlike in RFC 4180. */
  predicate NeedsQuotes(s: string) {
    ',' in s || '"' in s || '\n' in s
  }

  /** `s.replace(/"/g, '""')`. */
  function DoubleQuotes(s: string): (r: string)
    ensures |r| >= |s|
  {
    if |s| == 0 then ""
    else (if s[0] == '"' then "\"\"" else [s[0]]) + DoubleQuotes(s[1..])
  }

  /** `escapeCsvField`: a field with a comma, quote or line feed is quoted
      with its quotes doubled; any other field is written as it is. */
  function EscapeCsvField(s: string): (e: string)
    ensures NeedsQuotes(s) ==> |e| >= 2 && e[0] == '"' && e[|e| - 1] == '"'
    ensures !NeedsQuotes(s) ==> e == s
  {
    if NeedsQuotes(s) then "\"" + DoubleQuotes(s) + "\"" else s
  }

  function EscapeAll(fields: seq<string>): (r: seq<string>)
    ensures |r| == |fields|
  {
    if |fields| == 0 then [] else [EscapeCsvField(fields[0])] + EscapeAll(fields[1..])
  }

  /** One CSV line: the escaped fields joined by commas. */
  function EscapeRow(fields: seq<string>): string {
    Join(EscapeAll(fields), ',')
  }

  /** `generateCsv`: "" without a result, else the header line, a line feed,
      and the rows joined by line feeds. */
  function GenerateCsv(result: Option<QueryResult>): (csv: string)
    ensures csv == "" <==> result.None?
  {
    match result
    case None => ""
    case Some(r) => EscapeRow(r.columns) + "\n" + Join(EscapeRowsOf(RowTexts(r.rows)), '\n')
  }

  // ---------------------------------------------------------------------
  // A reader for the format

  /** The inside of a quoted field: `""` stands for one quote, and a lone
      quote ends the field. Returns the text and what follows the closing
      quote. */
  function ReadQuoted(s: string): (res: (string, string))
    ensures |res.1| <= |s|
  {
    if |s| == 0 then ("", "")
    else if s[0] == '"' then
      if |s| >= 2 && s[1] == '"' then
        var (text, rest) := ReadQuoted(s[2..]);
        ("\"" + text, rest)
      else ("", s[1..])
    else
      var (text, rest) := ReadQuoted(s[1..]);
      ([s[0]] + text, rest)
  }

  /** An unquoted field runs up to the next comma or line feed. */
  function ReadPlain(s: string): (res: (string, string))
    ensures |res.1| <= |s|
  {
    if |s| == 0 then ("", "")
    else if s[0] == ',' || s[0] == '\n' then ("", s)
    else
      var (text, rest) := ReadPlain(s[1..]);
      ([s[0]] + text, rest)
  }

  function ReadField(s: string): (res: (string, string))
    ensures |res.1| <= |s|
  {
    if |s| > 0 && s[0] == '"' then ReadQuoted(s[1..]) else ReadPlain(s)
  }

  /** The fields of one record, and the text from its terminating line feed
      (or from a stray character after a quoted field) on. */
  function ReadRecord(s: string): (res: (seq<string>, string))
    ensures |res.1| <= |s|
    decreases |s|
  {
    var (field, rest) := ReadField(s);
    if |rest| > 0 && rest[0] == ',' then
      var (fields, rest2) := ReadRecord(rest[1..]);
      ([field] + fields, rest2)
    else ([field], rest)
  }

  /** The records of a document; a final line feed ends the last record. */
  function ReadCsv(s: string): seq<seq<string>>
    decreases |s|
  {
    if |s| == 0 then []
    else
      var (fields, rest) := ReadRecord(s);
      if |rest| > 0 && rest[0] == '\n' then [fields] + ReadCsv(rest[1..]) else [fields]
  }

  /** What may follow a field: nothing, a comma or a line feed. */
  predicate FieldEnd(rest: string) {
    |rest| == 0 || rest[0] == ',' || rest[0] == '\n'
  }

  lemma {:induction false} ReadQuotedDoubled(t: string, rest: string)
    requires |rest| == 0 || rest[0] != '"'
    ensures ReadQuoted(DoubleQuotes(t) + "\"" + rest) == (t, rest)
  {
    var s := DoubleQuotes(t) + "\"" + rest;
    if |t| == 0 {
      assert s == "\"" + rest;
      assert s[1..] == rest;
    } else {
      ReadQuotedDoubled(t[1..], rest);
      var tail := DoubleQuotes(t[1..]) + "\"" + rest;
      if t[0] == '"' {
        assert s == "\"\"" + tail;
        assert s[2..] == tail;
      } else {
        assert s == [t[0]] + tail;
        assert s[1..] == tail;
      }
      assert t == [t[0]] + t[1..];
    }
  }

  lemma {:induction false} ReadPlainVerbatim(t: string, rest: string)
    requires ',' !in t && '\n' !in t && FieldEnd(rest)
    ensures ReadPlain(t + rest) == (t, rest)
  {
    if |t| == 0 {
      assert t + rest == rest;
    } else {
      assert (t + rest)[1..] == t[1..] + rest;
      ReadPlainVerbatim(t[1..], rest);
      assert t == [t[0]] + t[1..];
    }
  }

  /** Reading an escaped field back gives the original text and stops where
      the field ends: the outer quotes are removed and doubled quotes halved. */
  lemma ReadEscapedField(t: string, rest: string)
    requires FieldEnd(rest)
    ensures ReadField(EscapeCsvField(t) + rest) == (t, rest)
  {
    var s := EscapeCsvField(t) + rest;
    if NeedsQuotes(t) {
      assert s == "\"" + (DoubleQuotes(t) + "\"" + rest);
      assert s[0] == '"' && s[1..] == DoubleQuotes(t) + "\"" + rest;
      assert ReadField(s) == ReadQuoted(s[1..]);
      ReadQuotedDoubled(t, rest);
    } else {
      assert s == t + rest;
      if |t| == 0 {
        assert s == rest;
      } else {
        assert s[0] == t[0];
        assert t[0] in t;
      }
      assert !(|s| > 0 && s[0] == '"');
      assert ReadField(s) == ReadPlain(s);
      ReadPlainVerbatim(t, rest);
    }
  }

  /** Escaping is undone by reading: every string survives a round trip. */
  lemma EscapeRoundTrip(t: string)
    ensures ReadField(EscapeCsvField(t)) == (t, "")
  {
    ReadEscapedField(t, "");
    assert EscapeCsvField(t) + "" == EscapeCsvField(t);
  }

  /** A line of escaped fields reads back as those fields. */
  lemma {:induction false} ReadEscapedRow(fields: seq<string>, rest: string)
    requires |fields| >= 1
    requires |rest| == 0 || rest[0] == '\n'
    ensures ReadRecord(EscapeRow(fields) + rest) == (fields, rest)
  {
    var e := EscapeAll(fields);
    if |fields| == 1 {
      assert EscapeRow(fields) == EscapeCsvField(fields[0]);
      ReadEscapedField(fields[0], rest);
      assert fields == [fields[0]];
    } else {
      assert e[1..] == EscapeAll(fields[1..]);
      var tail := EscapeRow(fields[1..]) + rest;
      assert EscapeRow(fields) + rest == EscapeCsvField(fields[0]) + ("," + tail);
      ReadEscapedField(fields[0], "," + tail);
      assert ("," + tail)[1..] == tail;
      ReadEscapedRow(fields[1..], rest);
      assert fields == [fields[0]] + fields[1..];
    }
  }

  /** Escaped rows joined by line feeds read back as those rows, provided the
      last line is not empty (an empty last line reads as a final line feed). */
  lemma {:induction false} ReadEscapedRows(rows: seq<seq<string>>)
    requires forall i :: 0 <= i < |rows| ==> |rows[i]| >= 1
    requires |rows| > 0 ==> rows[|rows| - 1] != [""]
    ensures ReadCsv(Join(EscapeRowsOf(rows), '\n')) == rows
  {
    var lines := EscapeRowsOf(rows);
    if |rows| == 1 {
      var s := EscapeRow(rows[0]);
      ReadEscapedRow(rows[0], "");
      assert s + "" == s;
      EscapeRowEmpty(rows[0]);
    } else if |rows| > 1 {
      assert lines[1..] == EscapeRowsOf(rows[1..]);
      var tail := Join(lines[1..], '\n');
      ReadEscapedRow(rows[0], "\n" + tail);
      assert Join(lines, '\n') == EscapeRow(rows[0]) + ("\n" + tail);
      assert ("\n" + tail)[1..] == tail;
      ReadEscapedRows(rows[1..]);
      assert rows == [rows[0]] + rows[1..];
    }
  }

  function EscapeRowsOf(rows: seq<seq<string>>): (r: seq<string>)
    ensures |r| == |rows|
  {
    if |rows| == 0 then [] else [EscapeRow(rows[0])] + EscapeRowsOf(rows[1..])
  }

  /** A line is empty only for the row made of one empty field. */
  lemma EscapeRowEmpty(fields: seq<string>)
    requires |fields| >= 1
    ensures EscapeRow(fields) == "" <==> fields == [""]
  {
    if |fields| == 1 {
      assert EscapeRow(fields) == EscapeCsvField(fields[0]);
    } else {
      assert |EscapeRow(fields)| > 0;
    }
  }

  function RowTexts(rows: seq<seq<Cell>>): (r: seq<seq<string>>)
    ensures |r| == |rows|
    ensures forall i :: 0 <= i < |rows| ==> r[i] == CellTexts(rows[i])
  {
    if |rows| == 0 then [] else [CellTexts(rows[0])] + RowTexts(rows[1..])
  }

  /** The exported document is the header line, a line feed, and the body. */
  lemma GeneratedLines(result: QueryResult)
    ensures GenerateCsv(Some(result))
      == EscapeRow(result.columns) + ("\n" + Join(EscapeRowsOf(RowTexts(result.rows)), '\n'))
  {
  }

  /** The exported document reads back as the header followed by the rows'
      texts, whenever every line has a field and the last row is not one
      empty cell. */
  lemma ReadGeneratedCsv(result: QueryResult)
    requires |result.columns| >= 1
    requires forall i :: 0 <= i < |result.rows| ==> |result.rows[i]| >= 1
    requires |result.rows| > 0 ==> CellTexts(result.rows[|result.rows| - 1]) != [""]
    ensures ReadCsv(GenerateCsv(Some(result))) == [result.columns] + RowTexts(result.rows)
  {
    RowTextsLengths(result.rows);
    ReadHeaderAndRows(result.columns, RowTexts(result.rows));
    GeneratedLines(result);
  }

  /** Each row's texts are as many as its cells. */
  lemma RowTextsLengths(rows: seq<seq<Cell>>)
    ensures forall i :: 0 <= i < |rows| ==> |RowTexts(rows)[i]| == |rows[i]|
  {
  }

  /** A header line, a line feed and the escaped rows read back as the
      header and the rows. */
  lemma ReadHeaderAndRows(columns: seq<string>, rows: seq<seq<string>>)
    requires |columns| >= 1
    requires forall i :: 0 <= i < |rows| ==> |rows[i]| >= 1
    requires |rows| > 0 ==> rows[|rows| - 1] != [""]
    ensures ReadCsv(EscapeRow(columns) + ("\n" + Join(EscapeRowsOf(rows), '\n'))) == [columns] + rows
  {
    var body := Join(EscapeRowsOf(rows), '\n');
    var csv := EscapeRow(columns) + ("\n" + body);
    ReadEscapedRow(columns, "\n" + body);
    ReadCsvLine(csv, columns, body);
    ReadEscapedRows(rows);
  }

  /** A record ended by a line feed is the first of the document's records. */
  lemma ReadCsvLine(s: string, fields: seq<string>, rest: string)
    requires |s| > 0 && ReadRecord(s) == (fields, "\n" + rest)
    ensures ReadCsv(s) == [fields] + ReadCsv(rest)
  {
    assert ("\n" + rest)[1..] == rest;
  }

  /** A result without rows and a result whose single row is one null cell
      export to the same text: the header followed by a line feed. */
  lemma EmptyRowsIndistinguishable(columns: seq<string>)
    ensures GenerateCsv(Some(QueryResult(columns, []))) == GenerateCsv(Some(QueryResult(columns, [[Null]])))
    ensures GenerateCsv(Some(QueryResult(columns, []))) == EscapeRow(columns) + "\n"
  {
    assert CellTexts([Null]) == [""];
    assert RowTexts([[Null]]) == [[""]];
    assert EscapeRowsOf([[""]]) == [""];
  }
}
