/**
 * The CSV text of the result table (js/export-manager.js, `exportCSV`): a
 * header line of column names, then one line per row with the row's cell for
 * each column, every field quoted as in section 2 (rules 6 and 7) of RFC 4180,
 * lines joined by "\n" instead of the CRLF of rule 1, and a leading U+FEFF.
 * A reader for exactly this quoted form states what the text means: it gives
 * the header and the cells back.
 */
module ExportManager {
  import opened Wrappers
  import opened Text

  /** A result-table row: column name to cell text. */
  type Row = map<string, string>

  const Bom: char := '\U{FEFF}'

  /** `s.replace(/"/g, '""')`. */
  function DoubleQuotes(s: string): (r: string)
  {
    if s == [] then []
    else (if s[0] == '"' then "\"\"" else [s[0]]) + DoubleQuotes(s[1..])
  }

  /** Doubling adds one character per quote, so the text grows exactly when it holds a quote. */
  lemma {:induction false} DoubleQuotesLength(s: string)
    ensures |DoubleQuotes(s)| == |s| + multiset(s)['"']
    ensures '"' in s <==> |DoubleQuotes(s)| > |s|
  {
    if s != [] {
      DoubleQuotesLength(s[1..]);
      assert s == [s[0]] + s[1..];
      assert multiset(s) == multiset{s[0]} + multiset(s[1..]);
    }
  }

  /** One field: the text with its quotes doubled, between double quotes. */
  function Quote(s: string): (r: string)
    ensures |r| >= 2 && r[0] == '"' && r[|r| - 1] == '"'
  {
    "\"" + DoubleQuotes(s) + "\""
  }

  function Quoted(fields: seq<string>): (r: seq<string>)
    ensures |r| == |fields|
    ensures forall k :: 0 <= k < |fields| ==> r[k] == Quote(fields[k])
  {
    seq(|fields|, k requires 0 <= k < |fields| => Quote(fields[k]))
  }

  /** `fields.map(quote).join(',')`. */
  function CsvLine(fields: seq<string>): string {
    Join(Quoted(fields), ",")
  }

  /** `row[c] || ''`: a missing cell is empty. */
  function Cell(row: Row, c: string): string {
    if c in row then row[c] else ""
  }

  function Cells(row: Row, columns: seq<string>): (r: seq<string>)
    ensures |r| == |columns|
    ensures forall k :: 0 <= k < |columns| ==> r[k] == Cell(row, columns[k])
  {
    seq(|columns|, k requires 0 <= k < |columns| => Cell(row, columns[k]))
  }

  /** The records of the file: the header, then the cells of each row. */
  function Records(columns: seq<string>, rows: seq<Row>): (r: seq<seq<string>>)
    ensures |r| == |rows| + 1 && r[0] == columns
    ensures forall i :: 0 <= i < |rows| ==> r[i + 1] == Cells(rows[i], columns)
  {
    [columns] + seq(|rows|, i requires 0 <= i < |rows| => Cells(rows[i], columns))
  }

  function Lines(records: seq<seq<string>>): (r: seq<string>)
    ensures |r| == |records|
    ensures forall i :: 0 <= i < |records| ==> r[i] == CsvLine(records[i])
  {
    seq(|records|, i requires 0 <= i < |records| => CsvLine(records[i]))
  }

  /** `exportCSV`: nothing when there are no rows, otherwise the BOM and the lines. */
  function ExportCsv(columns: seq<string>, rows: seq<Row>): Option<string> {
    if rows == [] then None
    else Some([Bom] + Join(Lines(Records(columns, rows)), "\n"))
  }

  // ---------------------------------------------------------------- reading it back

  /** Prepends a character to the text part of a partial parse. */
  function Prepend(c: char, p: Option<(string, string)>): Option<(string, string)> {
    match p
    case None => None
    case Some((t, rest)) => Some(([c] + t, rest))
  }

  /**
   * The inside of a quoted field, after its opening quote: `""` stands for one
   * quote, a lone `"` closes the field. Gives the text and what follows.
   */
  function Unquote(s: string): Option<(string, string)>
    decreases |s|
  {
    if s == [] then None
    else if s[0] == '"' then
      if |s| > 1 && s[1] == '"' then Prepend('"', Unquote(s[2..])) else Some(([], s[1..]))
    else Prepend(s[0], Unquote(s[1..]))
  }

  /** One quoted field. */
  function ReadField(s: string): (r: Option<(string, string)>)
    ensures r.Some? ==> |r.value.1| < |s|
  {
    if s != [] && s[0] == '"' then
      var u := Unquote(s[1..]);
      UnquoteShorter(s[1..]);
      u
    else None
  }

  lemma {:induction false} UnquoteShorter(s: string)
    ensures Unquote(s).Some? ==> |Unquote(s).value.1| < |s|
    decreases |s|
  {
    if s != [] && s[0] == '"' {
      if |s| > 1 && s[1] == '"' {
        UnquoteShorter(s[2..]);
      }
    } else if s != [] {
      UnquoteShorter(s[1..]);
    }
  }

  /** Comma-separated quoted fields up to the end of a line. */
  function ReadFields(s: string): (r: Option<(seq<string>, string)>)
    ensures r.Some? ==> |r.value.1| < |s|
    decreases |s|
  {
    match ReadField(s)
    case None => None
    case Some((f, rest)) =>
      if rest != [] && rest[0] == ',' then
        match ReadFields(rest[1..])
        case None => None
        case Some((fs, tail)) => Some(([f] + fs, tail))
      else Some(([f], rest))
  }

  /** Lines of quoted fields separated by "\n", to the end of the text. */
  function ReadRecords(s: string): Option<seq<seq<string>>>
    decreases |s|
  {
    match ReadFields(s)
    case None => None
    case Some((fs, rest)) =>
      if rest == [] then Some([fs])
      else if rest[0] == '\n' then
        match ReadRecords(rest[1..])
        case None => None
        case Some(more) => Some([fs] + more)
      else None
  }

  /** A field's doubled text followed by the closing quote reads back as the text. */
  lemma {:induction false} UnquoteDoubled(x: string, rest: string)
    requires rest == [] || rest[0] != '"'
    ensures Unquote(DoubleQuotes(x) + "\"" + rest) == Some((x, rest))
    decreases |x|
  {
    if x == [] {
      assert DoubleQuotes(x) + "\"" + rest == ['"'] + rest;
    } else {
      UnquoteDoubled(x[1..], rest);
      UnquoteDoubledStep(x, rest);
    }
  }

  /** One character more in front: a quote is read back from its doubled form, any other character as itself. */
  lemma UnquoteDoubledStep(x: string, rest: string)
    requires x != []
    requires Unquote(DoubleQuotes(x[1..]) + "\"" + rest) == Some((x[1..], rest))
    ensures Unquote(DoubleQuotes(x) + "\"" + rest) == Some((x, rest))
  {
    var tail := DoubleQuotes(x[1..]) + "\"" + rest;
    if x[0] == '"' {
      DoubledQuoteFront(x, rest);
      UnquoteEscapedQuote(tail);
    } else {
      DoubledPlainFront(x, rest);
      UnquotePlainChar(x[0], tail);
    }
    assert [x[0]] + x[1..] == x;
  }

  lemma DoubledQuoteFront(x: string, rest: string)
    requires x != [] && x[0] == '"'
    ensures DoubleQuotes(x) + "\"" + rest == "\"\"" + (DoubleQuotes(x[1..]) + "\"" + rest)
  {
  }

  lemma DoubledPlainFront(x: string, rest: string)
    requires x != [] && x[0] != '"'
    ensures DoubleQuotes(x) + "\"" + rest == [x[0]] + (DoubleQuotes(x[1..]) + "\"" + rest)
  {
  }

  lemma UnquoteEscapedQuote(tail: string)
    ensures Unquote("\"\"" + tail) == Prepend('"', Unquote(tail))
  {
    assert ("\"\"" + tail)[2..] == tail;
  }

  lemma UnquotePlainChar(c: char, tail: string)
    requires c != '"'
    ensures Unquote([c] + tail) == Prepend(c, Unquote(tail))
  {
    assert ([c] + tail)[1..] == tail;
  }

  /** A quoted field reads back as its text. */
  lemma QuoteRead(x: string, rest: string)
    requires rest == [] || rest[0] != '"'
    ensures ReadField(Quote(x) + rest) == Some((x, rest))
  {
    var s := Quote(x) + rest;
    assert s == ['"'] + (DoubleQuotes(x) + "\"" + rest);
    assert s[0] == '"' && s[1..] == DoubleQuotes(x) + "\"" + rest;
    UnquoteDoubled(x, rest);
  }

  /** A line of quoted fields reads back as its fields. */
  lemma {:induction false} CsvLineRead(fields: seq<string>, rest: string)
    requires fields != []
    requires rest == [] || rest[0] == '\n'
    ensures ReadFields(CsvLine(fields) + rest) == Some((fields, rest))
    decreases |fields|
  {
    if |fields| == 1 {
      assert CsvLine(fields) == Quote(fields[0]);
      QuoteRead(fields[0], rest);
      assert [fields[0]] == fields;
    } else {
      var tail := CsvLine(fields[1..]) + rest;
      CsvLineCons(fields, rest);
      CsvLineRead(fields[1..], rest);
      ReadFieldsCons(fields[0], tail, fields[1..], rest);
      assert [fields[0]] + fields[1..] == fields;
    }
  }

  /** A line of two or more fields is the first quoted field, a comma, and the line of the others. */
  lemma CsvLineCons(fields: seq<string>, rest: string)
    requires |fields| > 1
    ensures CsvLine(fields) + rest == Quote(fields[0]) + ([','] + (CsvLine(fields[1..]) + rest))
  {
    assert Quoted(fields[1..]) == Quoted(fields)[1..];
    assert CsvLine(fields) == Quote(fields[0]) + ([','] + CsvLine(fields[1..]));
  }

  /** A quoted field, a comma, then fields that read back: the field joins them. */
  lemma ReadFieldsCons(f: string, tail: string, fs: seq<string>, rest: string)
    requires ReadFields(tail) == Some((fs, rest))
    ensures ReadFields(Quote(f) + ([','] + tail)) == Some(([f] + fs, rest))
  {
    QuoteRead(f, [','] + tail);
    assert ([','] + tail)[1..] == tail;
  }

  /** Lines of quoted fields joined by "\n" read back as the records. */
  lemma {:induction false} LinesRead(records: seq<seq<string>>)
    requires records != []
    requires forall i :: 0 <= i < |records| ==> records[i] != []
    ensures ReadRecords(Join(Lines(records), "\n")) == Some(records)
    decreases |records|
  {
    if |records| == 1 {
      CsvLineRead(records[0], []);
      assert CsvLine(records[0]) + [] == CsvLine(records[0]);
      assert Join(Lines(records), "\n") == CsvLine(records[0]);
      assert records == [records[0]];
    } else {
      var tail := Join(Lines(records[1..]), "\n");
      LinesCons(records);
      LinesRead(records[1..]);
      CsvLineRead(records[0], ['\n'] + tail);
      ReadRecordsCons(records[0], tail, records[1..]);
      assert [records[0]] + records[1..] == records;
    }
  }

  /** Two or more records: the first line, a line break, and the lines of the others. */
  lemma LinesCons(records: seq<seq<string>>)
    requires |records| > 1
    ensures Join(Lines(records), "\n") == CsvLine(records[0]) + (['\n'] + Join(Lines(records[1..]), "\n"))
  {
    assert Lines(records[1..]) == Lines(records)[1..];
  }

  /** A line that reads back up to a line break, then records that read back: the line joins them. */
  lemma ReadRecordsCons(fs: seq<string>, tail: string, more: seq<seq<string>>)
    requires ReadFields(CsvLine(fs) + (['\n'] + tail)) == Some((fs, ['\n'] + tail))
    requires ReadRecords(tail) == Some(more)
    ensures ReadRecords(CsvLine(fs) + (['\n'] + tail)) == Some([fs] + more)
  {
    assert (['\n'] + tail)[1..] == tail;
  }

  /**
   * The export exists exactly when there are rows; it starts with the BOM and
   * the rest reads back as the header and, for every row, its cell under each
   * column, an absent cell as empty text.
   */
  lemma ExportRoundTrip(columns: seq<string>, rows: seq<Row>)
    requires columns != []
    ensures ExportCsv(columns, rows).Some? <==> rows != []
    ensures rows != [] ==>
      var out := ExportCsv(columns, rows).value;
      && out != [] && out[0] == Bom
      && ReadRecords(out[1..]) == Some(Records(columns, rows))
  {
    if rows != [] {
      var recs := Records(columns, rows);
      LinesRead(recs);
      var out := ExportCsv(columns, rows).value;
      assert out[1..] == Join(Lines(recs), "\n");
    }
  }

  /** Every field of the text is quoted: each line starts and ends with a quote. */
  lemma QuotedLine(fields: seq<string>)
    requires fields != []
    ensures var l := CsvLine(fields); l != [] && l[0] == '"' && l[|l| - 1] == '"'
  {
    QuotedLineEnds(Quoted(fields));
  }

  lemma {:induction false} QuotedLineEnds(parts: seq<string>)
    requires parts != []
    requires forall k :: 0 <= k < |parts| ==> |parts[k]| >= 2 && parts[k][0] == '"' && parts[k][|parts[k]| - 1] == '"'
    ensures var l := Join(parts, ","); l != [] && l[0] == '"' && l[|l| - 1] == '"'
    decreases |parts|
  {
    if |parts| > 1 {
      QuotedLineEnds(parts[1..]);
    }
  }
}
