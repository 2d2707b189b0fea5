/**
 * The accumulated results (js/result-table.js): a list of column names that
 * always starts with the source column, and one row per recognised image,
 * mapping column names to cell text. Rows can be deleted and cells edited.
 * The table's HTML rendering is left out except for the attribute escaping
 * that carries a column name into the page and back to the edit handler.
 */
module ResultTable {
  import opened Wrappers
  import opened Text
  import JsRuntime
  import opened OcrEngine
  import opened ExportManager

  /** The first column: the image file a row came from. */
  const SourceColumn: string := "소스"

  predicate Distinct(xs: seq<string>) {
    forall i, j :: 0 <= i < j < |xs| ==> xs[i] != xs[j]
  }

  function Labels(results: seq<OcrResult>): (ls: seq<string>)
    ensures |ls| == |results|
    ensures forall k :: 0 <= k < |results| ==> ls[k] == results[k].regionLabel
  {
    seq(|results|, k requires 0 <= k < |results| => results[k].regionLabel)
  }

  /** The column list after `addResults` meets `labels`: each label not yet present is pushed, in turn. */
  function Extend(columns: seq<string>, labels: seq<string>): seq<string>
    decreases |labels|
  {
    if labels == [] then columns
    else Extend(if labels[0] in columns then columns else columns + [labels[0]], labels[1..])
  }

  /**
   * Extending keeps the existing columns in place, adds exactly the labels
   * not already there, never introduces a duplicate, and adds at most one
   * column per label.
   */
  lemma {:induction false} ExtendSpec(columns: seq<string>, labels: seq<string>)
    ensures var r := Extend(columns, labels);
      && |columns| <= |r| <= |columns| + |labels|
      && r[..|columns|] == columns
      && (forall x :: x in r <==> x in columns || x in labels)
      && (Distinct(columns) ==> Distinct(r))
      && (forall i :: |columns| <= i < |r| ==> r[i] !in columns)
      && (forall i, j :: |columns| <= i < j < |r| ==> r[i] != r[j])
    decreases |labels|
  {
    if labels != [] {
      var next := if labels[0] in columns then columns else columns + [labels[0]];
      ExtendSpec(next, labels[1..]);
      assert next[..|columns|] == columns;
      assert labels == [labels[0]] + labels[1..];
      var r := Extend(columns, labels);
      assert r[..|columns|] == r[..|next|][..|columns|];
      if labels[0] !in columns {
        assert r[|columns|] == labels[0];
        forall i | |columns| <= i < |r|
          ensures r[i] !in columns
        {
          if i > |columns| {
            assert r[i] !in next;
          }
        }
      }
    }
  }

  /** New columns appear in the order their labels are first met. */
  lemma {:induction false} ExtendFirstSeenOrder(columns: seq<string>, labels: seq<string>, a: nat, b: nat)
    requires |columns| <= a < b < |Extend(columns, labels)|
    ensures Extend(columns, labels)[a] in labels && Extend(columns, labels)[b] in labels
    ensures FirstIndex(labels, Extend(columns, labels)[a]) < FirstIndex(labels, Extend(columns, labels)[b])
    decreases |labels|
  {
    ExtendSpec(columns, labels);
    var r := Extend(columns, labels);
    assert labels != [];
    var l := labels[0];
    var rest := labels[1..];
    assert labels == [l] + rest;
    if l in columns {
      ExtendFirstSeenOrder(columns, rest, a, b);
      FirstIndexTail(labels, r[a]);
      FirstIndexTail(labels, r[b]);
    } else {
      var next := columns + [l];
      ExtendSpec(next, rest);
      assert r[..|next|] == next;
      assert r[|columns|] == l;
      assert r[b] !in next;
      if a == |columns| {
        assert FirstIndex(labels, r[a]) == 0;
        FirstIndexTail(labels, r[b]);
      } else {
        ExtendFirstSeenOrder(next, rest, a, b);
        FirstIndexTail(labels, r[a]);
        FirstIndexTail(labels, r[b]);
      }
    }
  }

  /** One row: `row[label] = text` for each result in turn, the last one winning. */
  function Fill(row: Row, results: seq<OcrResult>): Row
    decreases |results|
  {
    if results == [] then row
    else Fill(row[results[0].regionLabel := results[0].text], results[1..])
  }

  /** The row `addResults` appends: the file name under the source column, then the results. */
  function RowOf(fileName: string, results: seq<OcrResult>): Row {
    Fill(map[SourceColumn := fileName], results)
  }

  /** The text of the last result with this label, read from the back. */
  function LastText(results: seq<OcrResult>, name: string): Option<string>
    decreases |results|
  {
    if results == [] then None
    else if results[|results| - 1].regionLabel == name then Some(results[|results| - 1].text)
    else LastText(results[..|results| - 1], name)
  }

  lemma {:induction false} FillSnoc(row: Row, results: seq<OcrResult>, r: OcrResult)
    ensures Fill(row, results + [r]) == Fill(row, results)[r.regionLabel := r.text]
    decreases |results|
  {
    if results == [] {
      assert [r][1..] == [];
    } else {
      assert (results + [r])[1..] == results[1..] + [r];
      FillSnoc(row[results[0].regionLabel := results[0].text], results[1..], r);
    }
  }

  lemma {:induction false} FillLookup(row: Row, results: seq<OcrResult>, k: string)
    ensures k in Fill(row, results) <==> LastText(results, k).Some? || k in row
    ensures LastText(results, k).Some? ==> Fill(row, results)[k] == LastText(results, k).value
    ensures LastText(results, k).None? && k in row ==> Fill(row, results)[k] == row[k]
    decreases |results|
  {
    if results != [] {
      var init := results[..|results| - 1];
      var last := results[|results| - 1];
      assert results == init + [last];
      FillSnoc(row, init, last);
      FillLookup(row, init, k);
    }
  }

  lemma {:induction false} LastTextSome(results: seq<OcrResult>, k: string)
    ensures LastText(results, k).Some? <==> k in Labels(results)
    decreases |results|
  {
    if results != [] {
      var init := results[..|results| - 1];
      LastTextSome(init, k);
      assert Labels(results) == Labels(init) + [results[|results| - 1].regionLabel];
    }
  }

  /**
   * The appended row has a cell for the source column and for every label,
   * and no other; each label's cell is the text of its last result; the source
   * cell is the file name unless a result is itself labelled with the source
   * column's name.
   */
  lemma RowOfSpec(fileName: string, results: seq<OcrResult>, k: string)
    ensures k in RowOf(fileName, results) <==> k == SourceColumn || k in Labels(results)
    ensures k in Labels(results) ==>
      LastText(results, k).Some? && RowOf(fileName, results)[k] == LastText(results, k).value
    ensures SourceColumn !in Labels(results) ==>
      SourceColumn in RowOf(fileName, results) && RowOf(fileName, results)[SourceColumn] == fileName
  {
    FillLookup(map[SourceColumn := fileName], results, k);
    FillLookup(map[SourceColumn := fileName], results, SourceColumn);
    LastTextSome(results, k);
    LastTextSome(results, SourceColumn);
  }

  // ---------------------------------------------------------------- attribute escaping

  /** `s.replace(/c/g, rep)`. */
  function ReplaceAll(s: string, c: char, rep: string): (r: string)
    ensures c !in rep ==> c !in r
    ensures forall d :: d != c && d !in rep ==> (d in r <==> d in s)
  {
    if s == [] then []
    else (if s[0] == c then rep else [s[0]]) + ReplaceAll(s[1..], c, rep)
  }

  /** `escapeAttr` as written: quotes become character references, `&` stays as it is. */
  function EscapeAttr(s: string): (r: string)
    ensures '"' !in r && '\'' !in r
  {
    ReplaceAll(ReplaceAll(s, '"', "&quot;"), '\'', "&#39;")
  }

  /**
   * What the page hands back from an attribute value: the character references
   * the escaping can produce are decoded and other text is kept. (HTML knows
   * further references; the lemmas here only meet these three.)
   */
  function DecodeAttr(s: string): string
    decreases |s|
  {
    if s == [] then []
    else if s[0] == '&' && |s| >= 6 && s[..6] == "&quot;" then ['"'] + DecodeAttr(s[6..])
    else if s[0] == '&' && |s| >= 5 && s[..5] == "&#39;" then ['\''] + DecodeAttr(s[5..])
    else if s[0] == '&' && |s| >= 5 && s[..5] == "&amp;" then ['&'] + DecodeAttr(s[5..])
    else [s[0]] + DecodeAttr(s[1..])
  }

  /**
   * A column named `&quot;` is escaped to itself and read back as `"`, so an
   * edit in that column is stored under another name.
   */
  lemma EscapeAttrLosesName()
    ensures EscapeAttr("&quot;") == "&quot;"
    ensures DecodeAttr(EscapeAttr("&quot;")) == "\""
  {
    QuoteFreeUnchanged("&quot;");
    DecodeQuoteReference();
  }

  /** Text without quotes is left alone by `escapeAttr`, whatever `&` it holds. */
  lemma QuoteFreeUnchanged(s: string)
    requires '"' !in s && '\'' !in s
    ensures EscapeAttr(s) == s
  {
    ReplaceAllAbsent(s, '"', "&quot;");
    ReplaceAllAbsent(s, '\'', "&#39;");
  }

  lemma DecodeQuoteReference()
    ensures DecodeAttr("&quot;") == "\""
  {
    var s := "&quot;";
    assert s[..6] == "&quot;" && s[6..] == [];
  }

  lemma {:induction false} ReplaceAllAbsent(s: string, c: char, rep: string)
    requires c !in s
    ensures ReplaceAll(s, c, rep) == s
  {
    if s != [] {
      ReplaceAllAbsent(s[1..], c, rep);
      assert s == [s[0]] + s[1..];
    }
  }

  function EscapeChar(c: char): string {
    if c == '&' then "&amp;"
    else if c == '"' then "&quot;"
    else if c == '\'' then "&#39;"
    else [c]
  }

  /** The escaping `escapeAttr` evidently intends: `&` is escaped as well, so every name survives. */
  function EscapeAttrStrict(s: string): (r: string)
    ensures '"' !in r && '\'' !in r
  {
    if s == [] then [] else EscapeChar(s[0]) + EscapeAttrStrict(s[1..])
  }

  lemma DecodeEscapedChar(c: char, rest: string)
    ensures DecodeAttr(EscapeChar(c) + rest) == [c] + DecodeAttr(rest)
  {
    var s := EscapeChar(c) + rest;
    if c == '&' {
      assert s[..5] == "&amp;" && s[5..] == rest;
      assert !(|s| >= 6 && s[..6] == "&quot;") by { assert s[1] == 'a'; }
    } else if c == '"' {
      assert s[..6] == "&quot;" && s[6..] == rest;
    } else if c == '\'' {
      assert s[..5] == "&#39;" && s[5..] == rest;
      assert !(|s| >= 6 && s[..6] == "&quot;") by { assert s[1] == '#'; }
    } else {
      assert s[0] == c && s[1..] == rest;
    }
  }

  /** Every column name comes back from the strict escaping unchanged. */
  lemma {:induction false} EscapeAttrStrictRoundTrip(s: string)
    ensures DecodeAttr(EscapeAttrStrict(s)) == s
    decreases |s|
  {
    if s != [] {
      EscapeAttrStrictRoundTrip(s[1..]);
      DecodeEscapedChar(s[0], EscapeAttrStrict(s[1..]));
      assert [s[0]] + s[1..] == s;
    }
  }

  class Table {
    var columns: seq<string>
    var rows: seq<Row>

    /** The source column comes first and no column appears twice. */
    predicate Valid()
      reads this
    {
      |columns| > 0 && columns[0] == SourceColumn && Distinct(columns)
    }

    constructor ()
      ensures Valid()
      ensures columns == [SourceColumn] && rows == []
    {
      columns := [SourceColumn];
      rows := [];
    }

    /** `addResults`: one new row for the image `fileName`, and a column for each new label. */
    method AddResults(fileName: string, results: seq<OcrResult>)
      requires Valid()
      modifies this
      ensures Valid()
      ensures columns == Extend(old(columns), Labels(results))
      ensures rows == old(rows) + [RowOf(fileName, results)]
    {
      ghost var labels := Labels(results);
      var row: Row := map[SourceColumn := fileName];
      var i := 0;
      while i < |results|
        invariant 0 <= i <= |results|
        invariant |columns| > 0 && columns[0] == SourceColumn && Distinct(columns)
        invariant Extend(columns, labels[i..]) == Extend(old(columns), labels)
        invariant Fill(row, results[i..]) == RowOf(fileName, results)
        invariant rows == old(rows)
      {
        assert labels[i..][0] == labels[i] && labels[i..][1..] == labels[i + 1..];
        assert results[i..][0] == results[i] && results[i..][1..] == results[i + 1..];
        var name := results[i].regionLabel;
        if name !in columns {
          columns := columns + [name];
        }
        row := row[name := results[i].text];
        i := i + 1;
      }
      assert labels[i..] == [] && results[i..] == [];
      rows := rows + [row];
    }

    /** The delete button of row `ri`: `rows.splice(ri, 1)`. */
    method DeleteRow(ri: int)
      requires Valid()
      modifies this
      ensures Valid()
      ensures rows == JsRuntime.RemoveAt(old(rows), ri) && columns == old(columns)
    {
      rows := JsRuntime.RemoveAt(rows, ri);
    }

    /**
     * `onCellEdit`: the cell of row `ri` under column `col` (the name the page
     * reports for that cell) becomes `text`; a row index that names no row
     * throws and nothing changes. The columns never change.
     */
    method EditCell(ri: int, col: string, text: string)
      requires Valid()
      modifies this
      ensures Valid()
      ensures columns == old(columns)
      ensures 0 <= ri < |old(rows)| ==> rows == old(rows)[ri := old(rows)[ri][col := text]]
      ensures !(0 <= ri < |old(rows)|) ==> rows == old(rows)
    {
      if 0 <= ri < |rows| {
        rows := rows[ri := rows[ri][col := text]];
      }
    }

    method Clear()
      modifies this
      ensures Valid()
      ensures columns == [SourceColumn] && rows == []
    {
      rows := [];
      columns := [SourceColumn];
    }

    method GetData() returns (cols: seq<string>, rs: seq<Row>)
      ensures cols == columns && rs == rows
    {
      cols, rs := columns, rows;
    }
  }
}
