/** The campaign auditor's naive CSV reader: no quoting, one record per line,
    fields separated by commas and trimmed. */
module Csv {
  import opened Wrappers
  import opened Seqs
  import opened Strings

  /** A line with one trailing carriage return removed, if it has one. */
  function DropCr(line: string): (r: string)
    ensures |line| > 0 && line[|line| - 1] == '\r' ==> r + "\r" == line
    ensures !(|line| > 0 && line[|line| - 1] == '\r') ==> r == line
  {
    if |line| > 0 && line[|line| - 1] == '\r' then line[..|line| - 1] else line
  }

  /** `split(/\r?\n/)`: the text is cut at every line feed, and a carriage
      return directly before a line feed belongs to the break. */
  function SplitLines(s: string): (r: seq<string>)
    ensures |r| == |Split(s, '\n')| >= 1
  {
    var pieces := Split(s, '\n');
    seq(|pieces|, i requires 0 <= i < |pieces| =>
      if i < |pieces| - 1 then DropCr(pieces[i]) else pieces[i])
  }

  predicate EndsWithCr(line: string) {
    |line| > 0 && line[|line| - 1] == '\r'
  }

  /** Lines that a text can be cut back into: none holds a line feed, and
      none but the last ends in a carriage return. */
  predicate SplittableLines(lines: seq<string>) {
    && |lines| >= 1
    && (forall k :: 0 <= k < |lines| ==> '\n' !in lines[k])
    && (forall k :: 0 <= k < |lines| - 1 ==> !EndsWithCr(lines[k]))
  }

  /** The text with every line break written as LF, or as CRLF where `crlf` says so. */
  function WithBreaks(lines: seq<string>, crlf: seq<bool>): (r: seq<string>)
    requires |crlf| == |lines| - 1
    ensures |r| == |lines|
  {
    seq(|lines|, i requires 0 <= i < |lines| =>
      if i < |lines| - 1 && crlf[i] then lines[i] + "\r" else lines[i])
  }

  /** Whatever mix of LF and CRLF breaks joins the lines, splitting gives them back. */
  lemma SplitLinesMixedBreaks(lines: seq<string>, crlf: seq<bool>)
    requires SplittableLines(lines) && |crlf| == |lines| - 1
    ensures SplitLines(Join(WithBreaks(lines, crlf), '\n')) == lines
  {
    var w := WithBreaks(lines, crlf);
    forall k | 0 <= k < |w| ensures '\n' !in w[k] {
      assert '\n' !in lines[k];
    }
    SplitJoin(w, '\n');
    var r := SplitLines(Join(w, '\n'));
    forall i | 0 <= i < |lines| ensures r[i] == lines[i] {
      if i < |lines| - 1 && crlf[i] {
        assert w[i] == lines[i] + "\r";
        assert w[i][..|w[i]| - 1] == lines[i];
      }
    }
  }

  /** Lines joined with plain LF breaks split back into the same lines. */
  lemma SplitLinesLf(lines: seq<string>)
    requires SplittableLines(lines)
    ensures SplitLines(Join(lines, '\n')) == lines
  {
    var crlf := seq(|lines| - 1, i => false);
    assert WithBreaks(lines, crlf) == lines;
    SplitLinesMixedBreaks(lines, crlf);
  }

  /** A parsed record: header name to cell; `None` is JavaScript's `undefined`. */
  type Row = map<string, Option<string>>

  /** `cols[i]`, or `undefined` past the end of the record. */
  function Column(cols: seq<string>, i: int): (r: Option<string>)
    requires 0 <= i
    ensures i < |cols| <==> r.Some?
    ensures i < |cols| ==> r.value == cols[i]
  {
    if i < |cols| then Some(cols[i]) else None
  }

  /** `r[key]`: a header the table lacks reads as `undefined`. */
  function Field(row: Row, key: string): Option<string> {
    if key in row then row[key] else None
  }

  /** Header `i` is not repeated later in the header line. */
  predicate LastOccurrence(headers: seq<string>, i: int) {
    0 <= i < |headers| && forall j :: i < j < |headers| ==> headers[j] != headers[i]
  }

  /** `headers.forEach((h, i) => obj[h] = cols[i])`: assignments in header
      order, so a repeated header keeps its later column. */
  function RowOf(headers: seq<string>, cols: seq<string>): (r: Row)
    ensures forall h :: h in r <==> h in headers
    ensures forall i :: LastOccurrence(headers, i) ==> r[headers[i]] == Column(cols, i)
    decreases |headers|
  {
    if headers == [] then map[]
    else
      var n := |headers| - 1;
      var init := RowOf(headers[..n], cols);
      var r := init[headers[n] := Column(cols, n)];
      RowOfSnoc(headers, cols, init, r);
      r
  }

  lemma RowOfSnoc(headers: seq<string>, cols: seq<string>, init: Row, r: Row)
    requires |headers| > 0
    requires var n := |headers| - 1;
             && (forall h :: h in init <==> h in headers[..n])
             && (forall i :: LastOccurrence(headers[..n], i) ==> init[headers[..n][i]] == Column(cols, i))
             && r == init[headers[n] := Column(cols, n)]
    ensures forall h :: h in r <==> h in headers
    ensures forall i :: LastOccurrence(headers, i) ==> r[headers[i]] == Column(cols, i)
  {
    var n := |headers| - 1;
    assert headers == headers[..n] + [headers[n]];
    forall i | LastOccurrence(headers, i) ensures r[headers[i]] == Column(cols, i) {
      if i < n {
        assert headers[i] != headers[n];
        assert LastOccurrence(headers[..n], i);
        assert headers[..n][i] == headers[i];
      }
    }
  }

  /** Each header reads the column under its last occurrence: missing columns
      read as `undefined`, and columns beyond the headers are never read. */
  lemma RowReadsLastColumn(headers: seq<string>, cols: seq<string>, i: int)
    requires LastOccurrence(headers, i)
    ensures Field(RowOf(headers, cols), headers[i]) == Column(cols, i)
    ensures i >= |cols| ==> Field(RowOf(headers, cols), headers[i]) == None
  {
  }

  /** The fields of one line, split at commas and trimmed. */
  function Fields(line: string): (r: seq<string>)
    ensures |r| == |Split(line, ',')| >= 1
  {
    Map(Trim, Split(line, ','))
  }

  datatype Table = Table(headers: seq<string>, rows: seq<Row>)

  /** The record one line holds, read against the header line. */
  function Record(headers: seq<string>, line: string): Row {
    RowOf(headers, Fields(line))
  }

  /** The table read from lines: the first names the columns, and every
      further line is one record. */
  function ParseLines(lines: seq<string>): (t: Table)
    requires |lines| >= 1
    ensures t.headers == Fields(lines[0])
    ensures |t.rows| == |lines| - 1
    ensures forall i :: 0 <= i < |lines| - 1 ==> t.rows[i] == Record(t.headers, lines[i + 1])
  {
    var headers := Fields(lines[0]);
    Table(headers, Records(headers, lines[1..]))
  }

  /** One record per line. */
  function Records(headers: seq<string>, lines: seq<string>): (r: seq<Row>)
    ensures |r| == |lines|
    ensures forall i :: 0 <= i < |lines| ==> r[i] == Record(headers, lines[i])
  {
    seq(|lines|, i requires 0 <= i < |lines| => Record(headers, lines[i]))
  }

  /** `parseCSV`: the whole text is trimmed, cut into lines and read. There is
      always a header line; every record has exactly the headers as keys; and
      a text of one line only names the columns. */
  function ParseCsv(text: string): (t: Table)
    ensures |t.headers| >= 1
    ensures forall i, h :: 0 <= i < |t.rows| ==> (h in t.rows[i] <==> h in t.headers)
    ensures '\n' !in Trim(text) ==> t.rows == [] && t.headers == Fields(Trim(text))
  {
    var s := Trim(text);
    assert '\n' !in s ==> SplitLines(s) == [s] by {
      if '\n' !in s {
        SplitJoin([s], '\n');
        assert Join([s], '\n') == s;
      }
    }
    ParseLines(SplitLines(s))
  }

  /** A cell a writer can emit unchanged: non-empty, free of commas and line
      feeds, and not starting or ending with whitespace. */
  predicate CleanCell(c: string) {
    && |c| > 0 && ',' !in c && '\n' !in c
    && !IsWs(c[0]) && !IsWs(c[|c| - 1])
  }

  predicate CleanRecord(cells: seq<string>) {
    |cells| >= 1 && forall k :: 0 <= k < |cells| ==> CleanCell(cells[k])
  }

  /** One line of a written table. */
  function RenderLine(cells: seq<string>): string {
    Join(cells, ',')
  }

  /** The lines of a written table: the header line, then one per record. */
  function RenderLines(headers: seq<string>, records: seq<seq<string>>): (r: seq<string>)
    ensures |r| == |records| + 1
    ensures r[0] == RenderLine(headers)
    ensures forall k :: 0 <= k < |records| ==> r[k + 1] == RenderLine(records[k])
  {
    [RenderLine(headers)] + Map(RenderLine, records)
  }

  /** A header line and records, written one per line with LF breaks. */
  function Render(headers: seq<string>, records: seq<seq<string>>): string {
    Join(RenderLines(headers, records), '\n')
  }

  /** A clean line's fields are its cells. */
  lemma FieldsOfRenderedLine(cells: seq<string>)
    requires CleanRecord(cells)
    ensures Fields(RenderLine(cells)) == cells
  {
    SplitJoin(cells, ',');
    var f := Fields(RenderLine(cells));
    forall k | 0 <= k < |cells| ensures f[k] == cells[k] {
      TrimNoEdgeWs(cells[k]);
    }
  }

  /** A clean line holds no line feed and has no whitespace at either end. */
  lemma RenderedLineEdges(cells: seq<string>)
    requires CleanRecord(cells)
    ensures var l := RenderLine(cells);
            && '\n' !in l && |l| > 0 && !IsWs(l[0]) && !IsWs(l[|l| - 1])
  {
    JoinAvoids(cells, ',', '\n');
    JoinFirst(cells, ',');
    JoinLast(cells, ',');
  }

  /** Splitting a written table gives back its lines. */
  lemma LinesOfRender(headers: seq<string>, records: seq<seq<string>>)
    requires CleanRecord(headers)
    requires forall r :: 0 <= r < |records| ==> CleanRecord(records[r])
    ensures SplitLines(Trim(Render(headers, records))) == RenderLines(headers, records)
  {
    var lines := RenderLines(headers, records);
    RenderUntrimmed(headers, records);
    RenderedLinesEdges(headers, records);
    assert SplittableLines(lines) by {
      assert IsWs('\r');
    }
    SplitLinesLf(lines);
  }

  /** A written table has no whitespace at either end for `trim` to remove. */
  lemma RenderUntrimmed(headers: seq<string>, records: seq<seq<string>>)
    requires CleanRecord(headers)
    requires forall r :: 0 <= r < |records| ==> CleanRecord(records[r])
    ensures Trim(Render(headers, records)) == Render(headers, records)
  {
    var lines := RenderLines(headers, records);
    RenderedLinesEdges(headers, records);
    JoinFirst(lines, '\n');
    JoinLast(lines, '\n');
    TrimNoEdgeWs(Render(headers, records));
  }

  lemma RenderedLinesEdges(headers: seq<string>, records: seq<seq<string>>)
    requires CleanRecord(headers)
    requires forall r :: 0 <= r < |records| ==> CleanRecord(records[r])
    ensures var lines := RenderLines(headers, records);
            forall k :: 0 <= k < |lines| ==>
              && '\n' !in lines[k] && |lines[k]| > 0
              && !IsWs(lines[k][0]) && !IsWs(lines[k][|lines[k]| - 1])
  {
    var lines := RenderLines(headers, records);
    forall k | 0 <= k < |lines|
      ensures '\n' !in lines[k] && |lines[k]| > 0
      ensures !IsWs(lines[k][0]) && !IsWs(lines[k][|lines[k]| - 1])
    {
      if k == 0 {
        RenderedLineEdges(headers);
      } else {
        RenderedLineEdges(records[k - 1]);
      }
    }
  }


  /** Parsing a written table recovers the header line and one record per
      written record, in order. */
  lemma ParseRenderRows(headers: seq<string>, records: seq<seq<string>>)
    requires CleanRecord(headers)
    requires forall r :: 0 <= r < |records| ==> CleanRecord(records[r])
    ensures var t := ParseCsv(Render(headers, records));
            && t.headers == headers
            && |t.rows| == |records|
            && forall r :: 0 <= r < |records| ==> t.rows[r] == RowOf(headers, records[r])
  {
    LinesOfRender(headers, records);
    ParseRenderedLines(headers, records);
  }

  lemma ParseRenderedLines(headers: seq<string>, records: seq<seq<string>>)
    requires CleanRecord(headers)
    requires forall r :: 0 <= r < |records| ==> CleanRecord(records[r])
    ensures var t := ParseLines(RenderLines(headers, records));
            && t.headers == headers
            && |t.rows| == |records|
            && forall r :: 0 <= r < |records| ==> t.rows[r] == RowOf(headers, records[r])
  {
    var lines := RenderLines(headers, records);
    FieldsOfRenderedLine(headers);
    RenderedRecords(headers, records);
  }

  lemma RenderedRecords(headers: seq<string>, records: seq<seq<string>>)
    requires forall r :: 0 <= r < |records| ==> CleanRecord(records[r])
    ensures var lines := RenderLines(headers, records);
            forall r :: 0 <= r < |records| ==> Record(headers, lines[r + 1]) == RowOf(headers, records[r])
  {
    var lines := RenderLines(headers, records);
    forall r | 0 <= r < |records| ensures Record(headers, lines[r + 1]) == RowOf(headers, records[r]) {
      FieldsOfRenderedLine(records[r]);
    }
  }

  /** Parsing a written table recovers the headers and, for every record, the
      cell under the last occurrence of each header; a short record reads
      `undefined` past its end. */
  lemma ParseRender(headers: seq<string>, records: seq<seq<string>>, r: int, i: int)
    requires CleanRecord(headers)
    requires forall r :: 0 <= r < |records| ==> CleanRecord(records[r])
    requires 0 <= r < |records| && LastOccurrence(headers, i)
    ensures var t := ParseCsv(Render(headers, records));
            && t.headers == headers
            && |t.rows| == |records|
            && Field(t.rows[r], headers[i]) == Column(records[r], i)
  {
    ParseRenderRows(headers, records);
  }
}
