/** `parseCSV` of app/api/membres/import/route.ts: strip a leading byte-order
    mark, split into lines on line feed, drop the lines that trim to nothing,
    take the first line as the header list and zip every later line, split on
    commas, against it. There is no quoting: a comma always separates. */
module CsvParse {
  import opened Wrappers
  import opened Strings

  /** One data line keyed by header name (the `Record<string, string>` the parser builds). */
  type Row = map<string, string>

  /** U+FEFF, the byte-order mark a spreadsheet puts in front of UTF-8 text. */
  const Bom: char := '\U{FEFF}'

  /** The message of the error thrown when there is no header or no data line. */
  const TooFewLines: string := "Le fichier CSV doit contenir au moins une ligne d'en-tête et une ligne de données"

  /** `row.name` as the import code reads it: a column missing from the header
      (`undefined`) behaves exactly like an empty cell everywhere it is used. */
  function Field(row: Row, name: string): string
  {
    if name in row then row[name] else ""
  }

  function StripBom(content: string): string
  {
    if |content| > 0 && content[0] == Bom then content[1..] else content
  }

  /** `lines.filter(line => line.trim())`. */
  function NonBlank(lines: seq<string>): (r: seq<string>)
    ensures |r| <= |lines|
    ensures forall k :: 0 <= k < |r| ==> Trim(r[k]) != ""
  {
    if lines == [] then []
    else (if Trim(lines[0]) != "" then [lines[0]] else []) + NonBlank(lines[1..])
  }

  /** A single line is kept exactly when it is not blank. */
  lemma NonBlankOne(line: string)
    ensures NonBlank([line]) == (if Trim(line) != "" then [line] else [])
  {
  }

  /** The filter works line by line: filtering two runs of lines is filtering
      each, so every non-blank line is kept, in order. */
  lemma {:induction false} NonBlankAppend(a: seq<string>, b: seq<string>)
    ensures NonBlank(a + b) == NonBlank(a) + NonBlank(b)
    decreases |a|
  {
    if a == [] {
      assert a + b == b;
    } else {
      HeadTailOfAppend(a, b);
      var head := if Trim(a[0]) != "" then [a[0]] else [];
      assert NonBlank(a) == head + NonBlank(a[1..]);
      assert NonBlank(a + b) == head + NonBlank(a[1..] + b);
      NonBlankAppend(a[1..], b);
      ConcatAssoc(head, NonBlank(a[1..]), NonBlank(b));
    }
  }

  /** The non-blank lines of a text, in file order. */
  function DataLines(text: string): seq<string>
  {
    NonBlank(Split(text, '\n'))
  }

  /** `.map(v => v.trim())`. */
  function Trims(cells: seq<string>): (r: seq<string>)
  {
    seq(|cells|, k requires 0 <= k < |cells| => Trim(cells[k]))
  }

  /** `line.split(',').map(v => v.trim())`. */
  function Fields(line: string): seq<string>
  {
    Trims(Split(line, ','))
  }

  /** `values[index] || ''`. */
  function FieldAt(values: seq<string>, k: nat): string
  {
    if k < |values| then values[k] else ""
  }

  /** `headers.forEach((header, index) => { row[header] = values[index] || '' })`:
      the assignments run in header order, so a repeated header keeps the value
      of its last position. */
  function RowOf(headers: seq<string>, values: seq<string>): (row: Row)
    ensures row.Keys == set h | h in headers
    decreases |headers|
  {
    if headers == [] then map[]
    else
      var n := |headers| - 1;
      RowOf(headers[..n], values)[headers[n] := FieldAt(values, n)]
  }

  /** The row one data line yields. */
  function LineRow(headers: seq<string>, line: string): Row
  {
    RowOf(headers, Fields(line))
  }

  function RowsOf(headers: seq<string>, lines: seq<string>): (rows: seq<Row>)
  {
    seq(|lines|, i requires 0 <= i < |lines| => LineRow(headers, lines[i]))
  }

  lemma RowsOfSnoc(headers: seq<string>, lines: seq<string>, line: string)
    ensures RowsOf(headers, lines + [line]) == RowsOf(headers, lines) + [LineRow(headers, line)]
  {
    assert forall k :: 0 <= k < |lines| ==> (lines + [line])[k] == lines[k];
  }

  /** The parser on text whose byte-order mark has already been removed. */
  function ParseLines(text: string): Result<seq<Row>, string>
  {
    var lines := DataLines(text);
    if |lines| < 2 then Failure(TooFewLines)
    else Success(RowsOf(Fields(lines[0]), lines[1..]))
  }

  function ParseCsv(content: string): Result<seq<Row>, string>
  {
    ParseLines(StripBom(content))
  }

  // ------------------------------------------------------------ the parser

  /** The `forEach` that fills one row. */
  method ZipRow(headers: seq<string>, values: seq<string>) returns (row: Row)
    ensures row == RowOf(headers, values)
  {
    row := map[];
    for index := 0 to |headers|
      invariant row == RowOf(headers[..index], values)
    {
      assert headers[..index + 1][..index] == headers[..index];
      row := row[headers[index] := FieldAt(values, index)];
    }
    assert headers[..|headers|] == headers;
  }

  /** The `for` loop of `parseCSV` that pushes one row per data line. */
  method RowsFromLines(headers: seq<string>, lines: seq<string>) returns (rows: seq<Row>)
    ensures rows == RowsOf(headers, lines)
  {
    rows := [];
    for i := 0 to |lines|
      invariant rows == RowsOf(headers, lines[..i])
    {
      var values := Fields(lines[i]);
      var row := ZipRow(headers, values);
      RowsOfSnoc(headers, lines[..i], lines[i]);
      assert lines[..i + 1] == lines[..i] + [lines[i]];
      rows := rows + [row];
    }
    assert lines[..|lines|] == lines;
  }

  /** `parseCSV`; the thrown error is the `Failure` case. */
  method ParseCsvRows(content: string) returns (r: Result<seq<Row>, string>)
    ensures r == ParseCsv(content)
  {
    var clean := StripBom(content);
    var lines := DataLines(clean);
    if |lines| < 2 {
      r := Failure(TooFewLines);
    } else {
      var headers := Fields(lines[0]);
      var rows := RowsFromLines(headers, lines[1..]);
      r := Success(rows);
    }
  }

  // ------------------------------------------------------------ properties

  /** Header k maps to the k-th trimmed field of the line, or to `''` when the
      line is short, unless the same header appears again later. */
  lemma {:induction false} RowOfAt(headers: seq<string>, values: seq<string>, k: nat)
    requires k < |headers|
    requires headers[k] !in headers[k + 1..]
    ensures RowOf(headers, values)[headers[k]] == FieldAt(values, k)
    decreases |headers|
  {
    var n := |headers| - 1;
    if k < n {
      assert headers[..n][k + 1..] == headers[k + 1..n];
      assert headers[n] in headers[k + 1..];
      RowOfAt(headers[..n], values, k);
    }
  }

  /** Every value of a row is one of the line's fields or the empty string. */
  lemma {:induction false} RowOfValues(headers: seq<string>, values: seq<string>, h: string)
    requires h in headers
    ensures RowOf(headers, values)[h] == "" || RowOf(headers, values)[h] in values
    decreases |headers|
  {
    var n := |headers| - 1;
    if h != headers[n] {
      assert h in headers[..n] by {
        var k :| 0 <= k < |headers| && headers[k] == h;
        assert headers[..n][k] == h;
      }
      RowOfValues(headers[..n], values, h);
    }
  }

  /** No parsed value contains a comma: a comma in a cell always splits it. */
  lemma ParsedValuesHaveNoComma(content: string)
    requires ParseCsv(content).Success?
    ensures forall i, h :: 0 <= i < |ParseCsv(content).value| && h in ParseCsv(content).value[i]
              ==> ',' !in ParseCsv(content).value[i][h]
  {
    var lines := DataLines(StripBom(content));
    var headers := Fields(lines[0]);
    var rows := ParseCsv(content).value;
    forall i, h | 0 <= i < |rows| && h in rows[i]
      ensures ',' !in rows[i][h]
    {
      var values := Fields(lines[1..][i]);
      assert rows[i] == RowOf(headers, values);
      RowOfValues(headers, values, h);
      var parts := Split(lines[1..][i], ',');
      forall k | 0 <= k < |parts|
        ensures ',' !in values[k]
      {
        TrimKeepsOut(',', parts[k]);
      }
    }
  }

  /** The parser fails exactly when fewer than two lines are non-blank, and
      otherwise yields one row per non-blank line after the header, in file
      order, each mapping header k to the k-th trimmed field. */
  lemma ParseCsvRowsAre(content: string, i: nat, k: nat)
    requires var lines := DataLines(StripBom(content));
      |lines| >= 2 && i < |lines| - 1 && k < |Fields(lines[0])| && Fields(lines[0])[k] !in Fields(lines[0])[k + 1..]
    ensures var lines, r := DataLines(StripBom(content)), ParseCsv(content);
      r.Success? && |r.value| == |lines| - 1 && Fields(lines[0])[k] in r.value[i] &&
      r.value[i][Fields(lines[0])[k]] == FieldAt(Fields(lines[i + 1]), k)
  {
    var lines := DataLines(StripBom(content));
    RowOfAt(Fields(lines[0]), Fields(lines[i + 1]), k);
  }

  lemma ParseCsvFailsIff(content: string)
    ensures ParseCsv(content).Failure? <==> |DataLines(StripBom(content))| < 2
    ensures ParseCsv(content).Failure? ==> ParseCsv(content).error == TooFewLines
  {
  }

  /** `split` on a string that starts with a character other than the separator. */
  lemma SplitCons(c: char, t: string, sep: char)
    requires c != sep
    ensures Split([c] + t, sep) == [[c] + Split(t, sep)[0]] + Split(t, sep)[1..]
  {
    assert ([c] + t)[1..] == t;
  }

  /** `map` on a list with a first element. */
  lemma TrimsCons(x: string, rest: seq<string>)
    ensures Trims([x] + rest) == [Trim(x)] + Trims(rest)
  {
  }

  /** A white-space character other than a comma in front of a line leaves its
      trimmed fields unchanged. */
  lemma FieldsLeadingSpace(c: char, line: string)
    requires IsSpace(c) && c != ','
    ensures Fields([c] + line) == Fields(line)
  {
    var q := Split(line, ',');
    SplitCons(c, line, ',');
    TrimsCons([c] + q[0], q[1..]);
    assert q == [q[0]] + q[1..];
    TrimsCons(q[0], q[1..]);
    TrimLeadingSpace(c, q[0]);
  }

  /** `filter` on a list with a first element. */
  lemma NonBlankCons(x: string, rest: seq<string>)
    ensures NonBlank([x] + rest) == (if Trim(x) != "" then [x] else []) + NonBlank(rest)
  {
    assert ([x] + rest)[1..] == rest;
  }

  /** A white-space character other than a line feed in front of the text only
      joins the first line, and leaves its blankness unchanged. */
  lemma DataLinesLeadingSpace(c: char, t: string)
    requires IsSpace(c) && c != '\n'
    ensures var p := Split(t, '\n');
      if Trim(p[0]) != "" then
        DataLines([c] + t) == [[c] + p[0]] + NonBlank(p[1..]) && DataLines(t) == [p[0]] + NonBlank(p[1..])
      else DataLines([c] + t) == DataLines(t)
  {
    var p := Split(t, '\n');
    var first := [c] + p[0];
    SplitCons(c, t, '\n');
    assert DataLines([c] + t) == NonBlank([first] + p[1..]);
    NonBlankCons(first, p[1..]);
    assert p == [p[0]] + p[1..];
    assert DataLines(t) == NonBlank([p[0]] + p[1..]);
    NonBlankCons(p[0], p[1..]);
    TrimLeadingSpace(c, p[0]);
  }

  /** A white-space character (other than the two separators) in front of the
      text changes nothing: it only reaches the first line, whose blankness and
      whose trimmed first field are the same with or without it. */
  lemma LeadingSpaceIgnored(c: char, t: string)
    requires IsSpace(c) && c != '\n' && c != ','
    ensures ParseLines([c] + t) == ParseLines(t)
  {
    var p := Split(t, '\n');
    DataLinesLeadingSpace(c, t);
    if Trim(p[0]) != "" {
      FieldsLeadingSpace(c, p[0]);
      var lines1, lines2 := DataLines([c] + t), DataLines(t);
      assert lines1[1..] == lines2[1..];
    }
  }

  /** A leading byte-order mark is ignored: `parseCSV(BOM + s) == parseCSV(s)`
      for every text, including one that itself starts with a mark. */
  lemma BomIgnored(s: string)
    ensures ParseCsv([Bom] + s) == ParseCsv(s)
  {
    assert ([Bom] + s)[1..] == s;
    if |s| > 0 && s[0] == Bom {
      assert s == [Bom] + s[1..];
      LeadingSpaceIgnored(Bom, s[1..]);
    }
  }
}
