/**
 * The delimited-text reader: a header line followed by lines
 * `name,documentation,outputs`, where the outputs are `;`-separated.
 * The file is given as its sequence of lines.
 */
module CsvParsing {
  import opened Wrappers
  import opened JavaText
  import opened ActivityRecord

  const CsvDelimiter: char := ','
  const OutputDelimiter: char := ';'
  const EmptyFileMessage: string := "CSV file is empty"
  const BadHeaderMessage: string :=
    "Invalid CSV header. Expected at least 3 columns: Activity Name, Documentation, Outputs"

  /** The output names of an outputs field. */
  function OutputNames(s: string): seq<string> {
    TrimmedTokens(Split(s, OutputDelimiter))
  }

  method ParseOutputs(outputsString: string) returns (outputs: seq<string>)
    ensures outputs == OutputNames(outputsString)
  {
    var outputArray := Split(outputsString, OutputDelimiter);
    outputs := [];
    var i := 0;
    while i < |outputArray|
      invariant 0 <= i <= |outputArray|
      invariant outputs == TrimmedTokens(outputArray[..i])
    {
      assert outputArray[..i + 1][..i] == outputArray[..i];
      var trimmedOutput := Trim(outputArray[i]);
      if trimmedOutput != "" {
        outputs := outputs + [trimmedOutput];
      }
      i := i + 1;
    }
    assert outputArray[..i] == outputArray;
  }

  /** The row one data line describes. */
  function LineRow(line: string): Row {
    var parts := SplitThree(line, CsvDelimiter);
    EmptyRow.(
      name := Trim(parts[0]),
      documentation := if |parts| >= 2 then Trim(parts[1]) else "",
      outputs := if |parts| >= 3 && !IsBlank(parts[2]) then OutputNames(Trim(parts[2])) else [])
  }

  method ParseLine(line: string) returns (r: Row)
    ensures r == LineRow(line)
  {
    var parts := SplitThree(line, CsvDelimiter);
    var activity := new ActivityData();
    if |parts| >= 1 {
      activity.SetName(Some(Trim(parts[0])));
    }
    if |parts| >= 2 {
      activity.SetDocumentation(Some(Trim(parts[1])));
    }
    if |parts| >= 3 && !IsBlank(parts[2]) {
      var outputsString := Trim(parts[2]);
      var outputs := ParseOutputs(outputsString);
      activity.SetOutputs(Some(outputs));
    }
    r := activity.Value();
  }

  /** The rows of the data lines, blank lines skipped. */
  function DataRows(lines: seq<string>): seq<Row> {
    if lines == [] then
      []
    else
      var line := lines[|lines| - 1];
      DataRows(lines[..|lines| - 1]) + (if IsBlank(line) then [] else [LineRow(line)])
  }

  /** What reading the whole file yields. */
  function CsvRows(lines: seq<string>): Result<seq<Row>> {
    if |lines| == 0 then
      Err(EmptyFileMessage)
    else if |Split(lines[0], CsvDelimiter)| < 3 then
      Err(BadHeaderMessage)
    else
      Ok(DataRows(lines[1..]))
  }

  method ValidateHeader(headerLine: string) returns (error: Option<string>)
    ensures error.None? <==> |Split(headerLine, CsvDelimiter)| >= 3
    ensures error.Some? ==> error.value == BadHeaderMessage
  {
    var headers := Split(headerLine, CsvDelimiter);
    if |headers| < 3 {
      return Some(BadHeaderMessage);
    }
    return None;
  }

  method ParseCsv(lines: seq<string>) returns (r: Result<seq<Row>>)
    ensures r == CsvRows(lines)
  {
    if |lines| == 0 {
      return Err(EmptyFileMessage);
    }
    var headerError := ValidateHeader(lines[0]);
    if headerError.Some? {
      return Err(headerError.value);
    }
    var activities: seq<Row> := [];
    // The number an error message would report: 2 plus the rows read so far.
    var lineNumber := 2;
    var i := 1;
    while i < |lines|
      invariant 1 <= i <= |lines|
      invariant activities == DataRows(lines[1..i])
      invariant lineNumber == 2 + |activities|
    {
      DataRowsStep(lines, i);
      var line := lines[i];
      if IsBlank(line) {
        i := i + 1;
        continue;
      }
      var activity := ParseLine(line);
      activities := activities + [activity];
      lineNumber := lineNumber + 1;
      i := i + 1;
    }
    assert lines[1..i] == lines[1..];
    r := Ok(activities);
  }

  /** Reading one more line at the end. */
  lemma DataRowsSnoc(lines: seq<string>, line: string)
    ensures DataRows(lines + [line]) == DataRows(lines) + (if IsBlank(line) then [] else [LineRow(line)])
  {
    assert (lines + [line])[..|lines|] == lines;
  }

  /** Reading one more line of the file. */
  lemma DataRowsStep(lines: seq<string>, i: nat)
    requires 1 <= i < |lines|
    ensures DataRows(lines[1..i + 1]) ==
            DataRows(lines[1..i]) + (if IsBlank(lines[i]) then [] else [LineRow(lines[i])])
  {
    assert lines[1..i + 1][..i - 1] == lines[1..i];
  }

  // ---------------------------------------------------------------------------
  // Properties

  /** Reading the lines of two pieces of a file one after the other. */
  lemma {:induction false} DataRowsAppend(a: seq<string>, b: seq<string>)
    ensures DataRows(a + b) == DataRows(a) + DataRows(b)
  {
    if b == [] {
      assert a + b == a;
    } else {
      var n := |b| - 1;
      assert (a + b)[..|a + b| - 1] == a + b[..n];
      DataRowsAppend(a, b[..n]);
    }
  }

  function NonBlankCount(lines: seq<string>): nat {
    if lines == [] then 0 else NonBlankCount(lines[..|lines| - 1]) + (if IsBlank(lines[|lines| - 1]) then 0 else 1)
  }

  /** One row per non-blank data line. */
  lemma {:induction false} DataRowsCount(lines: seq<string>)
    ensures |DataRows(lines)| == NonBlankCount(lines)
  {
    if lines != [] {
      DataRowsCount(lines[..|lines| - 1]);
    }
  }

  /** The row of line `k` sits between the rows of the lines before it and those after it. */
  lemma DataRowsAt(lines: seq<string>, k: nat)
    requires k < |lines|
    ensures DataRows(lines) ==
            DataRows(lines[..k]) + (if IsBlank(lines[k]) then [] else [LineRow(lines[k])]) + DataRows(lines[k + 1..])
  {
    CutAfter(lines, k);
    DataRowsAppend(lines[..k + 1], lines[k + 1..]);
  }

  /** A field the writer of a line can use for the name or the documentation. */
  predicate PlainField(s: string) {
    CsvDelimiter !in s && (s == [] || (!IsTrimmable(s[0]) && !IsTrimmable(s[|s| - 1])))
  }

  /** A row that a data line can describe exactly. */
  predicate Writable(r: Row) {
    && r == EmptyRow.(name := r.name, documentation := r.documentation, outputs := r.outputs)
    && PlainField(r.name) && PlainField(r.documentation)
    && forall i :: 0 <= i < |r.outputs| ==> IsToken(r.outputs[i]) && OutputDelimiter !in r.outputs[i]
  }

  /** The data line for a row. */
  function RenderLine(r: Row): string {
    r.name + [CsvDelimiter] + r.documentation + [CsvDelimiter] + Join(r.outputs, OutputDelimiter)
  }

  /** A join of tokens starts with the first token and ends with the last. */
  lemma {:induction false} JoinEnds(ps: seq<string>, c: char)
    requires |ps| >= 1 && forall i :: 0 <= i < |ps| ==> ps[i] != []
    ensures Join(ps, c) != [] && Join(ps, c)[0] == ps[0][0]
    ensures Join(ps, c)[|Join(ps, c)| - 1] == ps[|ps| - 1][|ps[|ps| - 1]| - 1]
  {
    if |ps| > 1 {
      JoinEnds(ps[1..], c);
    }
  }

  /** Reading the outputs field written for a list of output names gives the list back. */
  lemma OutputsRoundTrip(outputs: seq<string>)
    requires forall i :: 0 <= i < |outputs| ==> IsToken(outputs[i]) && OutputDelimiter !in outputs[i]
    ensures var j := Join(outputs, OutputDelimiter);
            (outputs == [] <==> IsBlank(j)) && (outputs != [] ==> OutputNames(Trim(j)) == outputs)
  {
    var j := Join(outputs, OutputDelimiter);
    if outputs != [] {
      JoinEnds(outputs, OutputDelimiter);
      TrimOfTrimmed(j);
      SplitOfJoin(outputs, OutputDelimiter);
      TrimmedTokensOfTokens(outputs);
    }
  }

  /** A data line holds a delimiter, so it is never blank. */
  lemma LineNotBlank(r: Row)
    ensures !IsBlank(RenderLine(r))
  {
    var line := RenderLine(r);
    if IsBlank(line) {
      BlankChars(line, |r.name|);
    }
  }

  /** Reading the line written for a row gives the row back. */
  lemma LineRoundTrip(r: Row)
    requires Writable(r)
    ensures LineRow(RenderLine(r)) == r
  {
    var j := Join(r.outputs, OutputDelimiter);
    SplitThreeOfFields(r.name, r.documentation, j, CsvDelimiter);
    TrimOfTrimmed(r.name);
    TrimOfTrimmed(r.documentation);
    OutputsRoundTrip(r.outputs);
  }

  /** The lines written for rows, in order. */
  function RenderLines(rows: seq<Row>): (lines: seq<string>)
    ensures |lines| == |rows|
  {
    if rows == [] then [] else RenderLines(rows[..|rows| - 1]) + [RenderLine(rows[|rows| - 1])]
  }

  /** Reading a file written from rows gives the rows back, in order. */
  lemma FileRoundTrip(header: string, rows: seq<Row>)
    requires |Split(header, CsvDelimiter)| >= 3
    requires forall i :: 0 <= i < |rows| ==> Writable(rows[i])
    ensures CsvRows([header] + RenderLines(rows)) == Ok(rows)
  {
    DropHead(header, RenderLines(rows));
    RenderedRows(rows);
  }

  lemma {:induction false} RenderedRows(rows: seq<Row>)
    requires forall i :: 0 <= i < |rows| ==> Writable(rows[i])
    ensures DataRows(RenderLines(rows)) == rows
  {
    if rows != [] {
      var n := |rows| - 1;
      var front, last := rows[..n], rows[n];
      assert forall i :: 0 <= i < |front| ==> front[i] == rows[i];
      RenderedRows(front);
      LineNotBlank(last);
      LineRoundTrip(last);
      DataRowsSnoc(RenderLines(front), RenderLine(last));
      FrontLast(rows);
      calc {
        DataRows(RenderLines(rows));
        DataRows(RenderLines(front) + [RenderLine(last)]);
        DataRows(RenderLines(front)) + [LineRow(RenderLine(last))];
        front + [last];
        rows;
      }
    }
  }

  /** A header whose third field is empty has only two fields under `split`. */
  lemma TrailingEmptyHeaderRejected(rest: seq<string>)
    ensures CsvRows(["a,b,"] + rest) == Err(BadHeaderMessage)
  {
    var h := "a,b,";
    assert h == "a" + [','] + ("b" + [','] + "");
    PiecesOfPrefix("a", ',', "b" + [','] + "");
    PiecesOfPrefix("b", ',', "");
    assert Pieces(h, ',') == ["a", "b", ""];
    assert h[1] == ',';
  }

  /** A file without lines is an error. */
  lemma EmptyFileRejected()
    ensures CsvRows([]) == Err(EmptyFileMessage)
  {
  }
}
