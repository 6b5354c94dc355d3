/**
 * The spreadsheet reader. The first sheet is given as its rows; a row is
 * `None` where the sheet has no row object, and otherwise the sequence of its
 * cells up to its last cell. The header row is the first of the first ten rows
 * holding a cell whose lower-cased text contains "name"; the data rows after it
 * whose name starts with "Action" become records.
 */
module ExcelParsing {
  import opened Wrappers
  import opened JavaText
  import opened JavaInt
  import opened ActivityRecord

  /**
   * A cell as the reader sees it: absent, holding text, or one whose value
   * cannot be read (the cell-type accessor throws, carrying `message`).
   */
  datatype Cell = Missing | Text(raw: string) | Unreadable(message: string)

  type SheetRow = Option<seq<Cell>>

  /** The keys of the column map: the columns called "Name", "Input" and "Output". */
  datatype Column = NameColumn | InputColumn | OutputColumn

  /** Where `findColumnIndices` stopped: the header row and its column map. */
  datatype HeaderHit = HeaderHit(row: nat, indices: map<Column, nat>)

  const HeaderRowsScanned: nat := 10
  const ActionPrefix: string := "Action"
  const NameKey: string := "name"
  const InputKey: string := "input"
  const OutputKey: string := "output"
  const UnsupportedFormatMessage: string := "Unsupported file format. Please use .xls or .xlsx files."
  const NoColumnsMessage: string := "Could not find required columns (Name, Input, Output) in the Excel file"
  const NoNameColumnMessage: string := "Required column 'Name' not found in Excel file"

  /** The text of a cell: empty for an absent cell, trimmed for a text cell. */
  function CellValue(c: Cell): Result<string> {
    match c
    case Missing => Ok("")
    case Text(raw) => Ok(Trim(raw))
    case Unreadable(message) => Err(message)
  }

  /** `row.getCell(i)`: past the last cell there is no cell. */
  function CellAt(cells: seq<Cell>, i: nat): Cell {
    if i < |cells| then cells[i] else Missing
  }

  /** The number of rows the header search looks at: `min(10, lastRowNum + 1)`. */
  function Window(sheet: seq<SheetRow>): (n: nat)
    ensures n <= |sheet| && n <= HeaderRowsScanned
  {
    Min(HeaderRowsScanned, |sheet|)
  }

  /** The column a lower-cased header text stands for; "name" is tested first, then "input", then "output". */
  function Classify(v: string): Option<Column> {
    if Contains(v, NameKey) then Some(NameColumn)
    else if Contains(v, InputKey) then Some(InputColumn)
    else if Contains(v, OutputKey) then Some(OutputColumn)
    else None
  }

  /** The column a readable header cell stands for. */
  function CellClass(c: Cell): Option<Column> {
    match CellValue(c)
    case Ok(v) => Classify(ToLower(v))
    case Err(_) => None
  }

  /** The column map built from the cells of one row, left to right; a later match overwrites an earlier one. */
  function RowIndices(cells: seq<Cell>): Result<map<Column, nat>> {
    if cells == [] then
      Ok(map[])
    else
      var n := |cells| - 1;
      match RowIndices(cells[..n])
      case Err(e) => Err(e)
      case Ok(m) =>
        if cells[n].Unreadable? then
          Err(cells[n].message)
        else
          match CellClass(cells[n])
          case Some(k) => Ok(m[k := n])
          case None => Ok(m)
  }

  /** The header search from row `r` on: the first row whose map has a Name column. */
  function ColumnsFrom(sheet: seq<SheetRow>, r: nat): (c: Result<Option<HeaderHit>>)
    ensures c.Ok? && c.value.Some? ==> NameColumn in c.value.value.indices
    decreases Window(sheet) - r
  {
    if r >= Window(sheet) then
      Ok(None)
    else
      match sheet[r]
      case None => ColumnsFrom(sheet, r + 1)
      case Some(cells) =>
        match RowIndices(cells)
        case Err(e) => Err(e)
        case Ok(m) => if NameColumn in m then Ok(Some(HeaderHit(r, m))) else ColumnsFrom(sheet, r + 1)
  }

  /** The column map `findColumnIndices` returns, `None` standing for `null`. */
  function ColumnIndices(sheet: seq<SheetRow>): Result<Option<map<Column, nat>>> {
    match ColumnsFrom(sheet, 0)
    case Err(e) => Err(e)
    case Ok(None) => Ok(None)
    case Ok(Some(hit)) => Ok(Some(hit.indices))
  }

  method FindColumnIndices(sheet: seq<SheetRow>) returns (r: Result<Option<map<Column, nat>>>)
    ensures r == ColumnIndices(sheet)
  {
    var rowIndex := 0;
    while rowIndex < Min(HeaderRowsScanned, |sheet|)
      invariant 0 <= rowIndex <= Window(sheet)
      invariant ColumnsFrom(sheet, rowIndex) == ColumnsFrom(sheet, 0)
      decreases Window(sheet) - rowIndex
    {
      var row := sheet[rowIndex];
      if row.None? {
        rowIndex := rowIndex + 1;
        continue;
      }
      var cells := row.value;
      var indices: map<Column, nat> := map[];
      var colIndex := 0;
      while colIndex < |cells|
        invariant 0 <= colIndex <= |cells|
        invariant RowIndices(cells[..colIndex]) == Ok(indices)
      {
        assert cells[..colIndex + 1][..colIndex] == cells[..colIndex];
        var cellValue := CellValue(cells[colIndex]);
        if cellValue.Err? {
          assert RowIndices(cells[..colIndex + 1]) == Err(cellValue.message);
          CellsErrorPersists(cells, colIndex + 1);
          return Err(cellValue.message);
        }
        var value := ToLower(cellValue.value);
        if Contains(value, NameKey) {
          indices := indices[NameColumn := colIndex];
        } else if Contains(value, InputKey) {
          indices := indices[InputColumn := colIndex];
        } else if Contains(value, OutputKey) {
          indices := indices[OutputColumn := colIndex];
        }
        colIndex := colIndex + 1;
      }
      assert cells[..colIndex] == cells;
      if NameColumn in indices {
        return Ok(Some(indices));
      }
      rowIndex := rowIndex + 1;
    }
    return Ok(None);
  }

  /** Once a cell of a row cannot be read, the map of every longer prefix is that error. */
  lemma {:induction false} CellsErrorPersists(cells: seq<Cell>, k: nat)
    requires 0 < k <= |cells| && RowIndices(cells[..k]).Err?
    ensures RowIndices(cells) == RowIndices(cells[..k])
    decreases |cells| - k
  {
    if k < |cells| {
      assert cells[..k + 1][..k] == cells[..k];
      CellsErrorPersists(cells, k + 1);
    } else {
      assert cells[..k] == cells;
    }
  }

  /** The search of `findHeaderRowIndex` from row `r` on, in the Name column `col`. */
  function HeaderRowFrom(sheet: seq<SheetRow>, col: nat, r: nat): Result<nat>
    decreases Window(sheet) - r
  {
    if r >= Window(sheet) then
      Ok(0)
    else
      match sheet[r]
      case None => HeaderRowFrom(sheet, col, r + 1)
      case Some(cells) =>
        match CellValue(CellAt(cells, col))
        case Err(e) => Err(e)
        case Ok(v) => if Contains(ToLower(v), NameKey) then Ok(r) else HeaderRowFrom(sheet, col, r + 1)
  }

  method FindHeaderRowIndex(sheet: seq<SheetRow>, columnIndices: map<Column, nat>) returns (r: Result<nat>)
    requires NameColumn in columnIndices
    ensures r == HeaderRowFrom(sheet, columnIndices[NameColumn], 0)
  {
    var rowIndex := 0;
    while rowIndex < Min(HeaderRowsScanned, |sheet|)
      invariant 0 <= rowIndex <= Window(sheet)
      invariant HeaderRowFrom(sheet, columnIndices[NameColumn], rowIndex) ==
                HeaderRowFrom(sheet, columnIndices[NameColumn], 0)
      decreases Window(sheet) - rowIndex
    {
      var row := sheet[rowIndex];
      if row.None? {
        rowIndex := rowIndex + 1;
        continue;
      }
      var nameCell := CellAt(row.value, columnIndices[NameColumn]);
      var cellValue := CellValue(nameCell);
      if cellValue.Err? {
        return Err(cellValue.message);
      }
      if Contains(ToLower(cellValue.value), NameKey) {
        return Ok(rowIndex);
      }
      rowIndex := rowIndex + 1;
    }
    return Ok(0);
  }

  /** The delimiter of a pin list: `;` when it occurs, otherwise `,` when it occurs, otherwise `;`. */
  function DelimiterOf(s: string): char {
    if ';' in s then ';' else if ',' in s then ',' else ';'
  }

  /**
   * The values of a pin list: the pieces trimmed and the empty ones dropped;
   * when that leaves nothing but the trimmed string is not empty, the
   * trimmed string is the only value.
   */
  function DelimitedValues(s: string): seq<string> {
    var values := TrimmedTokens(Split(s, DelimiterOf(s)));
    if values == [] && Trim(s) != "" then [Trim(s)] else values
  }

  /** The loop over the delimiters `;` and `,`: the first one that occurs, `;` when neither does. */
  method ChooseDelimiter(delimitedString: string) returns (delimiter: char)
    ensures delimiter == DelimiterOf(delimitedString)
  {
    var delimiters := [';', ','];
    delimiter := ';';
    var d := 0;
    while d < |delimiters|
      invariant 0 <= d <= |delimiters|
      invariant forall e :: 0 <= e < d ==> delimiters[e] !in delimitedString
      invariant delimiter == ';'
    {
      if delimiters[d] in delimitedString {
        delimiter := delimiters[d];
        assert d == 1 ==> delimiters[0] !in delimitedString;
        break;
      }
      d := d + 1;
    }
    assert delimiters[0] == ';' && delimiters[1] == ',';
  }

  method ParseDelimitedString(delimitedString: string) returns (values: seq<string>)
    ensures values == DelimitedValues(delimitedString)
  {
    var delimiter := ChooseDelimiter(delimitedString);
    var valueArray := Split(delimitedString, delimiter);
    values := [];
    var i := 0;
    while i < |valueArray|
      invariant 0 <= i <= |valueArray|
      invariant values == TrimmedTokens(valueArray[..i])
    {
      assert valueArray[..i + 1][..i] == valueArray[..i];
      var trimmedValue := Trim(valueArray[i]);
      if trimmedValue != "" {
        values := values + [trimmedValue];
      }
      i := i + 1;
    }
    assert valueArray[..i] == valueArray;
    if values == [] && Trim(delimitedString) != "" {
      values := values + [Trim(delimitedString)];
    }
  }

  /** The pin list of column `k` of a data row: `None` when the column is absent or its cell is empty. */
  function PinList(cells: seq<Cell>, indices: map<Column, nat>, k: Column): Result<Option<seq<string>>> {
    if k !in indices then
      Ok(None)
    else
      match CellValue(CellAt(cells, indices[k]))
      case Err(e) => Err(e)
      case Ok(v) => if v == "" then Ok(None) else Ok(Some(DelimitedValues(v)))
  }

  /** What `parseRow` makes of a data row: a record, `None` for a skipped row, or the error it throws. */
  function RowOf(cells: seq<Cell>, indices: map<Column, nat>): Result<Option<Row>> {
    if NameColumn !in indices then
      Ok(None)
    else
      match CellValue(CellAt(cells, indices[NameColumn]))
      case Err(e) => Err(e)
      case Ok(name) =>
        if !StartsWith(name, ActionPrefix) || IsBlank(name) then
          Ok(None)
        else
          match PinList(cells, indices, InputColumn)
          case Err(e) => Err(e)
          case Ok(ins) =>
            match PinList(cells, indices, OutputColumn)
            case Err(e) => Err(e)
            case Ok(outs) => Ok(Some(EmptyRow.(name := name, inputs := ins.GetOr([]), outputs := outs.GetOr([]))))
  }

  method ParseRow(cells: seq<Cell>, columnIndices: map<Column, nat>) returns (r: Result<Option<Row>>)
    ensures r == RowOf(cells, columnIndices)
  {
    if NameColumn !in columnIndices {
      return Ok(None);
    }
    var nameValue := CellValue(CellAt(cells, columnIndices[NameColumn]));
    if nameValue.Err? {
      return Err(nameValue.message);
    }
    var name := nameValue.value;
    if !StartsWith(name, ActionPrefix) {
      return Ok(None);
    }
    if IsBlank(name) {
      return Ok(None);
    }
    var activity := new ActivityData();
    activity.SetName(Some(name));
    if InputColumn in columnIndices {
      var inputsValue := CellValue(CellAt(cells, columnIndices[InputColumn]));
      if inputsValue.Err? {
        return Err(inputsValue.message);
      }
      if inputsValue.value != "" {
        var inputs := ParseDelimitedString(inputsValue.value);
        activity.SetInputs(Some(inputs));
      }
    }
    if OutputColumn in columnIndices {
      var outputsValue := CellValue(CellAt(cells, columnIndices[OutputColumn]));
      if outputsValue.Err? {
        return Err(outputsValue.message);
      }
      if outputsValue.value != "" {
        var outputs := ParseDelimitedString(outputsValue.value);
        activity.SetOutputs(Some(outputs));
      }
    }
    return Ok(Some(activity.Value()));
  }

  /** The records one sheet row contributes: one for an imported row, none for a missing, skipped or failing row. */
  function RowRecords(row: SheetRow, indices: map<Column, nat>): seq<Row> {
    match row
    case None => []
    case Some(cells) =>
      match RowOf(cells, indices)
      case Ok(Some(r)) => [r]
      case _ => []
  }

  /** The records of a run of data rows, in row order. */
  function SheetRows(rows: seq<SheetRow>, indices: map<Column, nat>): seq<Row> {
    if rows == [] then [] else SheetRows(rows[..|rows| - 1], indices) + RowRecords(rows[|rows| - 1], indices)
  }

  /** Whether the extension of the file name, in lower case, is `.xlsx` or `.xls`. */
  predicate SupportedFile(fileName: string) {
    EndsWith(ToLower(fileName), ".xlsx") || EndsWith(ToLower(fileName), ".xls")
  }

  /** What reading a workbook yields. */
  function ExcelRows(fileName: string, sheet: seq<SheetRow>): Result<seq<Row>> {
    if !SupportedFile(fileName) then
      Err(UnsupportedFormatMessage)
    else
      match ColumnIndices(sheet)
      case Err(e) => Err(e)
      case Ok(None) => Err(NoColumnsMessage)
      case Ok(Some(indices)) =>
        if NameColumn !in indices then
          Err(NoNameColumnMessage)
        else
          match HeaderRowFrom(sheet, indices[NameColumn], 0)
          case Err(e) => Err(e)
          case Ok(h) => Ok(RecordsAfter(sheet, h, indices))
  }

  method ParseExcel(fileName: string, sheet: seq<SheetRow>) returns (r: Result<seq<Row>>)
    ensures r == ExcelRows(fileName, sheet)
  {
    var lowerName := ToLower(fileName);
    if !EndsWith(lowerName, ".xlsx") && !EndsWith(lowerName, ".xls") {
      return Err(UnsupportedFormatMessage);
    }
    var found := FindColumnIndices(sheet);
    if found.Err? {
      return Err(found.message);
    }
    if found.value.None? {
      return Err(NoColumnsMessage);
    }
    var columnIndices := found.value.value;
    if NameColumn !in columnIndices {
      return Err(NoNameColumnMessage);
    }
    var header := FindHeaderRowIndex(sheet, columnIndices);
    if header.Err? {
      return Err(header.message);
    }
    r := ReadDataRows(sheet, header.value, columnIndices);
  }

  /** The records of the data rows below the header row. */
  function RecordsAfter(sheet: seq<SheetRow>, headerRowIndex: nat, indices: map<Column, nat>): seq<Row> {
    if headerRowIndex < |sheet| then SheetRows(sheet[headerRowIndex + 1..], indices) else []
  }

  /**
   * One pass of the row loop: a missing row is skipped, a row that `parseRow`
   * rejects adds nothing, and a row whose parsing throws is reported and skipped.
   */
  method ReadRow(row: SheetRow, columnIndices: map<Column, nat>) returns (records: seq<Row>)
    ensures records == RowRecords(row, columnIndices)
  {
    if row.None? {
      return [];
    }
    var activity := ParseRow(row.value, columnIndices);
    if activity.Ok? && activity.value.Some? {
      return [activity.value.value];
    }
    return [];
  }

  /** The row loop of `parseExcel`: missing rows, skipped rows and rows that throw add nothing. */
  method ReadDataRows(sheet: seq<SheetRow>, headerRowIndex: nat, columnIndices: map<Column, nat>)
    returns (r: Result<seq<Row>>)
    ensures r == Ok(RecordsAfter(sheet, headerRowIndex, columnIndices))
  {
    var activities: seq<Row> := [];
    var rowIndex := headerRowIndex + 1;
    if rowIndex > |sheet| {
      return Ok([]);
    }
    while rowIndex < |sheet|
      invariant headerRowIndex + 1 <= rowIndex <= |sheet|
      invariant activities == SheetRows(sheet[headerRowIndex + 1..rowIndex], columnIndices)
    {
      SheetRowsStep(sheet, headerRowIndex + 1, rowIndex, columnIndices);
      var records := ReadRow(sheet[rowIndex], columnIndices);
      activities := activities + records;
      rowIndex := rowIndex + 1;
    }
    assert sheet[headerRowIndex + 1..rowIndex] == sheet[headerRowIndex + 1..];
    return Ok(activities);
  }

  /** Reading one more data row. */
  lemma SheetRowsStep(sheet: seq<SheetRow>, from: nat, i: nat, indices: map<Column, nat>)
    requires from <= i < |sheet|
    ensures SheetRows(sheet[from..i + 1], indices) == SheetRows(sheet[from..i], indices) + RowRecords(sheet[i], indices)
  {
    assert sheet[from..i + 1][..i - from] == sheet[from..i];
  }

  // ---------------------------------------------------------------------------
  // Properties

  /** The map of a row is built exactly when every cell of the row can be read. */
  lemma {:induction false} RowIndicesReadable(cells: seq<Cell>)
    ensures RowIndices(cells).Ok? <==> forall j :: 0 <= j < |cells| ==> !cells[j].Unreadable?
  {
    if cells != [] {
      var n := |cells| - 1;
      RowIndicesReadable(cells[..n]);
      assert forall j :: 0 <= j < n ==> cells[..n][j] == cells[j];
    }
  }

  /**
   * A key of a row's map names the last cell of its class, and a class that
   * no cell has is absent. A cell belongs to one class only, so a cell holding
   * "name" never becomes the Input or Output column.
   */
  lemma {:induction false} RowIndicesLastMatch(cells: seq<Cell>, k: Column)
    requires RowIndices(cells).Ok?
    ensures var m := RowIndices(cells).value;
            k in m ==>
              && m[k] < |cells| && CellClass(cells[m[k]]) == Some(k)
              && forall j :: m[k] < j < |cells| ==> CellClass(cells[j]) != Some(k)
    ensures var m := RowIndices(cells).value;
            k !in m ==> forall j :: 0 <= j < |cells| ==> CellClass(cells[j]) != Some(k)
  {
    if cells != [] {
      var n := |cells| - 1;
      var front := cells[..n];
      var m0 := RowIndices(front).value;
      var m := RowIndices(cells).value;
      RowIndicesLastMatch(front, k);
      if CellClass(cells[n]) == Some(k) {
        assert m[k] == n;
      } else {
        assert (k in m <==> k in m0) && (k in m ==> m[k] == m0[k]);
        if k in m {
          assert front[m[k]] == cells[m[k]];
        }
        forall j | (if k in m then m[k] else -1) < j < |cells|
          ensures CellClass(cells[j]) != Some(k)
        {
          if j < n {
            assert front[j] == cells[j];
          }
        }
      }
    }
  }

  /** A present row whose map can be built and has no Name column. */
  predicate NoNameRow(cells: seq<Cell>) {
    RowIndices(cells).Ok? && NameColumn !in RowIndices(cells).value
  }

  /**
   * The header search from row `r` stops at the first present row of the window
   * whose map has a Name column; every present row before it has none.
   */
  lemma {:induction false} HeaderSearchFinds(sheet: seq<SheetRow>, r: nat)
    requires ColumnsFrom(sheet, r).Ok? && ColumnsFrom(sheet, r).value.Some?
    ensures var hit := ColumnsFrom(sheet, r).value.value;
            && r <= hit.row < Window(sheet) && sheet[hit.row].Some?
            && RowIndices(sheet[hit.row].value) == Ok(hit.indices)
            && forall q :: r <= q < hit.row && sheet[q].Some? ==> NoNameRow(sheet[q].value)
    decreases Window(sheet) - r
  {
    if sheet[r].None? || NoNameRow(sheet[r].value) {
      HeaderSearchFinds(sheet, r + 1);
    }
  }

  /** The header search from row `r` finds nothing exactly when no present row of the window has a Name column. */
  lemma {:induction false} HeaderSearchFails(sheet: seq<SheetRow>, r: nat)
    ensures ColumnsFrom(sheet, r) == Ok(None) <==>
              forall q :: r <= q < Window(sheet) && sheet[q].Some? ==> NoNameRow(sheet[q].value)
    decreases Window(sheet) - r
  {
    if r < Window(sheet) {
      HeaderSearchFails(sheet, r + 1);
    }
  }

  /** Rows past the tenth never influence the column map. */
  lemma {:induction false} HeaderSearchIgnoresLaterRows(sheet: seq<SheetRow>, more: seq<SheetRow>, r: nat)
    requires |sheet| >= HeaderRowsScanned
    ensures ColumnsFrom(sheet + more, r) == ColumnsFrom(sheet, r)
    decreases HeaderRowsScanned - r
  {
    if r < HeaderRowsScanned {
      assert (sheet + more)[r] == sheet[r];
      HeaderSearchIgnoresLaterRows(sheet, more, r + 1);
    }
  }

  /** The cell of a row in a column holds "name" (lower-cased) and can be read. */
  predicate NameCellAt(cells: seq<Cell>, col: nat) {
    CellValue(CellAt(cells, col)).Ok? && Contains(ToLower(CellValue(CellAt(cells, col)).value), NameKey)
  }

  /** In a row without a Name column, no cell in any column holds "name". */
  lemma NoNameCell(cells: seq<Cell>, col: nat)
    requires NoNameRow(cells)
    ensures CellValue(CellAt(cells, col)).Ok? && !NameCellAt(cells, col)
  {
    RowIndicesReadable(cells);
    RowIndicesLastMatch(cells, NameColumn);
    if col < |cells| {
      assert CellClass(cells[col]) != Some(NameColumn);
    }
  }

  /** `findHeaderRowIndex` from row `r` reaches row `h` when the rows before it are passed over. */
  lemma {:induction false} HeaderRowReached(sheet: seq<SheetRow>, col: nat, r: nat, h: nat)
    requires r <= h < Window(sheet) && sheet[h].Some? && NameCellAt(sheet[h].value, col)
    requires forall q :: r <= q < h && sheet[q].Some? ==> NoNameRow(sheet[q].value)
    ensures HeaderRowFrom(sheet, col, r) == Ok(h)
    decreases h - r
  {
    if r < h {
      assert HeaderRowFrom(sheet, col, r) == HeaderRowFrom(sheet, col, r + 1) by {
        if sheet[r].Some? {
          NoNameCell(sheet[r].value, col);
        }
      }
      HeaderRowReached(sheet, col, r + 1, h);
    }
  }

  /** `findHeaderRowIndex` returns the row in which `findColumnIndices` found the Name column. */
  lemma HeaderRowAgrees(sheet: seq<SheetRow>)
    requires ColumnsFrom(sheet, 0).Ok? && ColumnsFrom(sheet, 0).value.Some?
    ensures var hit := ColumnsFrom(sheet, 0).value.value;
            HeaderRowFrom(sheet, hit.indices[NameColumn], 0) == Ok(hit.row)
  {
    HeaderSearchFinds(sheet, 0);
    var hit := ColumnsFrom(sheet, 0).value.value;
    var cells := sheet[hit.row].value;
    RowIndicesLastMatch(cells, NameColumn);
    HeaderRowReached(sheet, hit.indices[NameColumn], 0, hit.row);
  }

  /** Without a Name cell in the first ten rows, a supported file fails with the missing-columns error. */
  lemma NoHeaderFails(fileName: string, sheet: seq<SheetRow>)
    requires SupportedFile(fileName)
    requires forall q :: 0 <= q < Window(sheet) && sheet[q].Some? ==> NoNameRow(sheet[q].value)
    ensures ExcelRows(fileName, sheet) == Err(NoColumnsMessage)
  {
    HeaderSearchFails(sheet, 0);
  }

  /** Every imported record is named by a non-empty text starting with "Action", read from its Name cell as is. */
  lemma ImportedRow(cells: seq<Cell>, indices: map<Column, nat>)
    requires RowOf(cells, indices).Ok? && RowOf(cells, indices).value.Some?
    ensures var r := RowOf(cells, indices).value.value;
            && NameColumn in indices && CellValue(CellAt(cells, indices[NameColumn])) == Ok(r.name)
            && StartsWith(r.name, ActionPrefix) && r.name != ""
            && r.documentation == "" && r.actor == Some("") && !r.isSubAction && r.parentName == Some("")
  {
  }

  /** An absent Input or Output column, or an empty cell in it, leaves that pin list empty. */
  lemma AbsentPinColumn(cells: seq<Cell>, indices: map<Column, nat>)
    requires RowOf(cells, indices).Ok? && RowOf(cells, indices).value.Some?
    ensures var r := RowOf(cells, indices).value.value;
            && (InputColumn !in indices || CellValue(CellAt(cells, indices[InputColumn])) == Ok("") ==> r.inputs == [])
            && (OutputColumn !in indices || CellValue(CellAt(cells, indices[OutputColumn])) == Ok("") ==> r.outputs == [])
  {
  }

  /** The names of the imported records, row after row, all start with "Action". */
  lemma {:induction false} SheetRowsNamed(rows: seq<SheetRow>, indices: map<Column, nat>)
    ensures forall i :: 0 <= i < |SheetRows(rows, indices)| ==> StartsWith(SheetRows(rows, indices)[i].name, ActionPrefix)
  {
    if rows != [] {
      var n := |rows| - 1;
      SheetRowsNamed(rows[..n], indices);
      if rows[n].Some? && RowOf(rows[n].value, indices).Ok? && RowOf(rows[n].value, indices).value.Some? {
        ImportedRow(rows[n].value, indices);
      }
    }
  }

  /** The records of row `k` sit between those of the rows before it and those after it. */
  lemma SheetRowsAt(rows: seq<SheetRow>, indices: map<Column, nat>, k: nat)
    requires k < |rows|
    ensures SheetRows(rows, indices) ==
            SheetRows(rows[..k], indices) + RowRecords(rows[k], indices) + SheetRows(rows[k + 1..], indices)
  {
    CutAfter(rows, k);
    SheetRowsAppend(rows[..k + 1], rows[k + 1..], indices);
  }

  lemma {:induction false} SheetRowsAppend(a: seq<SheetRow>, b: seq<SheetRow>, indices: map<Column, nat>)
    ensures SheetRows(a + b, indices) == SheetRows(a, indices) + SheetRows(b, indices)
  {
    if b == [] {
      assert a + b == a;
    } else {
      AppendFront(a, b);
      SheetRowsAppend(a, b[..|b| - 1], indices);
    }
  }

  /** The values of a pin list are trimmed and non-empty; there are none exactly when the text is blank. */
  lemma DelimitedTokens(s: string)
    ensures forall i :: 0 <= i < |DelimitedValues(s)| ==> IsToken(DelimitedValues(s)[i])
    ensures DelimitedValues(s) == [] <==> IsBlank(s)
  {
    BlankIffTrimsToEmpty(s);
    var c := DelimiterOf(s);
    if IsBlank(s) {
      if c in s {
        BlankPieces(s, c);
        SplitKeepsPieces(s, c);
        assert forall i :: 0 <= i < |Split(s, c)| ==> Split(s, c)[i] == Pieces(s, c)[i];
      }
      TrimmedTokensOfBlanks(Split(s, c));
    }
  }

  /** Writing tokens joined by `;` or by `,` and reading them back gives the tokens. */
  lemma DelimitedRoundTrip(ts: seq<string>, c: char)
    requires c == ';' || c == ','
    requires |ts| >= 1
    requires forall i :: 0 <= i < |ts| ==> IsToken(ts[i]) && ';' !in ts[i] && ',' !in ts[i]
    ensures DelimitedValues(Join(ts, c)) == ts
  {
    var j := Join(ts, c);
    var other := if c == ';' then ',' else ';';
    JoinAvoids(ts, c, other);
    if |ts| > 1 {
      assert j == ts[0] + [c] + Join(ts[1..], c);
      assert j[|ts[0]|] == c;
      assert DelimiterOf(j) == c;
      SplitOfJoin(ts, c);
    } else {
      assert j == ts[0];
    }
    TrimmedTokensOfTokens(ts);
  }

  /** A list of nothing but delimiters is one value: `";;"` reads as `[";;"]`. */
  lemma DelimitersOnly()
    ensures DelimitedValues(";;") == [";;"]
  {
    var s := ";;";
    assert s == [] + [';'] + ([] + [';'] + []);
    PiecesOfPrefix([], ';', [] + [';'] + []);
    PiecesOfPrefix([], ';', []);
    var three: seq<string> := ["", "", ""];
    assert Pieces(s, ';') == three;
    assert three[..2] == ["", ""] && ["", ""][..1] == [""] && [""][..0] == [];
    assert DropTrailingEmpty([""]) == [];
    assert DropTrailingEmpty(["", ""]) == [];
    assert Split(s, ';') == DropTrailingEmpty(three) == [];
    TrimOfTrimmed(s);
  }
}
