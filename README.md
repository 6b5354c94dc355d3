# Activity import pipeline, modelled in Dafny

This project models the import pipeline of the CSV/Excel activity plugin for
Cameo/MagicDraw. The host tool's API is replaced by plain data. The pipeline
has four stages.

1. **Row parsing.**
   - `CSVParser` reads a header line, then data lines `name,documentation,outputs`.
   - `ExcelParser` looks for the header row among the first ten rows of the first
     sheet and keeps the data rows whose name starts with `Action`.
   - Both produce `ActivityData` records.
2. **The record.** `ActivityData` is a mutable record. Its setters replace
   `null` by an empty value, and `addOutput` appends a trimmed value.
3. **Graph building.** `ActivityDiagramCreator` does the following:
   - creates one partition (lane) per actor of the top-level rows;
   - creates a Start node, one structured node per top-level row linked by
     control flows in row order, and an End node;
   - nests each sub-action in the last top-level node of its parent's name;
   - gives every action one pin per listed input and output;
   - later, fits every lane's rectangle around its nodes with a 40 pixel margin.
4. **Layout.** `DiagramGridLayouter` places the activity's nodes in one column
   under a running `y` cursor:
   - actions grow with their pin count;
   - input pins are stacked on the left edge and output pins on the right;
   - one corrective reshape runs when the renderer reports a different width.

## How the host is represented

**Files and cells.**
- A CSV file is its sequence of lines.
- A sheet is a sequence of rows. A row is `None` where the sheet has no row
  object, otherwise its cells.
- A cell is `Missing`, `Text(raw)`, or `Unreadable(message)`. `Unreadable` stands
  for a cell whose value accessor throws.
- Java exceptions become `Err(message)` values of a `Result` type. Java `null`
  becomes `None`.

**Java text.** `JavaText` gives the `java.lang.String` operations the parsers use:
- `trim` strips characters at or below U+0020;
- `split(c)` drops trailing empty strings;
- `split(c, 3)` keeps the rest of the line in the third field;
- `toLowerCase`, `contains`, `startsWith` and `endsWith`.

**Java integers.** `JavaInt` gives 32-bit wrap-around and `int` division, which
truncates toward zero.

**The element store.** The store is a value `HostModel.Store`:
- nodes are addressed by creation index; each has a kind, an owner and its two pin-name lists;
- partitions are kept in creation order, each with its node list;
- control flows are kept in creation order.

**The diagram.** The diagram is a class `HostModel.Diagram`. Its field `shapes`
maps node, pin and lane shapes to their rectangles. A missing key means the
element has no shape. `Reshape` stores the requested rectangle.
- `GridLayout` takes what the renderer reports back for a reshaped node as a
  parameter `render: Renderer` with two functions of the requested rectangle:
  `afterReshape`, the bounds read right after the reshape, and `afterPins`, the
  bounds read again once the pins are positioned.
- Rectangle fields are unbounded integers. Only the lane fit works in 32-bit
  arithmetic; `DiagramCreation.Modest` names the rectangles whose right and
  bottom edges stay inside the `int` range.
- `DiagramCreation.ActivityDiagramCreator` keeps the set of partitions whose lane
  shape it found. This is the `laneShapes` map of the source.

**Each Java method and its specification.** Each Java method is a Dafny method
with the same loops. Each is proved equal to a specification function:
- `CsvRows`, `ExcelRows`, `ColumnIndices`, `HeaderRowFrom` and `DelimitedValues` for the parsers;
- `PartitionStore`, `BuildNodes`, `PlaceholderShapes` and `FittedShapes` for the creator;
- `LayoutShapes` for the layouter.

The lemmas state the properties of those functions.

**Where the code and its description disagree, the model follows the code:**
- **No reuse step.** The description has a reuse step that matches rows against
  existing nodes by name. No shown code does this: every top-level row creates a
  fresh node, and every listed pin name creates a pin, duplicates included.
- **The empty-lane skip never fires.** A lane without placed members is said to
  be skipped. The code tests `minX == Integer.MIN_VALUE`, but `minX` starts at
  `Integer.MAX_VALUE`. So an empty lane is reshaped to
  `(MAX-40, MAX-40, 81, 81)` in wrapped `int` arithmetic
  (`DiagramCreation.EmptyLaneFit`). The skip happens only when a member's x
  really is `MIN_VALUE` (`DiagramCreation.SkipOnlyAtMinValue`).
- **Only the activity's own shaped nodes are placed.** The layout is said to give
  every node and port a rectangle. The code places only the nodes the activity
  owns directly and that have a shape, with their pins. Nested sub-actions are
  not touched.
- **`ActivityData` has more fields than its class shows.** The class shown has
  only name, documentation and outputs. The creator reads `getInputs`,
  `getActor`, `isSubAction` and `getParentName`, and `ExcelParser` calls
  `setInputs`. The record therefore also carries:
  - `inputs`, default empty;
  - `actor`, default `""`;
  - `isSubAction`, default `false`;
  - `parentName`, default `""`.

  Neither parser sets the last three.

## Model

| member | source | states |
|---|---|---|
| `ActivityRecord.ActivityData.constructor` | CSVActivityPlugin/ActivityData.java:25-29 | the default record has empty name, documentation and pin lists, and is not a sub-action |
| `ActivityRecord.ActivityData.WithFields` | CSVActivityPlugin/ActivityData.java:34-38 | the three-argument constructor stores its arguments unchanged, nulls included |
| `ActivityRecord.ActivityData.SetName` | CSVActivityPlugin/ActivityData.java:46-48 | a null name is stored as `""`, any other as given; no other field changes |
| `ActivityRecord.ActivityData.SetDocumentation` | CSVActivityPlugin/ActivityData.java:54-56 | a null documentation is stored as `""`; no other field changes |
| `ActivityRecord.ActivityData.SetOutputs` | CSVActivityPlugin/ActivityData.java:62-64 | a null list is stored as an empty list; no other field changes |
| `ActivityRecord.ActivityData.SetInputs` | CSVActivityPlugin/ExcelParser.java:222-223 | the inputs setter the parser calls, normalising null like `setOutputs` |
| `ActivityRecord.ActivityData.AddOutput` | CSVActivityPlugin/ActivityData.java:69-73 | appends the trimmed value exactly when it is non-null and not blank; fails only when the output list is null; otherwise nothing changes |
| `JavaText.Trim` | CSVActivityPlugin/CSVParser.java:110 | the result of `trim` is no longer than its input and begins and ends with a character above U+0020 |
| `JavaText.TrimStrips` | CSVActivityPlugin/CSVParser.java:110 | `trim` removes exactly a leading and a trailing run of characters at or below U+0020 |
| `JavaText.BlankIffTrimsToEmpty` | CSVActivityPlugin/CSVParser.java:52 | a line is blank exactly when it trims to the empty string |
| `JavaText.TrimIdempotent` | CSVActivityPlugin/CSVParser.java:142 | trimming twice is trimming once |
| `JavaText.PiecesRejoin` | CSVActivityPlugin/CSVParser.java:139 | the pieces between separators contain no separator, and joining them with it restores the string |
| `JavaText.Split` | CSVActivityPlugin/CSVParser.java:81 | `split(c)` of a string without `c` is the string alone |
| `JavaText.SplitKeepsPieces` | CSVActivityPlugin/CSVParser.java:81 | `split(c)` keeps the pieces up to the last non-empty one and drops only empty trailing pieces |
| `JavaText.DropTrailingEmptyDrops` | CSVActivityPlugin/CSVParser.java:81 | what remains is a prefix not ending in `""`, and everything dropped was `""` |
| `JavaText.SplitOfJoin` | CSVActivityPlugin/ExcelParser.java:307 | splitting a join of separator-free pieces, the last one non-empty, gives the pieces back |
| `JavaText.SplitThree` | CSVActivityPlugin/CSVParser.java:104 | `split(c, 3)` gives one to three fields |
| `JavaText.SplitThreeRejoin` | CSVActivityPlugin/CSVParser.java:104 | the fields rejoin to the line; only the third may hold the separator |
| `JavaText.SplitThreeOfFields` | CSVActivityPlugin/CSVParser.java:104 | two separator-free fields and any rest split back into exactly those three |
| `JavaText.TrimmedTokens` | CSVActivityPlugin/CSVParser.java:141-146 | every kept value is trimmed and non-empty, and there are no more of them than pieces |
| `JavaText.TrimmedTokensAppend` | CSVActivityPlugin/CSVParser.java:141-146 | trimming and filtering two runs of pieces is doing each in turn, order kept |
| `JavaText.TrimmedTokensOfTokens` | CSVActivityPlugin/CSVParser.java:141-146 | pieces that are already trimmed and non-empty are kept unchanged |
| `JavaText.ToLower` | CSVActivityPlugin/ExcelParser.java:141 | lower-casing keeps the length and maps each character on its own |
| `JavaInt.Wrap` | CSVActivityPlugin/ActivityDiagramCreator.java:405-417 | the 32-bit result is in the `int` range, congruent to the exact value, and equal to it when it fits |
| `JavaInt.Div` | CSVActivityPlugin/DiagramGridLayouter.java:165 | `int` division by a positive divisor rounds toward zero |
| `CsvParsing.ParseOutputs` | CSVActivityPlugin/CSVParser.java:135-149 | the loop yields the pieces between `;` trimmed, with empty ones dropped, in order |
| `CsvParsing.ParseLine` | CSVActivityPlugin/CSVParser.java:100-126 | the row of a line is its trimmed first field, trimmed second field or `""`, and the outputs of a non-blank third field |
| `CsvParsing.ValidateHeader` | CSVActivityPlugin/CSVParser.java:80-92 | a header passes exactly when `split(",")` gives at least three fields, and the error carries the message |
| `CsvParsing.ParseCsv` | CSVActivityPlugin/CSVParser.java:31-72 | reading the lines is `CsvRows`: an error for a missing or short header, else one row per non-blank data line |
| `CsvParsing.DataRowsStep` | CSVActivityPlugin/CSVParser.java:50-59 | one more line adds its row, or nothing when it is blank |
| `CsvParsing.DataRowsSnoc` | CSVActivityPlugin/CSVParser.java:50-59 | a line read last adds its row at the end, or nothing when blank |
| `CsvParsing.DataRowsAppend` | CSVActivityPlugin/CSVParser.java:50-68 | the rows of two stretches of lines are the rows of each, in file order |
| `CsvParsing.DataRowsCount` | CSVActivityPlugin/CSVParser.java:50-59 | there is one row per non-blank data line |
| `CsvParsing.DataRowsAt` | CSVActivityPlugin/CSVParser.java:50-59 | the row of line `k` sits between the rows of the lines before and after it |
| `CsvParsing.JoinEnds` | CSVActivityPlugin/CSVParser.java:119-120 | a join of non-empty values starts with the first value's first character and ends with the last value's last |
| `CsvParsing.OutputsRoundTrip` | CSVActivityPlugin/CSVParser.java:119-148 | a written outputs field is blank exactly when there are no outputs, and otherwise reads back as the outputs |
| `CsvParsing.LineNotBlank` | CSVActivityPlugin/CSVParser.java:52 | a written data line holds a comma, so it is never skipped |
| `CsvParsing.LineRoundTrip` | CSVActivityPlugin/CSVParser.java:100-126 | reading the line written for a writable row gives the row back |
| `CsvParsing.RenderLines` | CSVActivityPlugin/CSVParser.java:50-59 | one written line per row |
| `CsvParsing.RenderedRows` | CSVActivityPlugin/CSVParser.java:50-68 | reading written lines gives the rows back, in order |
| `CsvParsing.FileRoundTrip` | CSVActivityPlugin/CSVParser.java:31-72 | a valid header followed by the lines of writable rows reads back as exactly those rows |
| `CsvParsing.TrailingEmptyHeaderRejected` | CSVActivityPlugin/CSVParser.java:80-88 | the header `a,b,` has two fields under `split`, so the file is rejected |
| `CsvParsing.EmptyFileRejected` | CSVActivityPlugin/CSVParser.java:38-41 | a file without lines fails with "CSV file is empty" |
| `ExcelParsing.Window` | CSVActivityPlugin/ExcelParser.java:132 | the header search looks at no more than ten rows and no more than the sheet has |
| `ExcelParsing.ColumnsFrom` | CSVActivityPlugin/ExcelParser.java:132-159 | a header hit always has a Name column |
| `ExcelParsing.FindColumnIndices` | CSVActivityPlugin/ExcelParser.java:130-160 | the nested loops compute `ColumnIndices`: the map of the first scanned row with a Name cell, `None` when there is none, or the error of an unreadable cell |
| `ExcelParsing.CellsErrorPersists` | CSVActivityPlugin/ExcelParser.java:139-141 | once a cell cannot be read, the whole row's scan is that error |
| `ExcelParsing.FindHeaderRowIndex` | CSVActivityPlugin/ExcelParser.java:169-184 | the search loop computes `HeaderRowFrom`: the first present scanned row whose Name-column cell, lower-cased, contains "name", else 0, or the error of an unreadable cell met first |
| `ExcelParsing.ChooseDelimiter` | CSVActivityPlugin/ExcelParser.java:298-304 | the delimiter is `;` when present, otherwise `,` when present, otherwise `;` |
| `ExcelParsing.ParseDelimitedString` | CSVActivityPlugin/ExcelParser.java:294-322 | the loop computes `DelimitedValues`: trimmed non-empty tokens in order, or the trimmed string alone when no token survives |
| `ExcelParsing.ParseRow` | CSVActivityPlugin/ExcelParser.java:194-238 | the row is `RowOf`: skipped without Name column, non-`Action` or blank name; pin lists from present, non-empty Input/Output cells; errors of unreadable cells propagate |
| `ExcelParsing.ParseExcel` | CSVActivityPlugin/ExcelParser.java:46-121 | reading a workbook is `ExcelRows`: the format, missing-columns and missing-Name errors, else the records after the header row |
| `ExcelParsing.ReadRow` | CSVActivityPlugin/ExcelParser.java:86-99 | a missing row, a skipped row and a row whose parsing throws add nothing; an imported row adds its record |
| `ExcelParsing.ReadDataRows` | CSVActivityPlugin/ExcelParser.java:85-100 | the rows after the header, to the last row, in order, contribute their records |
| `ExcelParsing.SheetRowsStep` | CSVActivityPlugin/ExcelParser.java:85-100 | one more data row adds its records at the end |
| `ExcelParsing.RowIndicesReadable` | CSVActivityPlugin/ExcelParser.java:139-151 | a row's column map is built exactly when every cell of the row can be read |
| `ExcelParsing.RowIndicesLastMatch` | CSVActivityPlugin/ExcelParser.java:139-151 | each key names the last cell of its class, a class matched by no cell is absent, and a "name" cell is never the Input or Output column |
| `ExcelParsing.HeaderSearchFinds` | CSVActivityPlugin/ExcelParser.java:132-156 | the header row is the first present scanned row with a Name column, and its map is that row's map |
| `ExcelParsing.HeaderSearchFails` | CSVActivityPlugin/ExcelParser.java:132-159 | the search finds nothing exactly when no present scanned row has a Name column |
| `ExcelParsing.HeaderSearchIgnoresLaterRows` | CSVActivityPlugin/ExcelParser.java:132 | rows after the tenth never change the column map |
| `ExcelParsing.NoNameCell` | CSVActivityPlugin/ExcelParser.java:144-150 | in a row without Name column, no cell in any column holds "name" |
| `ExcelParsing.HeaderRowReached` | CSVActivityPlugin/ExcelParser.java:171-181 | the header-row search passes over rows without a Name column and stops at a row whose cell holds "name" |
| `ExcelParsing.HeaderRowAgrees` | CSVActivityPlugin/ExcelParser.java:169-184 | `findHeaderRowIndex` returns the row in which `findColumnIndices` found the Name column |
| `ExcelParsing.NoHeaderFails` | CSVActivityPlugin/ExcelParser.java:72-75 | with no Name cell in the scanned rows, a supported file fails with the missing-columns error |
| `ExcelParsing.ImportedRow` | CSVActivityPlugin/ExcelParser.java:199-215 | an imported record's name is its Name cell as read, non-empty and starting with "Action"; the other fields keep their defaults |
| `ExcelParsing.AbsentPinColumn` | CSVActivityPlugin/ExcelParser.java:217-235 | an absent Input or Output column, or an empty cell in it, leaves that list empty |
| `ExcelParsing.SheetRowsNamed` | CSVActivityPlugin/ExcelParser.java:85-100 | every record returned for a run of rows has a name starting with "Action" |
| `ExcelParsing.SheetRowsAt` | CSVActivityPlugin/ExcelParser.java:85-100 | the records of row `k` sit between those of the rows before and after it |
| `ExcelParsing.SheetRowsAppend` | CSVActivityPlugin/ExcelParser.java:85-100 | the records of two runs of rows are those of each, in row order |
| `ExcelParsing.DelimitedTokens` | CSVActivityPlugin/ExcelParser.java:307-319 | every value is trimmed and non-empty, and there are none exactly when the text is blank |
| `ExcelParsing.DelimitedRoundTrip` | CSVActivityPlugin/ExcelParser.java:294-322 | values joined by `;` or by `,` read back as the values |
| `ExcelParsing.DelimitersOnly` | CSVActivityPlugin/ExcelParser.java:316-319 | `";;"` reads as the single value `";;"` |
| `HostModel.AddNode` | CSVActivityPlugin/ActivityDiagramCreator.java:179 | adding a node appends it, with the old node count as its id, and changes nothing else |
| `HostModel.AddToLane` | CSVActivityPlugin/ActivityDiagramCreator.java:202 | adding a node to a partition appends its id to that partition's list only |
| `HostModel.ActivityNodes` | CSVActivityPlugin/DiagramGridLayouter.java:39 | the activity's own nodes are existing nodes owned by the activity |
| `HostModel.ActivityNodesIncreasing` | CSVActivityPlugin/DiagramGridLayouter.java:39 | the activity's own nodes come in creation order, none twice |
| `HostModel.Diagram.Reshape` | CSVActivityPlugin/DiagramGridLayouter.java:115 | reshaping a shape stores the new rectangle for it and changes no other shape |
| `DiagramCreation.LaneKey` | CSVActivityPlugin/ActivityDiagramCreator.java:128-129 | a null or blank actor is `<Unassigned>`, any other actor is its trimmed text |
| `DiagramCreation.CreateActivityPartitions` | CSVActivityPlugin/ActivityDiagramCreator.java:115-162 | the two loops give the fresh store `PartitionStore`: the actors in first-seen order, each with an empty node list |
| `DiagramCreation.ActorsDistinct` | CSVActivityPlugin/ActivityDiagramCreator.java:125-131 | no partition name is created twice |
| `DiagramCreation.ActorsMembers` | CSVActivityPlugin/ActivityDiagramCreator.java:124-131 | there is a partition for an actor key exactly when some top-level row has that key; sub-action rows contribute none |
| `DiagramCreation.ActorsGrow` | CSVActivityPlugin/ActivityDiagramCreator.java:125-131 | the partitions of an earlier prefix of the rows come first, in the same order |
| `DiagramCreation.TopRows` | CSVActivityPlugin/ActivityDiagramCreator.java:195-199 | there are no more top-level rows than rows |
| `DiagramCreation.NoLanesIffNoTopRows` | CSVActivityPlugin/ActivityDiagramCreator.java:126-131 | there is no partition exactly when there is no top-level row |
| `DiagramCreation.TopLanesExist` | CSVActivityPlugin/ActivityDiagramCreator.java:191-193 | every top-level row's lane key has a partition |
| `DiagramCreation.AddPins` | CSVActivityPlugin/ActivityDiagramCreator.java:262-295 | one input pin per listed input and one output pin per listed output, appended in order, with no deduplication |
| `DiagramCreation.CreateMainAction` | CSVActivityPlugin/ActivityDiagramCreator.java:225-236 | a top-level row adds a structured node in the activity, whatever type was chosen, with the row's pins |
| `DiagramCreation.CreateSubAction` | CSVActivityPlugin/ActivityDiagramCreator.java:238-259 | a sub-action adds a call behaviour action only for the call behaviour type, else a structured node, nested in its parent, with its pins |
| `DiagramCreation.ProcessRow` | CSVActivityPlugin/ActivityDiagramCreator.java:186-209 | one pass of the row loop is `Step`: an orphan sub-action does nothing; a sub-action adds a nested node; a top-level row adds a node, lane membership, a flow from `prev`, and becomes `prev` |
| `DiagramCreation.CreateActivityNodes` | CSVActivityPlugin/ActivityDiagramCreator.java:167-221 | the method is `BuildNodes`: it fails when there is no partition, and otherwise adds Start, the row loop, then End |
| `DiagramCreation.Links` | CSVActivityPlugin/ActivityDiagramCreator.java:205-208 | a chain of n nodes has n - 1 links |
| `DiagramCreation.LinksChain` | CSVActivityPlugin/ActivityDiagramCreator.java:205-208 | link `k` goes from node `k` to node `k + 1` |
| `DiagramCreation.LinksSnoc` | CSVActivityPlugin/ActivityDiagramCreator.java:205-208 | extending the chain adds one link from its old last node |
| `DiagramCreation.WalkSnoc` | CSVActivityPlugin/ActivityDiagramCreator.java:186-210 | the loop over one more row is one more pass |
| `DiagramCreation.StepFacts` | CSVActivityPlugin/ActivityDiagramCreator.java:195-209 | a sub-action leaves `prev`, the name map and the flows unchanged; a top-level row appends its node and one flow from `prev` to it, and maps its name to it |
| `DiagramCreation.StepMembers` | CSVActivityPlugin/ActivityDiagramCreator.java:202 | no partition loses a member, and a top-level row's node joins its existing lane |
| `DiagramCreation.WalkGrows` | CSVActivityPlugin/ActivityDiagramCreator.java:186-210 | the loop keeps the partitions and only appends nodes |
| `DiagramCreation.WalkCount` | CSVActivityPlugin/ActivityDiagramCreator.java:199-209 | the loop creates one top-level node per top-level row |
| `DiagramCreation.WalkEdges` | CSVActivityPlugin/ActivityDiagramCreator.java:182-208 | the loop's flows chain the start node through the top-level nodes in row order, and `prev` ends at the last of them |
| `DiagramCreation.WalkMainNodes` | CSVActivityPlugin/ActivityDiagramCreator.java:200-201 | the `k`-th top-level node is the node of the `k`-th top-level row |
| `DiagramCreation.LastNamed` | CSVActivityPlugin/ActivityDiagramCreator.java:203 | the index returned is -1 or a top-level row of that name |
| `DiagramCreation.LastNamedIsLast` | CSVActivityPlugin/ActivityDiagramCreator.java:203 | no later top-level row has that name |
| `DiagramCreation.WalkMainMap` | CSVActivityPlugin/ActivityDiagramCreator.java:184-203 | a name is mapped exactly when a top-level row had it, and it maps to the most recent such node |
| `DiagramCreation.WalkKeepsMembers` | CSVActivityPlugin/ActivityDiagramCreator.java:202 | the loop never removes a lane member |
| `DiagramCreation.WalkLanes` | CSVActivityPlugin/ActivityDiagramCreator.java:191-202 | each top-level node whose lane exists is in that lane |
| `DiagramCreation.BuildEdges` | CSVActivityPlugin/ActivityDiagramCreator.java:176-220 | the flows are one chain Start, the top-level nodes in row order, End; there is one flow more than there are top-level rows |
| `DiagramCreation.BuildPathNodes` | CSVActivityPlugin/ActivityDiagramCreator.java:176-216 | the chain begins at the Start node and ends at the End node, and its inner nodes are the top-level rows' nodes in order; earlier nodes stay |
| `DiagramCreation.FinishNodes` | CSVActivityPlugin/ActivityDiagramCreator.java:212-220 | adding End after the loop keeps the chain's nodes and ends it at End |
| `DiagramCreation.BuildLanes` | CSVActivityPlugin/ActivityDiagramCreator.java:180-216 | Start and End are in the first partition, End last, and each top-level node is in its lane |
| `DiagramCreation.LaneMainsFrom` | CSVActivityPlugin/ActivityDiagramCreator.java:191-202 | a node in a lane's list of top-level nodes is the node of a top-level row whose actor names that lane |
| `DiagramCreation.LaneMainsSnoc` | CSVActivityPlugin/ActivityDiagramCreator.java:191-202 | one more top-level row appends its node to its own lane's list and to no other |
| `DiagramCreation.StepMembersExact` | CSVActivityPlugin/ActivityDiagramCreator.java:191-202 | one row adds its node to the end of its actor's lane, if that lane exists and the row is top-level, and changes no other lane |
| `DiagramCreation.MembersAtStep` | CSVActivityPlugin/ActivityDiagramCreator.java:191-202 | after one more row, a lane's members are its old members followed by the top-level nodes of that lane in row order |
| `DiagramCreation.WalkMembersAt` | CSVActivityPlugin/ActivityDiagramCreator.java:186-210 | after the row loop, a lane's members are its old members followed by exactly the top-level nodes of its actor, in row order |
| `DiagramCreation.WalkMembers` | CSVActivityPlugin/ActivityDiagramCreator.java:186-210 | the row loop adds no lane, and every lane's list is its old list followed by exactly its top-level nodes in row order |
| `DiagramCreation.WalkMainsIncreasing` | CSVActivityPlugin/ActivityDiagramCreator.java:199-201 | top-level nodes are created in row order, so their ids increase |
| `DiagramCreation.BuildMembers` | CSVActivityPlugin/ActivityDiagramCreator.java:176-220 | each lane's final list is its old list, then Start for the first lane, then exactly its top-level nodes in row order, then End for the first lane |
| `DiagramCreation.CreateActivityMembers` | CSVActivityPlugin/ActivityDiagramCreator.java:71-81 | the lanes are exactly the actors; each lane holds exactly Start (first lane only), its top-level nodes in row order, and End (first lane only) |
| `DiagramCreation.CreateActivityLanesExact` | CSVActivityPlugin/ActivityDiagramCreator.java:71-81 | every lane member is on the flow path; Start and End are in no lane but the first; a top-level node is in no lane but its actor's |
| `DiagramCreation.LaneListFacts` | CSVActivityPlugin/ActivityDiagramCreator.java:176-220 | a lane list of that shape holds only path nodes, holds Start and End only for the first lane, and holds a top-level node only in that row's lane |
| `DiagramCreation.FinishLanes` | CSVActivityPlugin/ActivityDiagramCreator.java:216 | adding End puts it last in the first partition and keeps every lane member |
| `DiagramCreation.SubActionAttaches` | CSVActivityPlugin/ActivityDiagramCreator.java:195-198 | a sub-action never adds a flow or moves `prev`; it nests in the most recent earlier top-level node of its parent's name, or is dropped |
| `DiagramCreation.CreateActivityFails` | CSVActivityPlugin/ActivityDiagramCreator.java:180 | the build fails exactly when there is no top-level row, with `NoSuchElementException` |
| `DiagramCreation.CreateActivityLanes` | CSVActivityPlugin/ActivityDiagramCreator.java:71-81 | after partitions and nodes, every top-level node is in the lane of its actor |
| `DiagramCreation.BoundsReadNodesOnly` | CSVActivityPlugin/ActivityDiagramCreator.java:398-408 | a lane's box depends only on node shapes |
| `DiagramCreation.PlaceholderStep` | CSVActivityPlugin/ActivityDiagramCreator.java:351-356 | one more partition with a shape gets the placeholder; one without a shape is skipped |
| `DiagramCreation.FittedKeepsNodes` | CSVActivityPlugin/ActivityDiagramCreator.java:390-421 | fitting lanes keeps every shape and moves no node shape |
| `DiagramCreation.FittedStep` | CSVActivityPlugin/ActivityDiagramCreator.java:390-421 | fitting one more lane reshapes only that lane |
| `DiagramCreation.ActivityDiagramCreator.constructor` | CSVActivityPlugin/ActivityDiagramCreator.java:44 | the creator starts with no lane shapes |
| `DiagramCreation.ActivityDiagramCreator.CreatePartitionPresentations` | CSVActivityPlugin/ActivityDiagramCreator.java:319-358 | every partition with a lane shape is recorded and given the rectangle (150, 70, 450, 300); one without a shape is skipped |
| `DiagramCreation.ActivityDiagramCreator.FitLaneShapesToContents` | CSVActivityPlugin/ActivityDiagramCreator.java:384-422 | every recorded lane is reshaped as `FittedShapes` says, and nothing else changes |
| `DiagramCreation.BoundingBox` | CSVActivityPlugin/ActivityDiagramCreator.java:395-408 | the loop computes `Bounds`, the box of the members that have a shape |
| `DiagramCreation.BoundsContain` | CSVActivityPlugin/ActivityDiagramCreator.java:398-408 | the box holds the corners of every member shape |
| `DiagramCreation.BoundsOfNone` | CSVActivityPlugin/ActivityDiagramCreator.java:395-396 | with no member shape the box keeps its starting extremes |
| `DiagramCreation.EmptyLaneFit` | CSVActivityPlugin/ActivityDiagramCreator.java:395-417 | an empty lane is not skipped; it becomes (MAX-40, MAX-40, 81, 81) |
| `DiagramCreation.BoundsMinFromMember` | CSVActivityPlugin/ActivityDiagramCreator.java:403 | the box's left edge is the starting `MAX_VALUE` or some member's x |
| `DiagramCreation.SkipOnlyAtMinValue` | CSVActivityPlugin/ActivityDiagramCreator.java:410 | the skip is taken only when a member's x is `MIN_VALUE` |
| `DiagramCreation.BoundsRange` | CSVActivityPlugin/ActivityDiagramCreator.java:403-406 | the box of moderately sized member shapes stays well inside the `int` range |
| `DiagramCreation.LaneContainsMembers` | CSVActivityPlugin/ActivityDiagramCreator.java:388-420 | without overflow, a fitted lane is the box grown by 40 on every side, so each member lies inside with a 40 margin |
| `GridLayout.ColumnCentre` | CSVActivityPlugin/DiagramGridLayouter.java:35-57 | every node is centred on x = 600, the middle of the 1200 wide diagram |
| `GridLayout.NodeRectFormula` | CSVActivityPlugin/DiagramGridLayouter.java:35-114 | an action is (500, y, 200, 80 + 25 per pin beyond three on its fuller side); any other node is (590, y, 20, 20) |
| `GridLayout.PinRefs` | CSVActivityPlugin/DiagramGridLayouter.java:60-105 | a side's pin list holds that side's pins of the node, in order |
| `GridLayout.CollectPins` | CSVActivityPlugin/DiagramGridLayouter.java:60-105 | the collecting loop builds that list |
| `GridLayout.PlacePins` | CSVActivityPlugin/DiagramGridLayouter.java:167-184 | the indexed loop reshapes each pin with a shape to its slot in the stack |
| `GridLayout.PositionPins` | CSVActivityPlugin/DiagramGridLayouter.java:154-209 | inputs are stacked on the left edge and outputs on the right, each stack centred with `int` division |
| `GridLayout.PlaceStackKeeps` | CSVActivityPlugin/DiagramGridLayouter.java:167-184 | stacking pins adds no shape and moves nothing but those pins |
| `GridLayout.PinsPlacedKeeps` | CSVActivityPlugin/DiagramGridLayouter.java:154-209 | positioning pins adds no shape and moves nothing but the pins |
| `GridLayout.PinRectFormula` | CSVActivityPlugin/DiagramGridLayouter.java:159-201 | input pin `i` of `n` is (ax - 10, s + 25 i, 20, 20) and output pin `i` is at x = ax + aw - 10, with s = ay + (ah - (25 n - 5)) / 2 rounded toward zero |
| `GridLayout.StackKey` | CSVActivityPlugin/DiagramGridLayouter.java:167-184 | a stack keeps the keys and every shape not in it |
| `GridLayout.SideKey` | CSVActivityPlugin/DiagramGridLayouter.java:175-179 | pin `i` of a side that has a shape ends `i` pitches of 25 below the stack top |
| `GridLayout.PinsPlacedAt` | CSVActivityPlugin/DiagramGridLayouter.java:154-209 | every shaped input pin gets its left-edge rectangle and every shaped output pin its right-edge rectangle |
| `GridLayout.PinStackInside` | CSVActivityPlugin/DiagramGridLayouter.java:107-188 | with the layout's own height, each pin stack starts at least 5 below the node's top and ends at least 5 above its bottom |
| `GridLayout.NotOnSide` | CSVActivityPlugin/DiagramGridLayouter.java:60-105 | a node's pin lists hold only its own pins |
| `GridLayout.PinsPlacedKey` | CSVActivityPlugin/DiagramGridLayouter.java:154-209 | positioning pins keeps the keys and every shape that is not one of the pins |
| `GridLayout.LayoutNodeKey` | CSVActivityPlugin/DiagramGridLayouter.java:39-147 | one node's pass keeps the keys and every shape that is not the node's or its pins' |
| `GridLayout.LayOutNode` | CSVActivityPlugin/DiagramGridLayouter.java:39-147 | one pass of the node loop is `LayoutNode`, including the read-back and the corrective reshape |
| `GridLayout.LayoutNodeEffect` | CSVActivityPlugin/DiagramGridLayouter.java:114-146 | a shapeless node changes nothing and does not move the cursor. A shaped node gets its rectangle and moves the cursor by its height plus `yStep`. Its pins are stacked against the read-back frame, or against its own rectangle when the read-back width differs. A node without pins touches nothing else |
| `GridLayout.Layout` | CSVActivityPlugin/DiagramGridLayouter.java:29-149 | the node loop is `LayoutShapes`, over the activity's own nodes in order |
| `GridLayout.LayoutFromKey` | CSVActivityPlugin/DiagramGridLayouter.java:39-148 | the layout keeps the keys and every shape belonging to no laid-out node |
| `GridLayout.FirstSettled` | CSVActivityPlugin/DiagramGridLayouter.java:39-148 | later nodes leave an earlier node's shape and pins as placed |
| `GridLayout.FirstPlaced` | CSVActivityPlugin/DiagramGridLayouter.java:114-143 | the first shaped node ends at the starting cursor with its pins against its frame |
| `GridLayout.LayoutFromAt` | CSVActivityPlugin/DiagramGridLayouter.java:32-148 | each shaped node ends at the start plus the advance over the nodes before it, with its pins against its frame there |
| `GridLayout.LayoutShapesAt` | CSVActivityPlugin/DiagramGridLayouter.java:29-149 | the same for the activity's own nodes from `startY` |
| `GridLayout.LayoutShapesKeeps` | CSVActivityPlugin/DiagramGridLayouter.java:39-148 | the layout keeps every shape; lane shapes and the shapes of nested nodes and their pins do not move |
| `GridLayout.AdvanceAppend` | CSVActivityPlugin/DiagramGridLayouter.java:146 | the cursor's advance over two runs of nodes is the sum of both |
| `GridLayout.AdvanceNonNegative` | CSVActivityPlugin/DiagramGridLayouter.java:146 | with a non-negative `yStep` the cursor never moves up |
| `GridLayout.NoOverlap` | CSVActivityPlugin/DiagramGridLayouter.java:32-146 | with `yStep >= 0`, a later shaped node starts at least `yStep` below the bottom of an earlier one, both centred on x = 600 |

## Left out

- File reading:
  - the `BufferedReader` of the CSV reader;
  - workbook construction, closing and `getSheetAt(0)` (the first sheet is given);
  - the "no sheets" error.
- Cell types. `getCellValue`'s numeric, date, boolean and formula branches need
  doubles, dates and Apache POI. A cell is absent, text (trimmed on read) or
  unreadable.
- `CsvParsing.ParseLine` cannot fail in the model: on a line sequence no
  statement of `parseLine` throws. So the "Error parsing line n" path of
  `parseCSV` is not reachable. The loop still keeps the line counter, which the
  invariant ties to 2 plus the rows read.
- `ExcelParsing.ReadRow` drops the warning printed for a row that throws;
  logging is output only.
- `JavaText.ToLower` lower-cases ASCII letters only; Java's case mapping of
  other letters is not modelled.
- What the creator does outside the store:
  - the session transaction and its rollback;
  - the action-type and parent dialogs (`ActionTypeChooser` and
    `DiagramParentChooser` are not part of this model; the chosen types are a
    map parameter);
  - moving the activity, the SysML stereotype lookup, and creating and opening
    the diagram;
  - `createSwimlane`, `populateDiagramNodes` and `populateDiagramPaths`. The
    shapes they create are the keys of the `shapes` map.
- `DiagramCreation.ActivityDiagramCreator.CreatePartitionPresentations` does
  not keep the second map, `laneShapeByActor`. It is filled but never read.
- `DiagramCreation.ActivityDiagramCreator.FitLaneShapesToContents` visits lanes
  in an arbitrary order, because Java `HashMap` order is not specified. Each
  lane is fitted independently, so the result does not depend on the order.
- `Thread.sleep` and the debugging output of the layouter: timing and logging only.
- `GridLayout.Layout`: its arithmetic is unbounded. The layout's numbers stay far
  inside the `int` range, so 32-bit wrap-around is modelled only in the lane fit.
- `GridLayout.LayOutNode`: both reads of the renderer's bounds are functions of
  the requested rectangle, so the renderer's answer cannot depend on anything
  else. Node shapes in the model are the requested rectangles, not the rendered
  ones; pins are placed against the first read (or the requested rectangle after
  the corrective reshape). So `GridLayout.NoOverlap` and the lane fit are
  statements about the requested bounds of the nodes. The model records the
  final rectangles, not how many reshape calls were made, so "the corrective
  reshape happens exactly once" is shown only as a final state.
- The loop bodies `DiagramCreation.ProcessRow`, `ExcelParsing.ReadRow`,
  `GridLayout.LayOutNode`, `GridLayout.PlacePins` and `GridLayout.CollectPins`,
  and the delimiter loop `ExcelParsing.ChooseDelimiter`, are methods of their
  own. The Java code writes them inline.
- Name-based reuse of existing nodes, and port merging: no shown file implements them.
