# Vulnerability report generator — verified model

`ob_maker.py` turns an Excel sheet of findings into a Word report. It writes a
heading, "Vulnerability Report". Then, for every row of the sheet, it writes a
two-column table followed by a spacer paragraph. Each table has a fixed
"Header | Details" first row and then one row per label of `combined_order`.
The details cell is chosen by an if/elif chain:

- two labels get fixed text;
- each label that is a value of `header_mapping` gets the cell of the Excel
  column that maps to it, found by a reverse lookup;
- every other label gets the empty string.

This project models that core in three modules:

- `HeaderTables` (`tables.dfy`) holds the three constant tables, Python's
  `list.index`, and the reverse lookup from a Word label to its Excel column.
  Its lemmas prove that the mapping is injective and that the lookup inverts
  it. They also prove that `combined_order` is, label for label, the disjoint
  union of the mapping's values and `extra_rows`.
- `FieldMapper` (`mapper.dfy`) holds the per-label value selection
  (`SelectValue`) and the table that one sheet row produces (`TableFor`). A
  sheet row is a map from column name to cell text. Reading a column the row
  lacks raises `KeyError` in the program; here it is the error value
  `MissingColumn(column)`. The lemmas check the selection against an
  independent table (`FieldSpec`) that lists, for each label, which column or
  which constant it shows. They also give the exact condition under which a
  table can be built, and the whole 13-row table of a complete row.
- `ReportBuilder` (`document.dfy`) holds the imperative part. `WordTable` and
  `Document` are classes whose methods append rows and blocks. The program's
  imperative steps are methods: `ValueFor` is the if/elif chain,
  `AddFieldRows` the loop over the labels, `FillTable` the body of the loop
  over the sheet rows, and `BuildReport` that loop with the heading before
  it. Each one is proved equal to the pure specification function of
  `FieldMapper` or of this module (`DocumentFor`). The lemmas give the
  document's shape: a heading, then one table and one spacer per sheet row.
  A run fails exactly when some row lacks a mapped column.

Three behaviours of the code are worth stating:

- A missing mapped column is not turned into an empty cell. Reading the cell
  (`ob_maker.py` line 124) raises `KeyError`, so the whole run stops. The
  model returns `MissingColumn` with the column's name.
- The title label is spelled `Observation/ Vulnerability Title`, with a space
  after the slash (lines 57 and 77).
- The spacer paragraph follows every table, the last one included (line 135).
  It is not placed between tables only.

## Model

| member | source | states |
|---|---|---|
| HeaderTables.HeaderMapping | ob_maker.py:54-63 | the eight (Excel header, Word label) pairs in insertion order, 'Risk Severity ' with its trailing space; its properties are the Distinct and ReverseLookup lemmas below |
| HeaderTables.ExtraRows | ob_maker.py:66-71 | the four labels without a source column; see ExtraRowsDistinct, ValuesExtraDisjoint, SpecialLabelsAreExtra |
| HeaderTables.CombinedOrder | ob_maker.py:74-87 | the twelve labels in emission order; see CombinedOrderDistinct, CombinedOrderCovers, CombinedOrderPartition |
| HeaderTables.MappingKeys | ob_maker.py:54-63 | the mapping's keys, in insertion order, one per entry |
| HeaderTables.MappingValues | ob_maker.py:54-63 | the mapping's values, in insertion order, one per entry |
| HeaderTables.IndexOf | ob_maker.py:123 | `list.index` returns a position holding the element, and no earlier position holds it |
| HeaderTables.IndexOfDistinct | ob_maker.py:123 | in a list without repetitions, `index` of the element at position i is i |
| HeaderTables.ReverseLookup | ob_maker.py:122-123 | a key is found exactly when the label is a mapping value, and the found key maps to that label |
| HeaderTables.MappingKeysDistinct | ob_maker.py:54-63 | the Excel headers of the mapping are pairwise distinct |
| HeaderTables.MappingValuesDistinct | ob_maker.py:54-63 | no two Excel headers map to the same Word label, so the reverse lookup is unambiguous |
| HeaderTables.ReverseLookupInverts | ob_maker.py:122-123 | looking up the value of any entry gives back that entry's key |
| HeaderTables.ReverseLookupUnique | ob_maker.py:122-123 | any key mapped to a label is the key the lookup returns |
| HeaderTables.CombinedOrderDistinct | ob_maker.py:74-87 | the emission order has twelve labels, none repeated |
| HeaderTables.CombinedOrderCovers | ob_maker.py:54-87 | a label is emitted iff it is a mapping value or an extra row |
| HeaderTables.ValuesExtraDisjoint | ob_maker.py:54-71 | no mapping value is also an extra row |
| HeaderTables.ExtraRowsDistinct | ob_maker.py:66-71 | the extra rows are pairwise distinct |
| HeaderTables.DistinctOccursOnce | ob_maker.py:74-87 | in a list without repetitions every element occurs exactly once |
| HeaderTables.DisjointUnion | ob_maker.py:54-87 | a repetition-free list covering two disjoint repetition-free lists is their multiset sum |
| HeaderTables.CombinedOrderPartition | ob_maker.py:54-87 | each emitted label comes from exactly one of the mapping's values and the extra rows, and each of those is emitted exactly once |
| HeaderTables.SpecialLabelsAreExtra | ob_maker.py:66-71 | the two fixed-text labels are extra rows and never mapping values, so the first two branches never hide a column |
| FieldMapper.SelectValue | ob_maker.py:117-126 | the value chosen for a label: its meaning is fixed by SelectValueMatchesFieldSpec (agreement with the independent per-label table at every emitted label) and SelectValueErr (fails exactly on a mapped label whose column is absent) |
| FieldMapper.SelectValueErr | ob_maker.py:117-126 | selection fails iff the label is mapped and its column is absent from the row; the failing column is that label's key |
| FieldMapper.SelectValueMapped | ob_maker.py:122-124 | a mapped label shows the cell of its own Excel column, or fails naming that column when it is absent |
| FieldMapper.SelectValueSpecial | ob_maker.py:118-121 | 'New or Repeat observation' shows 'New observation'; 'Final Status' shows 'Remediated and Closed ()', whatever the row |
| FieldMapper.SelectValueUnmapped | ob_maker.py:125-126 | the two unmapped extra labels show the empty string |
| FieldMapper.SelectValueMatchesFieldSpec | ob_maker.py:74-126 | for each emitted label, the if/elif chain agrees with an independent per-label column/constant table |
| FieldMapper.FieldRows | ob_maker.py:117-129 | a successful pass yields one row per label, each headed by its label, in order |
| FieldMapper.TableFor | ob_maker.py:103-129 | a built table has the 'Header'/'Details' row and then one row per emitted label, headed by that label in order; its cells are fixed by TableMatchesFieldSpec and when it can be built by TableOkIff |
| FieldMapper.FieldRowsAt | ob_maker.py:127-129 | the details cell of row i is the value selected for label i |
| FieldMapper.FieldRowsOk | ob_maker.py:117-129 | the pass succeeds iff the selection succeeds for every label |
| FieldMapper.FieldRowsErr | ob_maker.py:117-129 | a failed pass reports the error of the first failing label: every label before it succeeds |
| FieldMapper.FieldRowsFirstError | ob_maker.py:117-129 | the reported error is that of the first failing label |
| FieldMapper.FieldRowsExtend | ob_maker.py:117-129 | one more loop step appends exactly the next label's row |
| FieldMapper.FieldRowsPropagate | ob_maker.py:117-129 | once a prefix fails, the whole pass fails with the same error |
| FieldMapper.TableShape | ob_maker.py:103-129 | a built table has 13 rows: 'Header'/'Details' first, then the labels in emission order |
| FieldMapper.TableMatchesFieldSpec | ob_maker.py:103-129 | every table row after the first shows exactly what the independent per-label table says |
| FieldMapper.TableConstants | ob_maker.py:117-126 | the rows for the four extra labels are fixed, whatever the sheet row holds |
| FieldMapper.TableCell | ob_maker.py:117-129 | the details cell of table row j+1 is the independent table's entry j |
| FieldMapper.SelectValueComplete | ob_maker.py:117-126 | with every mapped column present, no label fails |
| FieldMapper.TableOkIff | ob_maker.py:117-129 | a table can be built iff the row has all eight mapped columns; a failure names a mapped column |
| FieldMapper.TableMissingKey | ob_maker.py:124 | a row lacking any mapped column makes the table fail |
| FieldMapper.HasAllColumnsIff | ob_maker.py:54-63 | the eight explicit column tests say the same as "every mapping key is present" |
| FieldMapper.TableOfCompleteRow | ob_maker.py:103-129 | the full 13-row table of a complete row, cell by cell, in terms of its Excel columns |
| FieldMapper.CompleteRowFirstHalf | ob_maker.py:112-129 | rows 0-3 of a complete row's table |
| FieldMapper.CompleteRowSecondHalf | ob_maker.py:117-129 | rows 5-9 of a complete row's table |
| FieldMapper.MissingAssetDetails | ob_maker.py:117-124 | with 'Sr No.' present and 'Asset Details' absent, the error names 'Asset Details', the second label's column |
| FieldMapper.TrailingSpaceMatters | ob_maker.py:58 | a sheet whose column is 'Risk Severity' without the trailing space fails |
| ReportBuilder.WordTable.constructor | ob_maker.py:103 | a new table has a single empty row |
| ReportBuilder.WordTable.SetRow | ob_maker.py:112-114 | overwrites row i and leaves the others unchanged |
| ReportBuilder.WordTable.AddRow | ob_maker.py:127-129 | appends one row with the given cells |
| ReportBuilder.Document.constructor | ob_maker.py:90 | a new document has no blocks |
| ReportBuilder.Document.AddHeading | ob_maker.py:99 | appends one heading block |
| ReportBuilder.Document.AddTable | ob_maker.py:103 | appends one table block holding the table's rows |
| ReportBuilder.Document.AddParagraph | ob_maker.py:135 | appends one paragraph block |
| ReportBuilder.RowBlocks | ob_maker.py:102-135 | a successful pass over the sheet yields two blocks per sheet row |
| ReportBuilder.DocumentFor | ob_maker.py:99-135 | a built document has the heading first and two blocks per sheet row; its blocks are fixed by DocumentShape and when it can be built by DocumentOkIff |
| ReportBuilder.ValueFor | ob_maker.py:117-126 | the if/elif chain with the positional reverse lookup computes the selection function |
| ReportBuilder.AddFieldRows | ob_maker.py:117-129 | the inner loop's result is the per-label pass, and on success the table grew by exactly those rows |
| ReportBuilder.FillTable | ob_maker.py:103-129 | filling a fresh table gives the specified 13-row table, and the table holds exactly it |
| ReportBuilder.RowBlocksExtend | ob_maker.py:102-135 | one more sheet row appends its table and one spacer |
| ReportBuilder.RowBlocksPropagate | ob_maker.py:102-135 | once a sheet row fails, the whole run fails with the same error |
| ReportBuilder.BuildReport | ob_maker.py:99-135 | the outer loop computes the specified document, or the first missing-column error |
| ReportBuilder.DocumentShape | ob_maker.py:99-135 | the document is the heading, then for sheet row i its table at 1+2i and a spacer at 2+2i |
| ReportBuilder.RowBlocksAt | ob_maker.py:102-135 | block 2i is sheet row i's table and block 2i+1 the spacer |
| ReportBuilder.EmptySheet | ob_maker.py:99-102 | an empty sheet gives a document holding only the heading |
| ReportBuilder.DocumentOkIff | ob_maker.py:99-135 | the run succeeds iff every sheet row has all mapped columns |
| ReportBuilder.RowBlocksOk | ob_maker.py:102-135 | the pass succeeds iff every sheet row's table can be built |
| ReportBuilder.RowBlocksErr | ob_maker.py:102-135 | a failed run reports the error of the first failing sheet row: every row before it builds its table |
| ReportBuilder.TableCountMatchesRows | ob_maker.py:102-135 | the document holds exactly one table per sheet row |
| ReportBuilder.RowBlocksTableCount | ob_maker.py:102-135 | the per-row blocks hold exactly one table per sheet row |
| ReportBuilder.TableCountAppend | ob_maker.py:102-135 | counting tables distributes over concatenation of block lists |

## Left out

- Reading the workbook (`pandas.read_excel`), printing its columns, saving the
  document and the success message are I/O. The sheet is a parameter: a
  sequence of rows, each a map from column name to cell text.
- The command-line parsing and the banner are not part of this model.
- Page orientation (the width/height swap), table style, autofit, column
  widths and fonts (`set_column_widths`, `set_table_font`) only affect layout.
  The model records text only.
- `str(value)`: cells are already text here. Numeric, date and NaN cells, and
  how they print, are not modelled.
- ReportBuilder.BuildReport: the program appends the empty table to the
  document first and then fills it through the shared reference. The model
  fills a table of its own and appends its rows afterwards. The final document
  is the same, because a failure stops the run before anything is saved. The
  aliasing between the document and the live table is not modelled.
- ReportBuilder.WordTable: a table is a list of two-cell rows. Cell objects,
  merged cells and the column count are not modelled.
- Running the generator twice on the same sheet gives the same document. In
  the model this holds by construction, since `DocumentFor` is a function, so
  no separate lemma states it.
