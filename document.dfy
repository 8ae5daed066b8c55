/** Assembly of the report: a heading, then for each spreadsheet row one
    two-column table followed by a spacer paragraph. */
module ReportBuilder {
  import opened HeaderTables
  import opened FieldMapper

  /** What the Word document holds, in order. */
  datatype Block = Heading(text: string, level: nat) | Table(rows: seq<TableRow>) | Paragraph(text: string)

  const Title: string := "Vulnerability Report"
  const Spacer: string := "\n"

  /** A two-column Word table whose rows grow one at a time. */
  class WordTable {
    var rows: seq<TableRow>

    /** A new two-column table holds one row of empty cells. */
    constructor ()
      ensures rows == [TableRow("", "")]
    {
      rows := [TableRow("", "")];
    }

    /** Write both cells of an existing row. */
    method SetRow(i: nat, header: string, details: string)
      requires i < |rows|
      modifies this
      ensures rows == old(rows)[i := TableRow(header, details)]
    {
      rows := rows[i := TableRow(header, details)];
    }

    /** Appends a row and writes its two cells. */
    method AddRow(header: string, details: string)
      modifies this
      ensures rows == old(rows) + [TableRow(header, details)]
    {
      rows := rows + [TableRow(header, details)];
    }
  }

  /** The Word document being built: a growing sequence of blocks. */
  class Document {
    var blocks: seq<Block>

    constructor ()
      ensures blocks == []
    {
      blocks := [];
    }

    method AddHeading(text: string, level: nat)
      modifies this
      ensures blocks == old(blocks) + [Heading(text, level)]
    {
      blocks := blocks + [Heading(text, level)];
    }

    /** Appends the finished table's rows. */
    method AddTable(t: WordTable)
      modifies this
      ensures blocks == old(blocks) + [Table(t.rows)]
    {
      blocks := blocks + [Table(t.rows)];
    }

    method AddParagraph(text: string)
      modifies this
      ensures blocks == old(blocks) + [Paragraph(text)]
    {
      blocks := blocks + [Paragraph(text)];
    }
  }

  /** The blocks appended for `rows`: a table and a spacer per row, in row
      order; the first row whose table fails stops the run with its error. */
  function RowBlocks(rows: seq<Row>): (r: Result<seq<Block>>)
    ensures r.Ok? ==> |r.value| == 2 * |rows|
    decreases |rows|
  {
    if rows == [] then Ok([])
    else
      match RowBlocks(rows[..|rows| - 1])
      case Err(e) => Err(e)
      case Ok(prefix) =>
        match TableFor(rows[|rows| - 1])
        case Err(e) => Err(e)
        case Ok(t) => Ok(prefix + [Table(t), Paragraph(Spacer)])
  }

  /** The document saved for a sheet: the heading, then the row blocks. */
  function DocumentFor(rows: seq<Row>): (r: Result<seq<Block>>)
    ensures r.Ok? ==> |r.value| == 1 + 2 * |rows| && r.value[0] == Heading(Title, 1)
  {
    match RowBlocks(rows)
    case Err(e) => Err(e)
    case Ok(bs) => Ok([Heading(Title, 1)] + bs)
  }

  /** The if/elif chain that picks the text written beside `field`; reading
      a column the row lacks is the KeyError that ends the run. */
  method ValueFor(row: Row, field: string) returns (r: Result<string>)
    ensures r == SelectValue(row, field)
  {
    if field == NewOrRepeatLabel {
      r := Ok(NewObservation);
    } else if field == FinalStatusLabel {
      r := Ok(RemediatedAndClosed);
    } else if field in MappingValues() {
      var excelHeader := MappingKeys()[IndexOf(MappingValues(), field)];
      if excelHeader !in row {
        return Err(MissingColumn(excelHeader));
      }
      r := Ok(row[excelHeader]);
    } else {
      r := Ok("");
    }
  }

  /** The inner loop: for each label of `fields`, in order, appends the
      label and its selected value to `table`; a missing column stops it. */
  method AddFieldRows(table: WordTable, row: Row, fields: seq<string>) returns (r: Result<seq<TableRow>>)
    modifies table
    ensures r == FieldRows(row, fields)
    ensures r.Ok? ==> table.rows == old(table.rows) + r.value
  {
    var i := 0;
    var added: seq<TableRow> := [];
    while i < |fields|
      invariant 0 <= i <= |fields|
      invariant FieldRows(row, fields[..i]) == Ok(added)
      invariant table.rows == old(table.rows) + added
    {
      var field := fields[i];
      var value := ValueFor(row, field);
      FieldRowsExtend(row, fields, i);
      if value.Err? {
        FieldRowsPropagate(row, fields, i + 1);
        return Err(value.error);
      }
      table.AddRow(field, value.value);
      added := added + [TableRow(field, value.value)];
      i := i + 1;
    }
    assert fields[..i] == fields;
    r := Ok(added);
  }

  /** The loop body of the report: fills a new table for `row`, header pair
      first, then a row per label of `combined_order`. */
  method FillTable(table: WordTable, row: Row) returns (r: Result<seq<TableRow>>)
    requires table.rows == [TableRow("", "")]
    modifies table
    ensures r == TableFor(row)
    ensures r.Ok? ==> table.rows == r.value
  {
    table.SetRow(0, "Header", "Details");
    var fieldRows := AddFieldRows(table, row, CombinedOrder);
    match fieldRows
    case Err(e) => r := Err(e);
    case Ok(rs) => r := Ok([HeaderRow] + rs);
  }

  /** One more row extends the blocks of a complete prefix by its table and
      a spacer, or fails with the error of its table. */
  lemma RowBlocksExtend(rows: seq<Row>, n: nat)
    requires n < |rows| && RowBlocks(rows[..n]).Ok?
    ensures RowBlocks(rows[..n + 1]) ==
      match TableFor(rows[n])
      case Err(e) => Err(e)
      case Ok(t) => Ok(RowBlocks(rows[..n]).value + [Table(t), Paragraph(Spacer)])
  {
    assert rows[..n + 1][..n] == rows[..n];
  }

  /** Once the blocks of a prefix of the rows fail, the blocks of every
      longer prefix fail the same way. */
  lemma {:induction false} RowBlocksPropagate(rows: seq<Row>, n: nat)
    requires n <= |rows| && RowBlocks(rows[..n]).Err?
    ensures RowBlocks(rows) == RowBlocks(rows[..n])
    decreases |rows| - n
  {
    if n < |rows| {
      assert rows[..n + 1][..n] == rows[..n];
      RowBlocksPropagate(rows, n + 1);
    } else {
      assert rows[..n] == rows;
    }
  }

  /** The whole conversion: a heading, then per data row, in order, its table
      and a spacer paragraph.  A row missing a mapped column ends the run with
      that error and no document. */
  method BuildReport(rows: seq<Row>) returns (r: Result<seq<Block>>)
    ensures r == DocumentFor(rows)
  {
    var doc := new Document();
    doc.AddHeading(Title, 1);
    var i := 0;
    ghost var done: seq<Block> := [];
    while i < |rows|
      invariant 0 <= i <= |rows|
      invariant RowBlocks(rows[..i]) == Ok(done)
      invariant doc.blocks == [Heading(Title, 1)] + done
    {
      var table := new WordTable();
      var t := FillTable(table, rows[i]);
      RowBlocksExtend(rows, i);
      if t.Err? {
        RowBlocksPropagate(rows, i + 1);
        return Err(t.error);
      }
      doc.AddTable(table);
      doc.AddParagraph(Spacer);
      done := done + [Table(t.value), Paragraph(Spacer)];
      i := i + 1;
    }
    assert rows[..i] == rows;
    r := Ok(doc.blocks);
  }

  /** Document shape: the heading, then for row i its table at 1 + 2i and a
      spacer at 2 + 2i; one table per row, in row order. */
  lemma {:induction false} DocumentShape(rows: seq<Row>, i: nat)
    requires DocumentFor(rows).Ok? && i < |rows|
    ensures |DocumentFor(rows).value| == 1 + 2 * |rows|
    ensures DocumentFor(rows).value[0] == Heading("Vulnerability Report", 1)
    ensures TableFor(rows[i]).Ok?
    ensures DocumentFor(rows).value[1 + 2 * i] == Table(TableFor(rows[i]).value)
    ensures DocumentFor(rows).value[2 + 2 * i] == Paragraph("\n")
  {
    RowBlocksAt(rows, i);
  }

  lemma {:induction false} RowBlocksAt(rows: seq<Row>, i: nat)
    requires RowBlocks(rows).Ok? && i < |rows|
    ensures TableFor(rows[i]).Ok?
    ensures RowBlocks(rows).value[2 * i] == Table(TableFor(rows[i]).value)
    ensures RowBlocks(rows).value[2 * i + 1] == Paragraph(Spacer)
    decreases |rows|
  {
    var n := |rows| - 1;
    if i < n {
      RowBlocksAt(rows[..n], i);
      assert rows[..n][i] == rows[i];
    }
  }

  /** Zero rows leave just the heading. */
  lemma EmptySheet()
    ensures DocumentFor([]) == Ok([Heading("Vulnerability Report", 1)])
  {
    assert [Heading(Title, 1)] + [] == [Heading(Title, 1)];
  }

  /** The document is produced exactly when every row has all eight mapped
      columns. */
  lemma {:induction false} DocumentOkIff(rows: seq<Row>)
    ensures DocumentFor(rows).Ok? <==>
      forall i, k :: 0 <= i < |rows| && k in MappingKeys() ==> k in rows[i]
    decreases |rows|
  {
    RowBlocksOk(rows);
    forall i | 0 <= i < |rows| {
      TableOkIff(rows[i]);
    }
  }

  lemma {:induction false} RowBlocksOk(rows: seq<Row>)
    ensures RowBlocks(rows).Ok? <==> forall i :: 0 <= i < |rows| ==> TableFor(rows[i]).Ok?
    decreases |rows|
  {
    if rows != [] {
      var n := |rows| - 1;
      RowBlocksOk(rows[..n]);
      assert forall i :: 0 <= i < n ==> rows[..n][i] == rows[i];
    }
  }

  /** A failed run reports the error of the FIRST row whose table fails. */
  lemma {:induction false} RowBlocksErr(rows: seq<Row>)
    requires RowBlocks(rows).Err?
    ensures exists i :: 0 <= i < |rows| && TableFor(rows[i]) == Err(RowBlocks(rows).error)
                        && forall j :: 0 <= j < i ==> TableFor(rows[j]).Ok?
    decreases |rows|
  {
    var n := |rows| - 1;
    var init := rows[..n];
    assert forall i :: 0 <= i < n ==> init[i] == rows[i];
    if RowBlocks(init).Err? {
      RowBlocksErr(init);
    } else {
      RowBlocksOk(init);
      assert TableFor(rows[n]) == Err(RowBlocks(rows).error);
    }
  }

  /** The number of tables in a block sequence. */
  function TableCount(bs: seq<Block>): (n: nat)
  {
    if bs == [] then 0
    else TableCount(bs[..|bs| - 1]) + (if bs[|bs| - 1].Table? then 1 else 0)
  }

  /** One table block per data row. */
  lemma {:induction false} TableCountMatchesRows(rows: seq<Row>)
    requires DocumentFor(rows).Ok?
    ensures TableCount(DocumentFor(rows).value) == |rows|
  {
    RowBlocksTableCount(rows);
    TableCountAppend([Heading(Title, 1)], RowBlocks(rows).value);
    assert TableCount([Heading(Title, 1)]) == 0 by {
      assert [Heading(Title, 1)][..0] == [];
    }
  }

  lemma {:induction false} RowBlocksTableCount(rows: seq<Row>)
    requires RowBlocks(rows).Ok?
    ensures TableCount(RowBlocks(rows).value) == |rows|
    decreases |rows|
  {
    if rows != [] {
      var n := |rows| - 1;
      var prefix := RowBlocks(rows[..n]).value;
      var t := TableFor(rows[n]).value;
      RowBlocksTableCount(rows[..n]);
      assert (prefix + [Table(t), Paragraph(Spacer)])[..|prefix| + 1] == prefix + [Table(t)];
      assert (prefix + [Table(t)])[..|prefix|] == prefix;
    }
  }

  lemma {:induction false} TableCountAppend(a: seq<Block>, b: seq<Block>)
    ensures TableCount(a + b) == TableCount(a) + TableCount(b)
    decreases |b|
  {
    if b == [] {
      assert a + b == a;
    } else {
      var n := |b| - 1;
      TableCountAppend(a, b[..n]);
      assert (a + b)[..|a + b| - 1] == a + b[..n];
    }
  }
}
