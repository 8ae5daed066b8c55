/** The per-row value selection and the shape of the table built for one
    spreadsheet row. */
module FieldMapper {
  import opened HeaderTables

  /** One spreadsheet row: column header -> cell text. */
  type Row = map<string, string>

  /** Reading a cell under a column the sheet does not have raises a
      KeyError, which ends the run before anything is saved. */
  datatype Error = MissingColumn(column: string)

  datatype Result<T> = Ok(value: T) | Err(error: Error)

  /** One two-cell row of a Word table. */
  datatype TableRow = TableRow(header: string, details: string)

  const HeaderRow: TableRow := TableRow("Header", "Details")
  const NewObservation: string := "New observation"
  const RemediatedAndClosed: string := "Remediated and Closed ()"

  /** The value written beside `field`: the two special labels get constant
      text, a mapped label gets the cell under its Excel key, any other label
      gets the empty string. */
  function SelectValue(row: Row, field: string): (r: Result<string>)
  {
    if field == NewOrRepeatLabel then Ok(NewObservation)
    else if field == FinalStatusLabel then Ok(RemediatedAndClosed)
    else match ReverseLookup(field)
      case Some(k) => if k in row then Ok(row[k]) else Err(MissingColumn(k))
      case None => Ok("")
  }

  /** The value chain fails exactly for a mapped label whose Excel key the
      row lacks, and then names that key. */
  lemma SelectValueErr(row: Row, field: string)
    ensures SelectValue(row, field).Err? <==> field in MappingValues() && ReverseLookup(field).value !in row
    ensures SelectValue(row, field).Err? ==>
      (SelectValue(row, field).error.column, field) in HeaderMapping && SelectValue(row, field).error.column !in row
  {
  }

  /** Where the text of an output field comes from. */
  datatype FieldSource = Column(key: string) | Constant(text: string)

  function Resolve(row: Row, src: FieldSource): (r: Result<string>)
  {
    match src
    case Column(k) => if k in row then Ok(row[k]) else Err(MissingColumn(k))
    case Constant(t) => Ok(t)
  }

  /** An independent statement of the report layout: each output field, in
      emission order, with the column or constant it is filled from. */
  const FieldSpec: seq<(string, FieldSource)> := [
    ("Sr No", Column("Sr No.")),
    ("Affected Endpoint", Column("Asset Details")),
    ("Observation/ Vulnerability Title", Column("Vulnerability Name")),
    ("Detailed observation / Vulnerable point", Constant("")),
    ("CVE/CWE", Column("Vulnerability ID(CVE/CWE)")),
    ("Impact", Column("Impact")),
    ("Severity", Column("Risk Severity ")),
    ("Recommendation", Column("Remediation")),
    ("Reference", Column("Reference")),
    ("New or Repeat observation", Constant(NewObservation)),
    ("Management Comment", Constant("")),
    ("Final Status", Constant(RemediatedAndClosed))
  ]

  /** For a mapped label the value is exactly the row's cell under the one
      Excel key mapped to it, matched exactly; a missing key is an error. */
  lemma {:induction false} SelectValueMapped(row: Row, i: nat)
    requires i < |HeaderMapping|
    ensures SelectValue(row, HeaderMapping[i].1) ==
      (if HeaderMapping[i].0 in row then Ok(row[HeaderMapping[i].0])
       else Err(MissingColumn(HeaderMapping[i].0)))
  {
    SpecialLabelsAreExtra();
    ReverseLookupInverts(i);
  }

  /** The two special labels get their constants whatever the row holds. */
  lemma SelectValueSpecial(row: Row)
    ensures SelectValue(row, NewOrRepeatLabel) == Ok("New observation")
    ensures SelectValue(row, FinalStatusLabel) == Ok("Remediated and Closed ()")
  {
  }

  /** The extra labels that are not special get the empty string. */
  lemma {:induction false} SelectValueUnmapped(row: Row)
    ensures SelectValue(row, "Detailed observation / Vulnerable point") == Ok("")
    ensures SelectValue(row, "Management Comment") == Ok("")
  {
    ValuesExtraDisjoint();
  }

  /** The value chain agrees, field by field, with the layout table. */
  lemma {:induction false} SelectValueMatchesFieldSpec(row: Row, j: nat)
    requires j < |CombinedOrder|
    ensures |FieldSpec| == |CombinedOrder| && FieldSpec[j].0 == CombinedOrder[j]
    ensures SelectValue(row, CombinedOrder[j]) == Resolve(row, FieldSpec[j].1)
  {
    if FieldSpec[j].1.Constant? {
      if j == 3 || j == 10 {
        SelectValueUnmapped(row);
      }
    } else {
      var i := if j == 0 then 0 else if j == 1 then 6 else if j == 2 then 2
               else if j == 4 then 1 else if j == 5 then 4 else if j == 6 then 3
               else if j == 7 then 5 else 7;
      SelectValueMapped(row, i);
    }
  }

  /** The rows appended for `fields`, in order; the first label whose value
      cannot be read stops the table with that error. */
  function FieldRows(row: Row, fields: seq<string>): (r: Result<seq<TableRow>>)
    ensures r.Ok? ==> |r.value| == |fields|
    ensures r.Ok? ==> forall i :: 0 <= i < |fields| ==> r.value[i].header == fields[i]
    decreases |fields|
  {
    if fields == [] then Ok([])
    else
      match FieldRows(row, fields[..|fields| - 1])
      case Err(e) => Err(e)
      case Ok(prefix) =>
        match SelectValue(row, fields[|fields| - 1])
        case Err(e) => Err(e)
        case Ok(v) => Ok(prefix + [TableRow(fields[|fields| - 1], v)])
  }

  /** The table built for one row: the header pair, then one row per label of
      `combined_order`. */
  function TableFor(row: Row): (r: Result<seq<TableRow>>)
    ensures r.Ok? ==> |r.value| == 1 + |CombinedOrder| && r.value[0] == HeaderRow
    ensures r.Ok? ==> forall i :: 1 <= i < |r.value| ==> r.value[i].header == CombinedOrder[i - 1]
  {
    match FieldRows(row, CombinedOrder)
    case Err(e) => Err(e)
    case Ok(rs) => Ok([HeaderRow] + rs)
  }

  /** Every row's value is the selected value of its label. */
  lemma {:induction false} FieldRowsAt(row: Row, fields: seq<string>, i: nat)
    requires FieldRows(row, fields).Ok? && i < |fields|
    ensures SelectValue(row, fields[i]) == Ok(FieldRows(row, fields).value[i].details)
    decreases |fields|
  {
    var n := |fields| - 1;
    var init := fields[..n];
    if i < n {
      FieldRowsAt(row, init, i);
      assert init[i] == fields[i];
      assert FieldRows(row, fields).value[i] == FieldRows(row, init).value[i];
    }
  }

  /** The table is complete exactly when every label's value can be read. */
  lemma {:induction false} FieldRowsOk(row: Row, fields: seq<string>)
    ensures FieldRows(row, fields).Ok? <==> forall i :: 0 <= i < |fields| ==> SelectValue(row, fields[i]).Ok?
    decreases |fields|
  {
    if fields != [] {
      var n := |fields| - 1;
      var init := fields[..n];
      FieldRowsOk(row, init);
      assert forall i :: 0 <= i < n ==> init[i] == fields[i];
    }
  }

  /** A failing table reports the error of the FIRST label that fails. */
  lemma {:induction false} FieldRowsErr(row: Row, fields: seq<string>)
    requires FieldRows(row, fields).Err?
    ensures exists i :: 0 <= i < |fields| && SelectValue(row, fields[i]) == Err(FieldRows(row, fields).error)
                        && forall j :: 0 <= j < i ==> SelectValue(row, fields[j]).Ok?
    decreases |fields|
  {
    var n := |fields| - 1;
    var init := fields[..n];
    assert forall i :: 0 <= i < n ==> init[i] == fields[i];
    if FieldRows(row, init).Err? {
      FieldRowsErr(row, init);
    } else {
      FieldRowsOk(row, init);
      assert SelectValue(row, fields[n]) == Err(FieldRows(row, fields).error);
    }
  }

  /** One more label extends the rows of a complete prefix by its row, or
      fails with its error. */
  lemma FieldRowsExtend(row: Row, fields: seq<string>, n: nat)
    requires n < |fields| && FieldRows(row, fields[..n]).Ok?
    ensures FieldRows(row, fields[..n + 1]) ==
      match SelectValue(row, fields[n])
      case Err(e) => Err(e)
      case Ok(v) => Ok(FieldRows(row, fields[..n]).value + [TableRow(fields[n], v)])
  {
    assert fields[..n + 1][..n] == fields[..n];
  }

  /** Once a prefix of the labels fails, every longer prefix fails the same
      way. */
  lemma {:induction false} FieldRowsPropagate(row: Row, fields: seq<string>, n: nat)
    requires n <= |fields| && FieldRows(row, fields[..n]).Err?
    ensures FieldRows(row, fields) == FieldRows(row, fields[..n])
    decreases |fields| - n
  {
    if n < |fields| {
      assert fields[..n + 1][..n] == fields[..n];
      FieldRowsPropagate(row, fields, n + 1);
    } else {
      assert fields[..n] == fields;
    }
  }

  /** Table shape: thirteen rows, the header pair first, then the labels of
      `combined_order` in order, whatever the row contains. */
  lemma {:induction false} TableShape(row: Row)
    requires TableFor(row).Ok?
    ensures |TableFor(row).value| == 13
    ensures TableFor(row).value[0] == TableRow("Header", "Details")
    ensures forall i :: 1 <= i < 13 ==> TableFor(row).value[i].header == CombinedOrder[i - 1]
  {
    CombinedOrderDistinct();
  }

  /** Each of the twelve field rows carries the label and the value the layout
      table prescribes for it. */
  lemma {:induction false} TableMatchesFieldSpec(row: Row)
    requires TableFor(row).Ok?
    ensures forall j :: 0 <= j < |FieldSpec| ==>
      Resolve(row, FieldSpec[j].1).Ok? &&
      TableFor(row).value[j + 1] == TableRow(FieldSpec[j].0, Resolve(row, FieldSpec[j].1).value)
  {
    var rs := FieldRows(row, CombinedOrder).value;
    forall j | 0 <= j < |FieldSpec|
      ensures Resolve(row, FieldSpec[j].1).Ok?
      ensures TableFor(row).value[j + 1] == TableRow(FieldSpec[j].0, Resolve(row, FieldSpec[j].1).value)
    {
      CombinedOrderDistinct();
      SelectValueMatchesFieldSpec(row, j);
      FieldRowsAt(row, CombinedOrder, j);
      assert TableFor(row).value[j + 1] == rs[j];
    }
  }

  /** The constant and empty fields, at their fixed positions. */
  lemma {:induction false} TableConstants(row: Row)
    requires TableFor(row).Ok?
    ensures TableFor(row).value[4] == TableRow("Detailed observation / Vulnerable point", "")
    ensures TableFor(row).value[10] == TableRow("New or Repeat observation", "New observation")
    ensures TableFor(row).value[11] == TableRow("Management Comment", "")
    ensures TableFor(row).value[12] == TableRow("Final Status", "Remediated and Closed ()")
  {
    TableMatchesFieldSpec(row);
    assert FieldSpec[3].1 == Constant("") && FieldSpec[9].1 == Constant(NewObservation);
    assert FieldSpec[10].1 == Constant("") && FieldSpec[11].1 == Constant(RemediatedAndClosed);
  }

  /** ... and conversely the first label that fails decides the error. */
  lemma {:induction false} FieldRowsFirstError(row: Row, fields: seq<string>, i: nat)
    requires i < |fields| && SelectValue(row, fields[i]).Err?
    requires forall j :: 0 <= j < i ==> SelectValue(row, fields[j]).Ok?
    ensures FieldRows(row, fields) == Err(SelectValue(row, fields[i]).error)
  {
    assert forall j :: 0 <= j < i ==> fields[..i][j] == fields[j];
    FieldRowsOk(row, fields[..i]);
    FieldRowsExtend(row, fields, i);
    FieldRowsPropagate(row, fields, i + 1);
  }

  /** With all eight Excel keys present no label fails. */
  lemma SelectValueComplete(row: Row, field: string)
    requires forall k :: k in MappingKeys() ==> k in row
    ensures SelectValue(row, field).Ok?
  {
    SelectValueErr(row, field);
  }

  /** There is no default for a missing column: the table is built exactly
      when all eight Excel keys are present, and otherwise fails naming a key
      that is missing. */
  lemma {:induction false} TableOkIff(row: Row)
    ensures TableFor(row).Ok? <==> forall k :: k in MappingKeys() ==> k in row
    ensures TableFor(row).Err? ==> TableFor(row).error.column in MappingKeys()
                                   && TableFor(row).error.column !in row
  {
    FieldRowsOk(row, CombinedOrder);
    if forall k :: k in MappingKeys() ==> k in row {
      forall i | 0 <= i < |CombinedOrder| ensures SelectValue(row, CombinedOrder[i]).Ok? {
        SelectValueComplete(row, CombinedOrder[i]);
      }
    } else {
      var k :| k in MappingKeys() && k !in row;
      TableMissingKey(row, k);
    }
    if TableFor(row).Err? {
      FieldRowsErr(row, CombinedOrder);
      var i :| 0 <= i < |CombinedOrder| && SelectValue(row, CombinedOrder[i]) == Err(TableFor(row).error);
      SelectValueErr(row, CombinedOrder[i]);
      var c := TableFor(row).error.column;
      var m :| 0 <= m < |HeaderMapping| && HeaderMapping[m] == (c, CombinedOrder[i]);
      assert MappingKeys()[m] == c;
    }
  }

  lemma {:induction false} TableMissingKey(row: Row, k: string)
    requires k in MappingKeys() && k !in row
    ensures TableFor(row).Err?
  {
    var i :| 0 <= i < |MappingKeys()| && MappingKeys()[i] == k;
    SelectValueMapped(row, i);
    CombinedOrderCovers();
    assert HeaderMapping[i].1 in MappingValues();
    var j :| 0 <= j < |CombinedOrder| && CombinedOrder[j] == HeaderMapping[i].1;
    FieldRowsOk(row, CombinedOrder);
  }

  /** All eight Excel keys, exactly as the mapping spells them. */
  predicate HasAllColumns(row: Row)
  {
    "Sr No." in row && "Vulnerability ID(CVE/CWE)" in row && "Vulnerability Name" in row &&
    "Risk Severity " in row && "Impact" in row && "Remediation" in row &&
    "Asset Details" in row && "Reference" in row
  }

  lemma HasAllColumnsIff(row: Row)
    ensures HasAllColumns(row) <==> forall k :: k in MappingKeys() ==> k in row
  {
    var ks := MappingKeys();
    assert ks[0] == "Sr No." && ks[1] == "Vulnerability ID(CVE/CWE)" && ks[2] == "Vulnerability Name";
    assert ks[3] == "Risk Severity " && ks[4] == "Impact" && ks[5] == "Remediation";
    assert ks[6] == "Asset Details" && ks[7] == "Reference";
    if HasAllColumns(row) {
      forall k | k in ks ensures k in row {
        var i :| 0 <= i < |ks| && ks[i] == k;
      }
    }
  }

  /** The whole table of a row that has all eight columns, in closed form. */
  lemma {:induction false} TableOfCompleteRow(row: Row)
    requires HasAllColumns(row)
    ensures TableFor(row) == Ok([
        TableRow("Header", "Details"),
        TableRow("Sr No", row["Sr No."]),
        TableRow("Affected Endpoint", row["Asset Details"]),
        TableRow("Observation/ Vulnerability Title", row["Vulnerability Name"]),
        TableRow("Detailed observation / Vulnerable point", ""),
        TableRow("CVE/CWE", row["Vulnerability ID(CVE/CWE)"]),
        TableRow("Impact", row["Impact"]),
        TableRow("Severity", row["Risk Severity "]),
        TableRow("Recommendation", row["Remediation"]),
        TableRow("Reference", row["Reference"]),
        TableRow("New or Repeat observation", "New observation"),
        TableRow("Management Comment", ""),
        TableRow("Final Status", "Remediated and Closed ()")])
  {
    assert TableFor(row).Ok? by {
      HasAllColumnsIff(row);
      TableOkIff(row);
    }
    var t := TableFor(row).value;
    CompleteRowFirstHalf(row);
    CompleteRowSecondHalf(row);
    TableConstants(row);
    assert t == [t[0], t[1], t[2], t[3], t[4], t[5], t[6], t[7], t[8], t[9], t[10], t[11], t[12]];
  }

  lemma CompleteRowFirstHalf(row: Row)
    requires HasAllColumns(row) && TableFor(row).Ok?
    ensures |TableFor(row).value| == 13
    ensures TableFor(row).value[0] == TableRow("Header", "Details")
    ensures TableFor(row).value[1] == TableRow("Sr No", row["Sr No."])
    ensures TableFor(row).value[2] == TableRow("Affected Endpoint", row["Asset Details"])
    ensures TableFor(row).value[3] == TableRow("Observation/ Vulnerability Title", row["Vulnerability Name"])
  {
    TableShape(row);
    TableCell(row, 0);
    TableCell(row, 1);
    TableCell(row, 2);
  }

  lemma CompleteRowSecondHalf(row: Row)
    requires HasAllColumns(row) && TableFor(row).Ok?
    ensures |TableFor(row).value| == 13
    ensures TableFor(row).value[5] == TableRow("CVE/CWE", row["Vulnerability ID(CVE/CWE)"])
    ensures TableFor(row).value[6] == TableRow("Impact", row["Impact"])
    ensures TableFor(row).value[7] == TableRow("Severity", row["Risk Severity "])
    ensures TableFor(row).value[8] == TableRow("Recommendation", row["Remediation"])
    ensures TableFor(row).value[9] == TableRow("Reference", row["Reference"])
  {
    TableShape(row);
    TableCell(row, 4);
    TableCell(row, 5);
    TableCell(row, 6);
    TableCell(row, 7);
    TableCell(row, 8);
  }

  /** One field row of a complete table, as the layout table prescribes: the
      instance of `TableMatchesFieldSpec` at a fixed position. */
  lemma TableCell(row: Row, j: nat)
    requires TableFor(row).Ok? && j < |FieldSpec|
    ensures Resolve(row, FieldSpec[j].1).Ok?
    ensures TableFor(row).value[j + 1].details == Resolve(row, FieldSpec[j].1).value
  {
    TableMatchesFieldSpec(row);
  }

  /** Missing columns are not rendered as blanks: a row with 'Sr No.' but
      without 'Asset Details' (such as one holding only 'Sr No.',
      'Vulnerability Name' and 'Risk Severity ') stops at 'Affected
      Endpoint', the first mapped label in emission order whose column is
      absent. */
  lemma MissingAssetDetails(row: Row)
    requires "Sr No." in row && "Asset Details" !in row
    ensures TableFor(row) == Err(MissingColumn("Asset Details"))
  {
    assert CombinedOrder[0] == HeaderMapping[0].1 && CombinedOrder[1] == HeaderMapping[6].1;
    SelectValueMapped(row, 0);
    SelectValueMapped(row, 6);
    var e := MissingColumn("Asset Details");
    assert SelectValue(row, CombinedOrder[1]) == Err(e);
    assert forall j :: 0 <= j < 1 ==> SelectValue(row, CombinedOrder[j]).Ok?;
    FieldRowsFirstError(row, CombinedOrder, 1);
    assert FieldRows(row, CombinedOrder) == Err(e);
  }

  /** A key differing only by its trailing space is a different column. */
  lemma TrailingSpaceMatters(row: Row)
    requires "Risk Severity" in row && "Risk Severity " !in row
    ensures TableFor(row).Err?
  {
    TableOkIff(row);
    assert MappingKeys()[3] == "Risk Severity ";
  }
}
