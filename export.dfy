/** The export projector: the "Data" sheet (reportable rows, without the raw
    area, in a fixed column order) and the name of the downloaded workbook. */
module Export {

  import opened Seqs
  import opened Frame

  /** The columns the sheet may carry, in the order it carries them. */
  const DesiredColumns: seq<Col> := [ComponentRT, CompoundName, CasNumber, AreaPercent, EmissionUgPerG]

  /** An exported sheet: its columns in order, and its rows. */
  datatype Sheet = Sheet(columns: seq<Col>, rows: seq<Row>)

  /** The columns of `desired` that `present` has, in the order of `desired`. */
  function SelectColumns(desired: seq<Col>, present: set<Col>): (cols: seq<Col>)
    ensures IsSubsequence(cols, desired)
    ensures forall c :: c in cols <==> c in desired && c in present
  {
    if desired == [] then []
    else if desired[0] in present then [desired[0]] + SelectColumns(desired[1..], present)
    else
      var rest := SelectColumns(desired[1..], present);
      assert rest != [] ==> rest[0] in desired[1..] && rest[0] in present;
      rest
  }

  /** Two sets that agree on the desired columns select the same columns. */
  lemma {:induction false} SelectColumnsAgree(desired: seq<Col>, a: set<Col>, b: set<Col>)
    requires forall c :: c in desired ==> (c in a <==> c in b)
    ensures SelectColumns(desired, a) == SelectColumns(desired, b)
  {
    if desired != [] {
      SelectColumnsAgree(desired[1..], a, b);
    }
  }

  /** When every desired column is present, all are selected. */
  lemma {:induction false} SelectAllColumns(desired: seq<Col>, present: set<Col>)
    requires forall c :: c in desired ==> c in present
    ensures SelectColumns(desired, present) == desired
  {
    if desired != [] {
      SelectAllColumns(desired[1..], present);
      assert [desired[0]] + desired[1..] == desired;
    }
  }

  /** A row with the cells of every column outside `cols` cleared. */
  function KeepOnly(r: Row, cols: seq<Col>): Row
  {
    Row(if ComponentRT in cols then r.rt else None,
        if CompoundName in cols then r.name else None,
        if CasNumber in cols then r.cas else None,
        if ComponentArea in cols then r.area else None,
        if AreaPercent in cols then r.pct else None,
        if EmissionUgPerG in cols then r.emission else None)
  }

  /** Every row with only the cells of `cols` kept. */
  function ProjectRows(rows: seq<Row>, cols: seq<Col>): seq<Row>
  {
    seq(|rows|, i requires 0 <= i < |rows| => KeepOnly(rows[i], cols))
  }

  /** The "Data" sheet. With an emission column only rows whose emission is at
      least 1 remain, and all of them do; without one every row remains. The
      raw area never appears; the columns are the desired ones the table has,
      in the desired order. */
  function ExportData(t: Table): (s: Sheet)
    ensures ComponentArea !in s.columns
    ensures IsSubsequence(s.columns, DesiredColumns)
    ensures forall c :: c in s.columns <==> c in DesiredColumns && c in t.columns
    ensures EmissionUgPerG in t.columns ==>
      |s.rows| == |Filter(t.rows, EmissionAtLeast1)| && forall row :: row in s.rows ==> EmissionAtLeast1(row)
    ensures EmissionUgPerG !in t.columns ==> |s.rows| == |t.rows|
    ensures forall row :: row in s.rows ==> row.area.None?
    ensures s.rows == ProjectRows(if EmissionUgPerG in t.columns then Filter(t.rows, EmissionAtLeast1) else t.rows, s.columns)
  {
    var kept := if EmissionUgPerG in t.columns then Filter(t.rows, EmissionAtLeast1) else t.rows;
    var cols := SelectColumns(DesiredColumns, t.columns - {ComponentArea});
    var rows := ProjectRows(kept, cols);
    assert forall row :: row in rows ==> exists i :: 0 <= i < |kept| && row == KeepOnly(kept[i], cols);
    assert forall i :: 0 <= i < |kept| ==> kept[i] in kept;
    Sheet(cols, rows)
  }

  /** The sheet read back as a table. */
  function AsTable(s: Sheet): Table
  {
    Table((set c | c in s.columns), s.rows)
  }

  /** Exporting an exported sheet again changes nothing. */
  lemma ExportIsIdempotent(t: Table)
    ensures ExportData(AsTable(ExportData(t))) == ExportData(t)
  {
    ExportedColumnsAgain(t);
    ExportedRowsAgain(t);
  }

  lemma ExportedColumnsAgain(t: Table)
    ensures ExportData(AsTable(ExportData(t))).columns == ExportData(t).columns
  {
    var s := ExportData(t);
    SelectColumnsAgree(DesiredColumns, AsTable(s).columns - {ComponentArea}, t.columns - {ComponentArea});
  }

  lemma ExportedRowsAgain(t: Table)
    ensures ExportData(AsTable(ExportData(t))).rows == ExportData(t).rows
  {
    var s := ExportData(t);
    var kept := if EmissionUgPerG in t.columns then Filter(t.rows, EmissionAtLeast1) else t.rows;
    ExportedColumnsAgain(t);
    ExportKeepsEmissionColumn(t);
    if EmissionUgPerG in t.columns {
      ExportedRowsAreReportable(t);
    }
    ProjectRowsTwice(kept, s.columns);
  }

  /** The sheet keeps the emission column exactly when the table had it. */
  lemma ExportKeepsEmissionColumn(t: Table)
    ensures EmissionUgPerG in AsTable(ExportData(t)).columns <==> EmissionUgPerG in t.columns
  {
  }

  /** With an emission column, every row on the sheet is reportable. */
  lemma ExportedRowsAreReportable(t: Table)
    requires EmissionUgPerG in t.columns
    ensures Filter(ExportData(t).rows, EmissionAtLeast1) == ExportData(t).rows
  {
    var s := ExportData(t);
    assert forall i :: 0 <= i < |s.rows| ==> s.rows[i] in s.rows;
    FilterKeepsAll(s.rows, EmissionAtLeast1);
  }

  /** Projecting rows a second time onto the same columns changes nothing. */
  lemma ProjectRowsTwice(rows: seq<Row>, cols: seq<Col>)
    ensures ProjectRows(ProjectRows(rows, cols), cols) == ProjectRows(rows, cols)
  {
    var once := ProjectRows(rows, cols);
    var twice := ProjectRows(once, cols);
    forall i | 0 <= i < |rows|
      ensures twice[i] == once[i]
    {
    }
  }

  /** The workbook's name when nothing was uploaded. */
  const DefaultExportName: string := "calculated_emission_filtered.xlsx"

  /** The position of the last `c` in `s`, or -1 when there is none. */
  function LastIndexOf(s: string, c: char): (i: int)
    ensures -1 <= i < |s|
    ensures i >= 0 ==> s[i] == c
    ensures forall k :: i < k < |s| ==> s[k] != c
  {
    if s == [] then -1
    else if s[|s| - 1] == c then |s| - 1
    else LastIndexOf(s[..|s| - 1], c)
  }

  /** A file name split into root and extension as a POSIX path is: the
      extension starts at the last dot of the last path component, unless only
      dots precede that dot in the component (a leading-dot name has no
      extension). */
  function SplitExtension(p: string): (parts: (string, string))
    ensures parts.0 + parts.1 == p
    ensures parts.1 == [] || (parts.1[0] == '.' && forall k :: 0 < k < |parts.1| ==> parts.1[k] != '.' && parts.1[k] != '/')
    ensures var sep, dot := LastIndexOf(p, '/'), LastIndexOf(p, '.');
      parts.1 != [] <==> dot > sep && exists k :: sep < k < dot && p[k] != '.'
  {
    var sep := LastIndexOf(p, '/');
    var dot := LastIndexOf(p, '.');
    if dot > sep && exists k :: sep + 1 <= k < dot && p[k] != '.' then
      assert p[..dot] + p[dot..] == p;
      (p[..dot], p[dot..])
    else
      (p, [])
  }

  /** The workbook's name: the uploaded file's name without its extension,
      followed by "_export.xlsx"; the default name without an upload. */
  function ExportFileName(uploadName: Option<string>): (name: string)
    ensures uploadName.None? ==> name == DefaultExportName
    ensures uploadName.Some? ==> name == SplitExtension(uploadName.value).0 + "_export.xlsx"
    ensures uploadName.Some? ==> |name| >= 12 && name[|name| - 12..] == "_export.xlsx"
  {
    match uploadName
    case Some(n) => SplitExtension(n).0 + "_export.xlsx"
    case None => DefaultExportName
  }

  /** A base name without a slash and not made of dots alone, followed by one
      dotted extension, exports under that base name. */
  lemma UploadNameRoundTrip(base: string, ext: string)
    requires forall k :: 0 <= k < |base| ==> base[k] != '/'
    requires exists k :: 0 <= k < |base| && base[k] != '.'
    requires |ext| > 0 && ext[0] == '.'
    requires forall k :: 0 < k < |ext| ==> ext[k] != '.' && ext[k] != '/'
    ensures ExportFileName(Some(base + ext)) == base + "_export.xlsx"
  {
    var p := base + ext;
    var sep, dot := LastIndexOf(p, '/'), LastIndexOf(p, '.');
    assert p[|base|] == '.';
    assert dot == |base|;
    assert sep == -1;
    var k :| 0 <= k < |base| && base[k] != '.';
    assert p[k] != '.';
    assert p[..dot] == base;
  }

  /** A name that is a dot followed by an extension-like word is all root. */
  lemma LeadingDotIsNotAnExtension()
    ensures ExportFileName(Some(".csv")) == ".csv_export.xlsx"
  {
    var p := ".csv";
    assert p[0] == '.';
    assert forall k :: 0 <= k < |p| ==> p[k] != '/';
    assert forall k :: 0 < k < |p| ==> p[k] != '.';
    assert LastIndexOf(p, '.') == 0;
    assert LastIndexOf(p, '/') == -1;
  }
}
