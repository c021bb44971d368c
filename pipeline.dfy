/** The whole analysis, stage after stage in the script's order: calibration
    average, load (with the schema-only fallback), mode filter, `Area %`
    normalisation, emission, summary, formatting, export. Each stage replaces
    the table the previous one produced. */
module Pipeline {

  import opened Seqs
  import opened Numeric
  import opened Frame
  import opened Calibration
  import opened RowFilter
  import opened AreaRebase
  import opened EmissionCalc
  import opened Aggregate
  import opened Display
  import opened Export

  /** An uploaded file: its name, and its contents as read (`None` when the
      file could not be read). */
  datatype Upload = Upload(fileName: string, parsed: Option<Table>)

  /** What the form collects: the mode, three standard peak areas, the
      standard amount in µg, the sample mass in mg and the upload, if any. */
  datatype Inputs = Inputs(
    mode: Mode,
    std1: real, std2: real, std3: real,
    standardUg: real,
    sampleMg: real,
    upload: Option<Upload>)

  /** What the run produces: the table as shown, the summary, the "Data"
      sheet and the name of the workbook. */
  datatype Report = Report(shown: Table, summary: SummaryRecord, data: Sheet, fileName: string)

  function Parsed(inp: Inputs): Option<Table>
  {
    match inp.upload
    case Some(u) => u.parsed
    case None => None
  }

  function UploadName(inp: Inputs): Option<string>
  {
    match inp.upload
    case Some(u) => Some(u.fileName)
    case None => None
  }

  /** The table the emission step receives: loaded, filtered, rebased. */
  function Prepared(inp: Inputs): Table
  {
    var loaded := LoadTable(Parsed(inp));
    var filtered := FilterByMode(loaded, inp.mode);
    RebaseAreaPercent(filtered, inp.mode)
  }

  /** The table and decimals the summary is computed from. */
  function Computed(inp: Inputs): EmissionStep
  {
    var avg := AverageStandardArea(inp.std1, inp.std2, inp.std3);
    ComputeEmission(Prepared(inp), avg, inp.standardUg, inp.sampleMg)
  }

  /** One run of the analysis. The summary is taken from the computed table
      and decimals before formatting; the table shown is the formatted one,
      and the sheet is exported from it; the workbook is named after the
      upload. So the reported total is the rounded `< 1` sum plus the `>= 1`
      sum, the raw area is never exported, and no exported row is missing
      from the table shown. */
  function Run(inp: Inputs): (rep: Report)
    ensures rep.summary == Summarise(Computed(inp).table, Computed(inp).decimals)
    ensures rep.shown == FormatForDisplay(Computed(inp).table)
    ensures rep.data == ExportData(rep.shown)
    ensures rep.fileName == ExportFileName(UploadName(inp))
    ensures rep.summary.sumAll == rep.summary.sumBelow1 as real + rep.summary.sumAtLeast1
    ensures ComponentArea !in rep.data.columns
    ensures |rep.data.rows| <= |rep.shown.rows|
    ensures inp.upload.None? ==> rep.fileName == DefaultExportName
  {
    var step := Computed(inp);
    var summary := Summarise(step.table, step.decimals);
    var shown := FormatForDisplay(step.table);
    Report(shown, summary, ExportData(shown), ExportFileName(UploadName(inp)))
  }

  /** In SVOC mode with a retention-time column, every row shown (and so every
      row exported) elutes at or after 12.1 minutes, even after rounding. */
  lemma SvocShowsOnlyLatePeaks(inp: Inputs)
    requires inp.mode == SVOC
    requires ComponentRT in LoadTable(Parsed(inp)).columns
    ensures forall row :: row in Run(inp).shown.rows ==> ElutesForSvoc(row)
  {
    var avg := AverageStandardArea(inp.std1, inp.std2, inp.std3);
    var filtered := FilterByMode(LoadTable(Parsed(inp)), SVOC);
    FilteredRowsElute(LoadTable(Parsed(inp)));
    var rebased := RebaseAreaPercent(filtered, SVOC);
    RebasedRowsElute(filtered);
    var step := ComputeEmission(rebased, avg, inp.standardUg, inp.sampleMg);
    EmissionRowsElute(rebased, avg, inp.standardUg, inp.sampleMg);
    FormattedRowsElute(step.table);
  }

  /** Every row elutes at or after the SVOC cut-off. */
  predicate AllElute(rows: seq<Row>)
  {
    forall i :: 0 <= i < |rows| ==> ElutesForSvoc(rows[i])
  }

  lemma FilteredRowsElute(t: Table)
    requires ComponentRT in t.columns
    ensures AllElute(FilterByMode(t, SVOC).rows)
  {
    var r := FilterByMode(t, SVOC);
    assert forall i :: 0 <= i < |r.rows| ==> r.rows[i] in r.rows;
  }

  lemma RebasedRowsElute(t: Table)
    requires AllElute(t.rows)
    ensures AllElute(RebaseAreaPercent(t, SVOC).rows)
  {
  }

  lemma EmissionRowsElute(t: Table, avg: real, standardUg: real, sampleMg: real)
    requires AllElute(t.rows)
    ensures AllElute(ComputeEmission(t, avg, standardUg, sampleMg).table.rows)
  {
  }

  /** Rounding retention times keeps every row at or after the cut-off. */
  lemma FormattedRowsElute(t: Table)
    requires AllElute(t.rows)
    ensures forall row :: row in FormatForDisplay(t).rows ==> ElutesForSvoc(row)
  {
    var shown := FormatForDisplay(t);
    forall row | row in shown.rows
      ensures ElutesForSvoc(row)
    {
      var i :| 0 <= i < |shown.rows| && shown.rows[i] == row;
      if !IsEmpty(t) {
        RoundedRtKeepsCutOff(t.rows[i].rt.value);
      }
    }
  }

  /** In VOC mode no row is dropped: the table shown has the loaded rows, with
      their names and CAS numbers, in order. */
  lemma VocKeepsEveryPeak(inp: Inputs)
    requires inp.mode == VOC
    ensures var loaded := LoadTable(Parsed(inp));
      var shown := Run(inp).shown;
      && |shown.rows| == |loaded.rows|
      && forall i :: 0 <= i < |loaded.rows| ==>
           shown.rows[i].name == loaded.rows[i].name && shown.rows[i].cas == loaded.rows[i].cas
  {
  }

  /** In SVOC mode, once `Area %` has been rebased, "Sum All Area%" is 100. */
  lemma SvocAreaPercentSumsTo100(inp: Inputs)
    requires inp.mode == SVOC
    requires Rebases(FilterByMode(LoadTable(Parsed(inp)), SVOC), SVOC)
    ensures Run(inp).summary.sumAllAreaPct == 100
  {
    var avg := AverageStandardArea(inp.std1, inp.std2, inp.std3);
    var rebased := RebaseAreaPercent(FilterByMode(LoadTable(Parsed(inp)), SVOC), SVOC);
    var step := ComputeEmission(rebased, avg, inp.standardUg, inp.sampleMg);
    SumByPointwise(step.table.rows, rebased.rows, PctOr0);
    RoundHalfEvenWhole(100);
  }

  /** When the emission is not computed (a quantity not positive, or no area
      column), a table that arrived with an emission column keeps it: the
      `>= 1` sum, the `Area %` below-1 sum and the export filter use the
      uploaded values, the exported rows carry them, and the `< 1` sum is 0. */
  lemma UploadedEmissionIsUsed(inp: Inputs)
    requires var avg := AverageStandardArea(inp.std1, inp.std2, inp.std3);
      !Computes(Prepared(inp), avg, inp.standardUg, inp.sampleMg)
    requires !IsEmpty(Prepared(inp)) && EmissionUgPerG in Prepared(inp).columns
    ensures var t := Prepared(inp);
      var rep := Run(inp);
      var kept := Filter(t.rows, EmissionAtLeast1);
      && rep.summary.sumBelow1 == 0
      && rep.summary.sumAtLeast1 == SumBy(kept, EmissionOr0)
      && rep.summary.sumAll == rep.summary.sumAtLeast1
      && (AreaPercent in t.columns ==>
            rep.summary.sumAreaPctBelow1 == RoundHalfEven(SumBy(Filter(t.rows, EmissionBelow1), PctOr0)))
      && |rep.data.rows| == |kept|
      && forall i :: 0 <= i < |kept| ==> rep.data.rows[i].emission == kept[i].emission
  {
    var t := Prepared(inp);
    RoundHalfEvenWhole(0);
    var shown := FormatForDisplay(t);
    FilterSameEmissions(t.rows, shown.rows);
    var cols := ExportData(shown).columns;
    assert EmissionUgPerG in cols;
  }

  /** Rows that agree on their emission select rows that agree on theirs. */
  lemma {:induction false} FilterSameEmissions(a: seq<Row>, b: seq<Row>)
    requires |a| == |b|
    requires forall i :: 0 <= i < |a| ==> a[i].emission == b[i].emission
    ensures |Filter(a, EmissionAtLeast1)| == |Filter(b, EmissionAtLeast1)|
    ensures forall i :: 0 <= i < |Filter(a, EmissionAtLeast1)| ==>
      Filter(a, EmissionAtLeast1)[i].emission == Filter(b, EmissionAtLeast1)[i].emission
  {
    if a != [] {
      FilterSameEmissions(a[1..], b[1..]);
    }
  }

  /** Without an upload, the summary is all zeros, the sheet has the five
      columns and no row, and the workbook has the default name. */
  lemma NoUploadGivesEmptyReport(inp: Inputs)
    requires inp.upload.None?
    ensures var rep := Run(inp);
      && rep.summary == SummaryRecord(0, 0, 0, 0.0, 0.0)
      && rep.data.rows == []
      && rep.data.columns == DesiredColumns
      && rep.fileName == DefaultExportName
  {
    RoundHalfEvenWhole(0);
    var step := Computed(inp);
    assert step.table == SchemaOnly;
    var shown := FormatForDisplay(step.table);
    assert shown == SchemaOnly;
    SelectAllColumns(DesiredColumns, SchemaOnly.columns - {ComponentArea});
  }

  /** Scenario: two peaks, one eluting before the SVOC cut-off and one after,
      with `Area %` as the instrument reported it over both. */
  const EarlyPeak: Row := Row(Some(10.0), None, None, Some(50.0), Some(25.0), None)
  const LatePeak: Row := Row(Some(13.0), None, None, Some(150.0), Some(75.0), None)
  const ScenarioColumns: set<Col> := {ComponentRT, CompoundName, CasNumber, ComponentArea, AreaPercent}

  /** SVOC mode, one standard reading of 10, 2 µg of standard, 5 mg of sample. */
  const ScenarioInputs: Inputs :=
    Inputs(SVOC, 10.0, 0.0, 0.0, 2.0, 5.0,
           Some(Upload("peaks.csv", Some(Table(ScenarioColumns, [EarlyPeak, LatePeak])))))

  /** The late peak after the calculation: all of the area, 6000 µg/g. */
  const LatePeakComputed: Row := LatePeak.(pct := Some(100.0), emission := Some(6000.0))

  /** The early peak is dropped; the late one takes 100 % of the area and
      emits (2 / 10) * (150 / 5) * 1000 = 6000 µg/g. */
  lemma ScenarioStages()
    ensures Computed(ScenarioInputs) ==
      EmissionStep(Table(ScenarioColumns + {EmissionUgPerG}, [LatePeakComputed]), [6000.0])
  {
    assert Parsed(ScenarioInputs) == Some(Table(ScenarioColumns, [EarlyPeak, LatePeak]));
    assert LoadTable(Parsed(ScenarioInputs)) == Table(ScenarioColumns, [EarlyPeak, LatePeak]);
    ScenarioAverage();
    ScenarioFiltered();
    ScenarioRebased();
    ScenarioEmission();
  }

  lemma ScenarioAverage()
    ensures AverageStandardArea(10.0, 0.0, 0.0) == 10.0
  {
  }

  lemma ScenarioFiltered()
    ensures FilterByMode(Table(ScenarioColumns, [EarlyPeak, LatePeak]), SVOC) == Table(ScenarioColumns, [LatePeak])
  {
    var a, b := EarlyPeak, LatePeak;
    assert [a, b][1..] == [b] && [b][1..] == [];
    assert !ElutesForSvoc(a) && ElutesForSvoc(b);
    assert Filter([b], ElutesForSvoc) == [b] + Filter([], ElutesForSvoc);
  }

  /** The late peak with its `Area %` rebased to the whole of the area. */
  const LatePeakRebased: Row := LatePeak.(pct := Some(100.0))

  lemma ScenarioRebased()
    ensures RebaseAreaPercent(Table(ScenarioColumns, [LatePeak]), SVOC) == Table(ScenarioColumns, [LatePeakRebased])
  {
    var b := LatePeak;
    assert [b][1..] == [];
    assert SumBy([b], AreaOr0) == AreaOr0(b) + SumBy([], AreaOr0);
    assert TotalArea([b]) == 150.0;
  }

  lemma ScenarioEmission()
    ensures ComputeEmission(Table(ScenarioColumns, [LatePeakRebased]), 10.0, 2.0, 5.0)
         == EmissionStep(Table(ScenarioColumns + {EmissionUgPerG}, [LatePeakComputed]), [6000.0])
  {
    assert EmissionDecimal(LatePeakRebased.area, 10.0, 2.0, 5.0) == 6000.0;
  }

  /** The scenario's summary: 100 % in all, nothing below 1 µg/g, 6000 µg/g
      in the `>= 1` bucket and in total. */
  lemma ScenarioSummary()
    ensures Summarise(Table(ScenarioColumns + {EmissionUgPerG}, [LatePeakComputed]), [6000.0])
         == SummaryRecord(100, 0, 0, 6000.0, 6000.0)
  {
    var b := LatePeakComputed;
    assert [b][1..] == [];
    assert SumBy([b], PctOr0) == PctOr0(b) + SumBy([], PctOr0);
    RoundHalfEvenWhole(100);
    assert Filter([6000.0], DecimalBelow1) == Filter([], DecimalBelow1);
    RoundHalfEvenWhole(0);
    assert Filter([b], EmissionAtLeast1) == [b] + Filter([], EmissionAtLeast1);
    assert SumBy([b], EmissionOr0) == EmissionOr0(b) + SumBy([], EmissionOr0);
    assert Filter([b], EmissionBelow1) == Filter([], EmissionBelow1);
  }

  /** The scenario's table as shown: already in hundredths, its area whole. */
  lemma ScenarioShown()
    ensures FormatForDisplay(Table(ScenarioColumns + {EmissionUgPerG}, [LatePeakComputed]))
         == Table(ScenarioColumns + {EmissionUgPerG}, [LatePeakShown])
  {
    var t := Table(ScenarioColumns + {EmissionUgPerG}, [LatePeakComputed]);
    RoundHalfEvenWhole(1300);
    RoundHalfEvenWhole(10000);
    assert RoundToHundredths(13.0) == 13.0;
    assert RoundToHundredths(100.0) == 100.0;
    assert FormatForDisplay(t).rows == [LatePeakShown];
  }

  /** The late peak as shown, and as exported. */
  const LatePeakShown: Row := LatePeakComputed.(area := Some(150.0))
  const LatePeakExported: Row := Row(Some(13.0), None, None, None, Some(100.0), Some(6000.0))

  lemma ScenarioColumnsSelected()
    ensures SelectColumns(DesiredColumns, (ScenarioColumns + {EmissionUgPerG}) - {ComponentArea}) == DesiredColumns
  {
    SelectAllColumns(DesiredColumns, (ScenarioColumns + {EmissionUgPerG}) - {ComponentArea});
  }

  lemma ScenarioRowKept()
    ensures Filter([LatePeakShown], EmissionAtLeast1) == [LatePeakShown]
  {
    assert [LatePeakShown][1..] == [];
  }

  lemma ScenarioRowProjected()
    ensures ProjectRows([LatePeakShown], DesiredColumns) == [LatePeakExported]
  {
    assert KeepOnly(LatePeakShown, DesiredColumns) == LatePeakExported;
  }

  /** The scenario's sheet: the five columns and the late peak alone. */
  lemma ScenarioSheet()
    ensures ExportData(FormatForDisplay(Table(ScenarioColumns + {EmissionUgPerG}, [LatePeakComputed])))
         == Sheet(DesiredColumns, [LatePeakExported])
  {
    ScenarioShown();
    ScenarioColumnsSelected();
    ScenarioRowKept();
    ScenarioRowProjected();
  }

  /** The whole scenario: the summary, the one exported row, and a workbook
      named after the upload. */
  lemma TwoPeakScenario()
    ensures var rep := Run(ScenarioInputs);
      && rep.summary == SummaryRecord(100, 0, 0, 6000.0, 6000.0)
      && rep.data == Sheet(DesiredColumns, [Row(Some(13.0), None, None, None, Some(100.0), Some(6000.0))])
      && rep.fileName == "peaks_export.xlsx"
  {
    ScenarioStages();
    ScenarioSummary();
    ScenarioSheet();
    ScenarioFileName();
    var step := Computed(ScenarioInputs);
    assert UploadName(ScenarioInputs) == Some("peaks.csv");
    assert Run(ScenarioInputs) ==
      Report(FormatForDisplay(step.table), Summarise(step.table, step.decimals),
             ExportData(FormatForDisplay(step.table)), ExportFileName(Some("peaks.csv")));
  }

  lemma ScenarioFileName()
    ensures ExportFileName(Some("peaks.csv")) == "peaks_export.xlsx"
  {
    var p := "peaks.csv";
    assert p[5] == '.';
    assert forall k :: 0 <= k < |p| ==> p[k] != '/';
    assert forall k :: 0 <= k < |p| && k != 5 ==> p[k] != '.';
    assert LastIndexOf(p, '.') == 5;
    assert LastIndexOf(p, '/') == -1;
    assert p[0] != '.';
    assert p[..5] == "peaks" && p[5..] == ".csv";
    assert SplitExtension(p) == ("peaks", ".csv");
    assert "peaks" + "_export.xlsx" == "peaks_export.xlsx";
  }
}
