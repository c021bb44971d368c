# VDA278 emission calculation, modelled in Dafny

The VOC / SVOC analysis app takes a table of chromatogram peaks (retention
time, compound name, CAS number, component area, area percent and possibly an
emission column), three peak areas of a calibration standard, the amount of
standard in µg and the sample mass in mg. It turns them into per-peak
emissions in µg/g and a five-number summary, and offers a filtered sheet for
download. This project models that calculation and proves what it promises:

- **Calibration average** (`Calibration`): the mean of the strictly positive
  standard readings, 0 if none is positive.
- **Load** (`Frame.LoadTable`): an upload that is missing, unreadable or empty
  becomes the schema-only table with the six recognised columns and no rows.
- **Mode filter** (`RowFilter`): in SVOC mode, a nonempty table with a
  retention-time column keeps exactly the peaks at or after 12.1 minutes, in
  order. A peak without a retention time is dropped.
- **Area % renormalisation** (`AreaRebase`): in SVOC mode with a positive
  total area, `Area %` becomes each peak's share of the remaining area. The
  column is created if it is missing. The shares add up to 100.
- **Emission** (`EmissionCalc`): `(standard µg / average standard area) *
  (area / sample mg) * 1000`, with a missing area giving 0. The table stores
  the value truncated toward zero. The decimal values are kept aside for the
  summary. The step runs only with all three quantities positive, a nonempty
  table and an area column. Otherwise the table keeps whatever emission
  column it arrived with.
- **Summary** (`Aggregate`): five sums. The `< 1` bucket sums the decimals
  before truncation. The `>= 1` bucket sums the stored (truncated) emissions.
  The total is the rounded first plus the second. Rounding is half to even.
- **Formatting** (`Display`): retention time and `Area %` rounded to two
  decimals, area filled with 0 and cast to a whole number. This pass comes
  after the summary and before the export.
- **Export** (`Export`): rows with a stored emission of at least 1, without
  the raw area, in the column order RT, name, CAS#, Area %, emission. The
  workbook is named after the upload.
- **Pipeline** (`Pipeline.Run`): the stages above, in the script's order.
  Each stage's table replaces the previous one.

A table is a set of present columns (`Frame.Col`) and a sequence of rows.
A missing (NaN) cell is `None`. A comparison with a missing cell is false,
as it is for NaN. Numbers are Dafny `real`s.

In these places the model follows the code where it is easy to misread:

- When the emission step does not run (a quantity not positive, or no area
  column), the emission column is not absent if the upload (or the
  schema-only table) had it. The `>= 1` sum, the `Area %` below-1 sum and the
  export filter then use those values, and the exported rows carry them
  (`Pipeline.UploadedEmissionIsUsed`, in either mode). Only the decimal bucket
  falls back to 0.
- Because such an uploaded column need not hold whole numbers, the `>= 1` sum
  and the total are `real`s. When the step does run, the `>= 1` sum is whole
  (`Aggregate.StoredSumIsWhole`).
- Renormalisation leaves `Area %` missing for a peak whose area is missing.
  It does not count that peak as 0.

## Model

| member | source | states |
|---|---|---|
| `Calibration.AverageStandardArea` | VDA278.py:45-49 | the average times the number of positive readings is the sum of the positive readings; it is 0 exactly when no reading is positive, and positive otherwise |
| `Calibration.AverageWithinReadings` | VDA278.py:45-49 | the average lies between any bounds of the positive readings |
| `Calibration.ZeroReadingIsIgnored` | VDA278.py:45-49 | readings 0, 50, 100 average to 75, not 50 |
| `Frame.LoadTable` | VDA278.py:89-110 | a nonempty upload is used as read; a missing, unreadable or empty one becomes a table with no rows and exactly the six recognised columns |
| `RowFilter.FilterByMode` | VDA278.py:117-122 | in SVOC mode with an RT column: the rows kept are an in-order subsequence, all at or after 12.1 min, each such row kept as often as it occurs; in VOC mode, without the column or on an empty table the table is unchanged |
| `RowFilter.CutOffIsInclusive` | VDA278.py:120 | a peak at exactly 12.1 min is kept and one at 12.09 min is dropped |
| `AreaRebase.RebasedTotal` | VDA278.py:129-131 | the rebased percentages add up to the total area times `c`, for `c` = 100 / total |
| `AreaRebase.RebaseAreaPercent` | VDA278.py:127-135 | when it runs, `Area %` exists, each row's `Area %` is its area / total * 100 (missing if the area is), other cells are unchanged, and the percentages add up to 100; when it does not run (not SVOC, empty, no area column, total <= 0) the table is unchanged |
| `AreaRebase.TenTwentySeventy` | VDA278.py:127-135 | areas 10, 20, 70 give percentages 10, 20, 70 |
| `EmissionCalc.EmissionDecimal` | VDA278.py:146-150 | the decimal times average times sample mass is standard amount times area times 1000; a missing area gives 0 |
| `EmissionCalc.ComputeEmission` | VDA278.py:142-154 | decimals are kept exactly when the step runs (all three quantities positive, nonempty table, area column); then every row's emission is the truncation of its decimal and nothing else changes; otherwise the table, including any emission column it had, is unchanged |
| `EmissionCalc.StoredWithinOneUnit` | VDA278.py:146-152 | with non-negative inputs the decimal is non-negative and the stored value is below it by less than 1 |
| `EmissionCalc.WorkedExample` | VDA278.py:146-152 | average 10, 5 µg, 2 mg, area 4 give 1000.0, stored as 1000 |
| `Numeric.TruncTowardZero` | VDA278.py:152 | the result is the integer next to the value on the side of zero, less than one away |
| `Numeric.TruncAtLeastOne` | VDA278.py:152 | a value is at least 1 exactly when its truncation is |
| `Numeric.RoundHalfEven` | VDA278.py:163 | the result is within 1/2 of the value, and even when exactly 1/2 away |
| `Numeric.RoundHalfEvenUnique` | VDA278.py:163 | those two properties determine the rounded value |
| `Numeric.RoundToHundredths` | VDA278.py:190 | the result is within half a hundredth of the value, a whole number of hundredths, and an even number of hundredths when exactly half a hundredth away |
| `Numeric.RoundToHundredthsTwice` | VDA278.py:190 | rounding to two decimals a value already rounded to two decimals leaves it unchanged |
| `Numeric.RoundToHundredthsKeepsBound` | VDA278.py:190 | rounding to two decimals keeps a value at or above a bound that is itself in hundredths |
| `Aggregate.Summarise` | VDA278.py:159-183 | the two `Area %` sums and the `< 1` decimal sum are rounded half to even; the `>= 1` sum is the sum of the stored emissions of at least 1; total = rounded `< 1` sum + `>= 1` sum; hence each rounded sum is within 1/2 of its exact sum, the `>= 1` sum is at least that bucket's row count and 0 without rows or emission column, no rows gives 0 area sums and no decimals a 0 `< 1` sum |
| `Aggregate.BucketsMatch` | VDA278.py:165-174 | after storing truncations, the decimal `< 1` / `>= 1` buckets and the stored ones have the same sizes |
| `Aggregate.EveryRowInOneBucket` | VDA278.py:165-174 | every computed row is in exactly one of the two buckets; together they hold every row |
| `Aggregate.TruncationLoss` | VDA278.py:168-174 | the stored `>= 1` sum is at most the decimal `>= 1` sum, and below it by less than the bucket's row count |
| `Aggregate.StoredSumIsWhole` | VDA278.py:152-174 | when the emission is computed, the `>= 1` sum is a whole number |
| `Aggregate.ReportedTotalBound` | VDA278.py:165-177 | the reported total is at most half a unit above the sum of all decimals, and below it by at most the `>= 1` row count plus a half |
| `Aggregate.SubUnitPeakCountsThroughItsDecimal` | VDA278.py:146-177 | a peak with decimal 0.999 is stored as 0 and adds nothing to the `>= 1` sum, but rounds the `< 1` sum and the total up to 1 |
| `Display.FormatForDisplay` | VDA278.py:188-194 | on a nonempty table: names, CAS numbers and emissions unchanged; RT and `Area %` become whole numbers of hundredths, move by at most half a hundredth and stay missing if missing; every area becomes its truncation toward zero, a missing area 0 |
| `Display.FormatIsIdempotent` | VDA278.py:188-194 | formatting a formatted table changes nothing |
| `Display.RoundedRtKeepsCutOff` | VDA278.py:190 | a retention time of at least 12.1 is still at least 12.1 when rounded |
| `Export.SelectColumns` | VDA278.py:280-281 | the selected columns are an in-order subsequence of the desired ones, exactly those present |
| `Export.ExportData` | VDA278.py:268-282 | no `Component Area`; columns are the desired ones the table has, in order; the rows are the table's rows with emission >= 1 (every row without an emission column), in order, each with the cells of the selected columns; so all of them are reportable and none carries an area |
| `Export.ExportIsIdempotent` | VDA278.py:268-282 | exporting the exported sheet again gives the same sheet |
| `Export.SplitExtension` | VDA278.py:288 | root followed by extension is the name; the extension is empty or one dot followed by neither dots nor slashes; it is nonempty exactly when the last dot comes after the last slash and some non-dot character lies between them |
| `Export.ExportFileName` | VDA278.py:284-289 | without an upload the name is `calculated_emission_filtered.xlsx`; with one it is the upload's root without its extension followed by `_export.xlsx` |
| `Export.UploadNameRoundTrip` | VDA278.py:286-289 | a base name (not all dots, no slash) plus one extension exports as the base name + `_export.xlsx` |
| `Export.LeadingDotIsNotAnExtension` | VDA278.py:288 | `.csv` is all root, so it exports as `.csv_export.xlsx` |
| `Pipeline.Run` | VDA278.py:45-289 | the summary is taken from the computed table and decimals, the table shown is their formatted table, the sheet is exported from the table shown and the name comes from the upload; so total = rounded `< 1` sum + `>= 1` sum, the raw area is never exported, the sheet has no more rows than the table shown and no upload gives the default name |
| `Pipeline.SvocShowsOnlyLatePeaks` | VDA278.py:117-194 | in SVOC mode with an RT column every row shown elutes at or after 12.1 min, also after rounding |
| `Pipeline.VocKeepsEveryPeak` | VDA278.py:117-122 | in VOC mode every loaded row is shown, in order, with its name and CAS number |
| `Pipeline.SvocAreaPercentSumsTo100` | VDA278.py:127-163 | in SVOC mode, when `Area %` was rebased, "Sum All Area%" is 100 |
| `Pipeline.UploadedEmissionIsUsed` | VDA278.py:142-282 | in either mode, when the emission is not computed on a nonempty table with an emission column, that column decides the `>= 1` sum, the total, the `Area %` below-1 sum and the exported rows, whose emissions are the table's, and the `< 1` sum is 0 |
| `Pipeline.NoUploadGivesEmptyReport` | VDA278.py:89-110 | without an upload the summary is all zeros, the sheet has the five columns and no rows, and the name is the default |
| `Pipeline.ScenarioStages` | VDA278.py:117-154 | the two-peak SVOC scenario drops the 10.0 min peak; the 13.0 min peak gets 100 % and 6000 µg/g |
| `Pipeline.ScenarioSummary` | VDA278.py:159-183 | the scenario's summary is 100, 0, 0, 6000, 6000 |
| `Pipeline.ScenarioSheet` | VDA278.py:188-282 | the scenario's sheet has the five columns and the single row 13.0, –, –, 100.0, 6000 |
| `Pipeline.ScenarioFileName` | VDA278.py:286-289 | `peaks.csv` exports as `peaks_export.xlsx` |
| `Pipeline.TwoPeakScenario` | VDA278.py:45-289 | the whole two-peak run: summary, sheet and file name together |
| `Seqs.Filter` | VDA278.py:120 | a boolean-mask selection keeps no more rows than it had, and only rows that satisfy the mask |
| `Seqs.FilterIsSubsequence` | VDA278.py:120 | the selected rows keep their original order |
| `Seqs.FilterMultiset` | VDA278.py:120 | each row that satisfies the mask is kept as often as it occurs, and no other row is kept |
| `Seqs.SumBySplit` | VDA278.py:168-174 | the sum over the rows in the mask plus the sum over the rows outside it is the sum over all rows |

## Left out

- The Streamlit widgets and display (`selectbox`, `number_input`, `text_input`, `dataframe`, `button`, `download_button`). The four quantities and the mode are parameters. The export is computed on every run, not only when the button is pressed.
- The warnings shown for a missing column or a zero total. They do not change any value.
- Reading the upload (`read_csv` / `read_excel`) and choosing between them by extension. The upload is given as a file name and an already-read table, or `None` when reading failed.
- Writing the workbook (`ExcelWriter`, `BytesIO`). The model produces the "Data" sheet and the summary record that would be written.
- IEEE-754 behaviour. Arithmetic is exact on reals, so float rounding error in the rates, shares and sums is not modelled. Rounding follows the half-to-even rule on exact values.
- Cell types. Text in numeric columns, infinities, and the 64-bit range of the integer cast are not modelled. Truncation is on unbounded integers.
- Columns other than the six recognised ones. Only their presence is tracked, because it matters for whether a table is empty. The export drops them.
- The row index. pandas aligns columns by index; here rows are positional, which is the same thing for the freshly read tables the script uses.
- `os.path.splitext` is modelled for POSIX paths (`/` separator). Windows separators are not modelled.

## Findings

None.
