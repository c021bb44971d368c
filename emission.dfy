/** The emission calculator: converts each peak's area into µg of substance
    per g of sample, through the standard's response factor. The decimal value
    is kept aside for the summary; the table stores its truncation. */
module EmissionCalc {

  import opened Seqs
  import opened Numeric
  import opened Frame

  /** A peak's emission in µg/g before truncation: the standard's µg per unit
      of area, times the peak's area per mg of sample, times 1000 mg/g. A
      missing area gives 0. */
  function EmissionDecimal(area: Option<real>, avg: real, standardUg: real, sampleMg: real): (d: real)
    requires avg != 0.0 && sampleMg != 0.0
    ensures area.None? ==> d == 0.0
    ensures area.Some? ==> d * avg * sampleMg == standardUg * area.value * 1000.0
  {
    match area
    case Some(a) => (standardUg / avg) * (a / sampleMg) * 1000.0
    case None => 0.0
  }

  /** The decimal emission of every row, in row order. */
  function Decimals(rows: seq<Row>, avg: real, standardUg: real, sampleMg: real): seq<real>
    requires avg != 0.0 && sampleMg != 0.0
  {
    seq(|rows|, i requires 0 <= i < |rows| => EmissionDecimal(rows[i].area, avg, standardUg, sampleMg))
  }

  /** The stored emission of a decimal value: its truncation toward zero. */
  function Stored(d: real): Option<real>
  {
    Some(TruncTowardZero(d) as real)
  }

  /** Every row with its emission cell overwritten by the truncated decimal. */
  function WithEmissions(rows: seq<Row>, ds: seq<real>): seq<Row>
    requires |ds| == |rows|
  {
    seq(|rows|, i requires 0 <= i < |rows| => rows[i].(emission := Stored(ds[i])))
  }

  /** The table after this step, and the decimal emissions it kept aside
      (empty when the step did not run). */
  datatype EmissionStep = EmissionStep(table: Table, decimals: seq<real>)

  /** Whether the emission is computed: the average standard area, the
      standard amount and the sample mass are all positive, and the table is
      nonempty and has an area column. */
  predicate Computes(t: Table, avg: real, standardUg: real, sampleMg: real)
  {
    avg > 0.0 && standardUg > 0.0 && sampleMg > 0.0 && !IsEmpty(t) && ComponentArea in t.columns
  }

  /** The calculator. When it runs, the emission column (created if absent)
      holds each row's truncated decimal and nothing else changes; otherwise
      the table keeps whatever emission column it had and no decimal is kept. */
  function ComputeEmission(t: Table, avg: real, standardUg: real, sampleMg: real): (step: EmissionStep)
    ensures step.decimals != [] <==> Computes(t, avg, standardUg, sampleMg)
    ensures Computes(t, avg, standardUg, sampleMg) ==>
      && step.table.columns == t.columns + {EmissionUgPerG}
      && |step.decimals| == |step.table.rows| == |t.rows|
      && forall i :: 0 <= i < |t.rows| ==>
           && step.decimals[i] == EmissionDecimal(t.rows[i].area, avg, standardUg, sampleMg)
           && step.table.rows[i] == t.rows[i].(emission := Stored(step.decimals[i]))
    ensures !Computes(t, avg, standardUg, sampleMg) ==> step.table == t
  {
    if Computes(t, avg, standardUg, sampleMg) then
      var ds := Decimals(t.rows, avg, standardUg, sampleMg);
      EmissionStep(Table(t.columns + {EmissionUgPerG}, WithEmissions(t.rows, ds)), ds)
    else
      EmissionStep(t, [])
  }

  /** A non-negative area gives a non-negative emission, and the stored value
      is at most one unit below the decimal. */
  lemma StoredWithinOneUnit(area: Option<real>, avg: real, standardUg: real, sampleMg: real)
    requires avg > 0.0 && standardUg >= 0.0 && sampleMg > 0.0
    requires area.Some? ==> area.value >= 0.0
    ensures var d := EmissionDecimal(area, avg, standardUg, sampleMg);
      d >= 0.0 && 0.0 <= d - Stored(d).value < 1.0
  {
    if area.Some? {
      var a := area.value;
      assert standardUg / avg >= 0.0 && a / sampleMg >= 0.0;
    }
  }

  /** Average standard area 10, 5 µg of standard, 2 mg of sample and a peak
      area of 4 give 1000 µg/g, stored as 1000. */
  lemma WorkedExample()
    ensures EmissionDecimal(Some(4.0), 10.0, 5.0, 2.0) == 1000.0
    ensures Stored(1000.0) == Some(1000.0)
  {
  }
}
