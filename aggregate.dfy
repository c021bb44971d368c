/** The aggregator: five summary sums over the final table and the decimal
    emissions kept aside by the calculator. The `< 1` emission bucket sums the
    decimals before truncation; the `>= 1` bucket sums the stored (truncated)
    emission column. */
module Aggregate {

  import opened Seqs
  import opened Numeric
  import opened Frame
  import opened EmissionCalc

  datatype SummaryRecord = SummaryRecord(
    sumAllAreaPct: int,     // "Sum All Area%"
    sumAreaPctBelow1: int,  // "Sum <1 ppm Area%"
    sumBelow1: int,         // "Sum <1 ppm": rounded sum of decimals below 1
    sumAtLeast1: real,      // "Sum ≥ 1 ppm": sum of stored emissions of at least 1
    sumAll: real)           // "Sum All Emission (ug/g)"

  predicate DecimalBelow1(d: real) { d < 1.0 }

  predicate DecimalAtLeast1(d: real) { d >= 1.0 }

  /** (A) `Area %` summed over all rows, missing as 0; 0 without the column. */
  function AreaPercentTotal(t: Table): real
  {
    if AreaPercent in t.columns then SumBy(t.rows, PctOr0) else 0.0
  }

  /** (B) The decimal emissions below 1, summed; 0 when none were computed. */
  function DecimalsBelow1Total(ds: seq<real>): real
  {
    if ds == [] then 0.0 else Sum(Filter(ds, DecimalBelow1))
  }

  /** (C) The stored emissions of at least 1, summed; 0 for an empty table or
      one without an emission column. */
  function EmissionAtLeast1Total(t: Table): real
  {
    if !IsEmpty(t) && EmissionUgPerG in t.columns then SumBy(Filter(t.rows, EmissionAtLeast1), EmissionOr0)
    else 0.0
  }

  /** (E) `Area %` over the rows whose stored emission is below 1, missing as 0;
      0 for an empty table or one without either column. */
  function AreaPercentBelow1Total(t: Table): real
  {
    if !IsEmpty(t) && EmissionUgPerG in t.columns && AreaPercent in t.columns then
      SumBy(Filter(t.rows, EmissionBelow1), PctOr0)
    else 0.0
  }

  /** The summary. The three area and decimal sums are rounded half to even;
      the `>= 1` sum is the sum of the stored emissions of at least 1, unrounded;
      the total emission is the rounded `< 1` sum plus the `>= 1` sum, never
      recomputed on its own. So each rounded sum is within half a unit of what
      it rounds, the `>= 1` sum is at least its row count, and a table without
      rows sums to 0 everywhere but in the decimal bucket, which is 0 when no
      decimal was computed. */
  function Summarise(t: Table, ds: seq<real>): (s: SummaryRecord)
    ensures s.sumAllAreaPct == RoundHalfEven(AreaPercentTotal(t))
    ensures s.sumAreaPctBelow1 == RoundHalfEven(AreaPercentBelow1Total(t))
    ensures s.sumBelow1 == RoundHalfEven(DecimalsBelow1Total(ds))
    ensures s.sumAtLeast1 == EmissionAtLeast1Total(t)
    ensures s.sumAll == s.sumBelow1 as real + s.sumAtLeast1
    ensures -0.5 <= AreaPercentTotal(t) - s.sumAllAreaPct as real <= 0.5
    ensures -0.5 <= DecimalsBelow1Total(ds) - s.sumBelow1 as real <= 0.5
    ensures -0.5 <= AreaPercentBelow1Total(t) - s.sumAreaPctBelow1 as real <= 0.5
    ensures !IsEmpty(t) && EmissionUgPerG in t.columns ==>
      s.sumAtLeast1 >= |Filter(t.rows, EmissionAtLeast1)| as real
    ensures IsEmpty(t) || EmissionUgPerG !in t.columns ==> s.sumAtLeast1 == 0.0
    ensures t.rows == [] ==> s.sumAllAreaPct == 0 && s.sumAreaPctBelow1 == 0
    ensures ds == [] ==> s.sumBelow1 == 0
  {
    var a := RoundHalfEven(AreaPercentTotal(t));
    var b := RoundHalfEven(DecimalsBelow1Total(ds));
    var c := EmissionAtLeast1Total(t);
    var e := RoundHalfEven(AreaPercentBelow1Total(t));
    ReportableSumAtLeastCount(t.rows);
    RoundHalfEvenWhole(0);
    SummaryRecord(a, e, b, c, b as real + c)
  }

  /** Each row in the `>= 1` bucket adds at least 1 to its sum. */
  lemma ReportableSumAtLeastCount(rows: seq<Row>)
    ensures SumBy(Filter(rows, EmissionAtLeast1), EmissionOr0) >= |Filter(rows, EmissionAtLeast1)| as real
  {
    var kept := Filter(rows, EmissionAtLeast1);
    forall i | 0 <= i < |kept|
      ensures EmissionOr0(kept[i]) >= 1.0
    {
      assert kept[i] in kept;
    }
    SumByAtLeast(kept, EmissionOr0, 1.0);
  }

  /** Row by row, a decimal is below 1 exactly when its stored truncation is,
      so the decimal buckets and the stored buckets have the same sizes. */
  lemma {:induction false} BucketsMatch(rows: seq<Row>, ds: seq<real>)
    requires |ds| == |rows|
    ensures |Filter(ds, DecimalBelow1)| == |Filter(WithEmissions(rows, ds), EmissionBelow1)|
    ensures |Filter(ds, DecimalAtLeast1)| == |Filter(WithEmissions(rows, ds), EmissionAtLeast1)|
  {
    if rows != [] {
      BucketsMatch(rows[1..], ds[1..]);
      var r := WithEmissions(rows, ds);
      assert r[1..] == WithEmissions(rows[1..], ds[1..]);
      TruncAtLeastOne(ds[0]);
    }
  }

  /** Once emissions are stored, every row is in exactly one of the two
      buckets, and each bucket holds as many rows as its decimal counterpart. */
  lemma EveryRowInOneBucket(t: Table, avg: real, standardUg: real, sampleMg: real)
    requires Computes(t, avg, standardUg, sampleMg)
    ensures var step := ComputeEmission(t, avg, standardUg, sampleMg);
      && (forall i :: 0 <= i < |step.table.rows| ==>
            EmissionBelow1(step.table.rows[i]) != EmissionAtLeast1(step.table.rows[i]))
      && |Filter(step.table.rows, EmissionBelow1)| + |Filter(step.table.rows, EmissionAtLeast1)| == |t.rows|
      && |Filter(step.decimals, DecimalBelow1)| == |Filter(step.table.rows, EmissionBelow1)|
      && |Filter(step.decimals, DecimalAtLeast1)| == |Filter(step.table.rows, EmissionAtLeast1)|
  {
    var step := ComputeEmission(t, avg, standardUg, sampleMg);
    assert step.table.rows == WithEmissions(t.rows, step.decimals);
    BucketsMatch(t.rows, step.decimals);
    FilterSplits(step.table.rows, EmissionBelow1, EmissionAtLeast1);
  }

  /** The `>= 1` bucket loses less than one unit per row to truncation: the
      stored sum is at most the decimal sum, and below it by less than the
      number of rows in the bucket. */
  lemma {:induction false} TruncationLoss(rows: seq<Row>, ds: seq<real>)
    requires |ds| == |rows|
    ensures var stored := SumBy(Filter(WithEmissions(rows, ds), EmissionAtLeast1), EmissionOr0);
      var exact := Sum(Filter(ds, DecimalAtLeast1));
      var n := |Filter(ds, DecimalAtLeast1)| as real;
      stored <= exact <= stored + n && (n > 0.0 ==> exact < stored + n)
  {
    if rows != [] {
      TruncationLoss(rows[1..], ds[1..]);
      var r := WithEmissions(rows, ds);
      assert r[1..] == WithEmissions(rows[1..], ds[1..]);
      TruncAtLeastOne(ds[0]);
      var fr, fd := Filter(r[1..], EmissionAtLeast1), Filter(ds[1..], DecimalAtLeast1);
      if ds[0] >= 1.0 {
        assert ([r[0]] + fr)[1..] == fr;
        assert ([ds[0]] + fd)[1..] == fd;
      }
    }
  }

  /** Stored emissions are whole, so their `>= 1` sum is whole. */
  lemma StoredSumIsWhole(t: Table, avg: real, standardUg: real, sampleMg: real)
    requires Computes(t, avg, standardUg, sampleMg)
    ensures IsWhole(EmissionAtLeast1Total(ComputeEmission(t, avg, standardUg, sampleMg).table))
  {
    var step := ComputeEmission(t, avg, standardUg, sampleMg);
    var kept := Filter(step.table.rows, EmissionAtLeast1);
    forall i | 0 <= i < |kept|
      ensures IsWhole(EmissionOr0(kept[i]))
    {
      assert kept[i] in step.table.rows;
    }
    SumByWhole(kept, EmissionOr0);
  }

  /** The reported total emission is within half a unit of the total of the
      decimal emissions from above, and falls short of it by less than one unit
      per row of the `>= 1` bucket plus half a unit. */
  lemma ReportedTotalBound(t: Table, avg: real, standardUg: real, sampleMg: real)
    requires Computes(t, avg, standardUg, sampleMg)
    ensures var step := ComputeEmission(t, avg, standardUg, sampleMg);
      var s := Summarise(step.table, step.decimals);
      var n := |Filter(step.table.rows, EmissionAtLeast1)| as real;
      Sum(step.decimals) - n - 0.5 <= s.sumAll <= Sum(step.decimals) + 0.5
  {
    var step := ComputeEmission(t, avg, standardUg, sampleMg);
    assert step.table.rows == WithEmissions(t.rows, step.decimals);
    TruncationLoss(t.rows, step.decimals);
    BucketsMatch(t.rows, step.decimals);
    SumBySplit(step.decimals, DecimalBelow1, DecimalAtLeast1, AsIs);
  }

  /** A single peak whose decimal emission is 0.999 is stored as 0: it adds
      nothing to the `>= 1` bucket, yet its decimal rounds the `< 1` bucket up
      to 1, and with it the reported total. */
  lemma SubUnitPeakCountsThroughItsDecimal(row: Row)
    requires row.area == Some(0.999)
    ensures var step := ComputeEmission(Table({ComponentArea}, [row]), 1000.0, 1.0, 1.0);
      && step.decimals == [0.999]
      && step.table.rows == [row.(emission := Some(0.0))]
      && Summarise(step.table, step.decimals).sumBelow1 == 1
      && Summarise(step.table, step.decimals).sumAtLeast1 == 0.0
      && Summarise(step.table, step.decimals).sumAll == 1.0
  {
    var step := ComputeEmission(Table({ComponentArea}, [row]), 1000.0, 1.0, 1.0);
    assert step.decimals == [0.999];
    assert [0.999][1..] == [];
    assert Filter([0.999], DecimalBelow1) == [0.999];
    assert Sum([0.999]) == 0.999;
    RoundHalfEvenUnique(0.999, 1);
    var stored := row.(emission := Some(0.0));
    assert Filter([stored], EmissionAtLeast1) == [];
  }
}
