/** The calibration reducer: the average peak area of the standard. */
module Calibration {

  import opened Seqs

  /** The readings that count: the strictly positive ones, in order. */
  predicate IsPositive(x: real) { x > 0.0 }

  /** The mean of the strictly positive readings among the three standard
      peak areas, or 0 when none is positive. */
  function AverageStandardArea(std1: real, std2: real, std3: real): (avg: real)
    ensures var count := PositiveCount(std1, std2, std3);
      && (count == 0 ==> avg == 0.0)
      && (count > 0 ==> avg * count as real == PositivePart(std1) + PositivePart(std2) + PositivePart(std3))
    ensures avg > 0.0 <==> std1 > 0.0 || std2 > 0.0 || std3 > 0.0
  {
    var valid := Filter([std1, std2, std3], IsPositive);
    PositiveReadings(std1, std2, std3);
    if |valid| > 0 then Sum(valid) / |valid| as real else 0.0
  }

  /** How many of the readings are strictly positive. */
  function PositiveCount(std1: real, std2: real, std3: real): nat
  {
    (if std1 > 0.0 then 1 else 0) + (if std2 > 0.0 then 1 else 0) + (if std3 > 0.0 then 1 else 0)
  }

  /** A reading if it counts, 0 if it does not. */
  function PositivePart(x: real): real
  {
    if x > 0.0 then x else 0.0
  }

  /** The selected readings are counted by `PositiveCount` and summed by
      `PositivePart`. */
  lemma PositiveReadings(std1: real, std2: real, std3: real)
    ensures var valid := Filter([std1, std2, std3], IsPositive);
      && |valid| == PositiveCount(std1, std2, std3)
      && Sum(valid) == PositivePart(std1) + PositivePart(std2) + PositivePart(std3)
  {
    var s := [std1, std2, std3];
    assert s[1..] == [std2, std3] && s[1..][1..] == [std3] && s[1..][1..][1..] == [];
    var v3 := Filter([std3], IsPositive);
    var v2 := Filter([std2, std3], IsPositive);
    assert v3 == if std3 > 0.0 then [std3] else [];
    assert v2 == (if std2 > 0.0 then [std2] else []) + v3;
    assert Filter(s, IsPositive) == (if std1 > 0.0 then [std1] else []) + v2;
    assert SumBy(v3, AsIs) == PositivePart(std3) by {
      if std3 > 0.0 { assert v3[1..] == []; }
    }
    SumByAppend(if std2 > 0.0 then [std2] else [], v3, AsIs);
    SumByAppend(if std1 > 0.0 then [std1] else [], v2, AsIs);
  }

  /** The average of readings between `lo` and `hi` lies between them. */
  lemma AverageWithinReadings(std1: real, std2: real, std3: real, lo: real, hi: real)
    requires std1 > 0.0 ==> lo <= std1 <= hi
    requires std2 > 0.0 ==> lo <= std2 <= hi
    requires std3 > 0.0 ==> lo <= std3 <= hi
    requires std1 > 0.0 || std2 > 0.0 || std3 > 0.0
    ensures lo <= AverageStandardArea(std1, std2, std3) <= hi
  {
    var avg := AverageStandardArea(std1, std2, std3);
    var count := PositiveCount(std1, std2, std3);
    // with the count fixed, the mean's defining equation is linear
    if count == 1 {
      assert avg * 1.0 == PositivePart(std1) + PositivePart(std2) + PositivePart(std3);
    } else if count == 2 {
      assert avg * 2.0 == PositivePart(std1) + PositivePart(std2) + PositivePart(std3);
    } else {
      assert avg * 3.0 == PositivePart(std1) + PositivePart(std2) + PositivePart(std3);
    }
  }

  /** Readings {0, 50, 100} average to 75: the zero reading is left out. */
  lemma ZeroReadingIsIgnored()
    ensures AverageStandardArea(0.0, 50.0, 100.0) == 75.0
  {
    PositiveReadings(0.0, 50.0, 100.0);
  }
}
