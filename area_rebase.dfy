/** The area-percent normaliser: in SVOC mode the filter has removed peaks, so
    `Area %` is recomputed as each peak's share of the remaining total area. */
module AreaRebase {

  import opened Seqs
  import opened Frame
  import opened RowFilter

  /** The total peak area, missing areas counted as 0. */
  function TotalArea(rows: seq<Row>): real
  {
    SumBy(rows, AreaOr0)
  }

  /** A peak's share of `total`, in percent; missing when its area is. */
  function Share(area: Option<real>, total: real): Option<real>
    requires total != 0.0
  {
    match area
    case Some(a) => Some(a / total * 100.0)
    case None => None
  }

  /** Every row with its `Area %` replaced by its share of `total`. */
  function Rebased(rows: seq<Row>, total: real): seq<Row>
    requires total != 0.0
  {
    seq(|rows|, i requires 0 <= i < |rows| => rows[i].(pct := Share(rows[i].area, total)))
  }

  /** The new percentages add up to the areas' total scaled by `c`, the
      factor 100 / `total` that turns an area into a percentage. */
  lemma RebasedTotal(rows: seq<Row>, total: real, c: real)
    requires total != 0.0 && c == 100.0 / total
    ensures SumBy(Rebased(rows, total), PctOr0) == TotalArea(rows) * c
  {
    RebasedIsScaled(rows, total, c);
    PercentagesScale(Rebased(rows, total), rows, c);
  }

  /** When every row's percentage is `c` times the matching row's area, the
      percentages add up to `c` times the total area. */
  lemma {:induction false} PercentagesScale(pcts: seq<Row>, areas: seq<Row>, c: real)
    requires |pcts| == |areas|
    requires forall i :: 0 <= i < |pcts| ==> PctOr0(pcts[i]) == AreaOr0(areas[i]) * c
    ensures SumBy(pcts, PctOr0) == TotalArea(areas) * c
  {
    if pcts != [] {
      PercentagesScale(pcts[1..], areas[1..], c);
      ScaledPair(PctOr0(pcts[0]), SumBy(pcts[1..], PctOr0), AreaOr0(areas[0]), TotalArea(areas[1..]), TotalArea(areas), c);
    }
  }

  lemma ScaledPair(x: real, y: real, u: real, v: real, w: real, c: real)
    requires x == u * c && y == v * c && w == u + v
    ensures x + y == w * c
  {
  }

  /** Each new percentage is the row's area scaled by `c`. */
  lemma RebasedIsScaled(rows: seq<Row>, total: real, c: real)
    requires total != 0.0 && c == 100.0 / total
    ensures |Rebased(rows, total)| == |rows|
    ensures forall i :: 0 <= i < |rows| ==> PctOr0(Rebased(rows, total)[i]) == AreaOr0(rows[i]) * c
  {
    forall i | 0 <= i < |rows|
      ensures PctOr0(Rebased(rows, total)[i]) == AreaOr0(rows[i]) * c
    {
      RebasedAt(rows, total, c, i);
    }
  }

  lemma RebasedAt(rows: seq<Row>, total: real, c: real, i: int)
    requires total != 0.0 && c == 100.0 / total
    requires 0 <= i < |rows|
    ensures PctOr0(Rebased(rows, total)[i]) == AreaOr0(rows[i]) * c
  {
    ShareIsScaled(Rebased(rows, total)[i], rows[i], total, c);
  }

  lemma ShareIsScaled(rebased: Row, row: Row, total: real, c: real)
    requires total != 0.0 && c == 100.0 / total
    requires rebased == row.(pct := Share(row.area, total))
    ensures PctOr0(rebased) == AreaOr0(row) * c
  {
  }

  /** Whether the script recomputes `Area %`: a nonempty SVOC table with an
      area column whose total area is positive. */
  predicate Rebases(t: Table, mode: Mode)
  {
    !IsEmpty(t) && mode == SVOC && ComponentArea in t.columns && TotalArea(t.rows) > 0.0
  }

  /** The normaliser. When it runs, `Area %` (created if absent) becomes each
      peak's share of the total area and the shares add up to 100; nothing
      else changes. When it does not run, the table is unchanged. */
  function RebaseAreaPercent(t: Table, mode: Mode): (r: Table)
    ensures Rebases(t, mode) ==>
      && r.columns == t.columns + {AreaPercent}
      && |r.rows| == |t.rows|
      && (forall i :: 0 <= i < |t.rows| ==>
            r.rows[i] == t.rows[i].(pct := Share(t.rows[i].area, TotalArea(t.rows))))
      && SumBy(r.rows, PctOr0) == 100.0
    ensures !Rebases(t, mode) ==> r == t
  {
    if Rebases(t, mode) then
      var total := TotalArea(t.rows);
      RebasedTotal(t.rows, total, 100.0 / total);
      Table(t.columns + {AreaPercent}, Rebased(t.rows, total))
    else
      t
  }

  /** Areas 10, 20 and 70 give percentages 10, 20 and 70. */
  lemma TenTwentySeventy(a: Row, b: Row, c: Row)
    requires a.area == Some(10.0) && b.area == Some(20.0) && c.area == Some(70.0)
    ensures var r := RebaseAreaPercent(Table({ComponentArea}, [a, b, c]), SVOC).rows;
      r == [a.(pct := Some(10.0)), b.(pct := Some(20.0)), c.(pct := Some(70.0))]
  {
    var rows := [a, b, c];
    assert rows[1..] == [b, c] && rows[1..][1..] == [c] && rows[1..][1..][1..] == [];
    assert SumBy([c], AreaOr0) == 70.0;
    assert SumBy([b, c], AreaOr0) == 90.0;
    assert TotalArea(rows) == 100.0;
  }
}
