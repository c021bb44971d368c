/** The formatting pass applied after the summary is computed and before the
    table is shown and exported: retention time and `Area %` rounded to two
    decimals, `Component Area` filled with 0 and cast to a whole number. */
module Display {

  import opened Seqs
  import opened Numeric
  import opened Frame

  /** A cell rounded to two decimals; a missing cell stays missing. */
  function RoundCell(cell: Option<real>): Option<real>
  {
    match cell
    case Some(v) => Some(RoundToHundredths(v))
    case None => None
  }

  /** Both cells missing, or both present and within half a hundredth. */
  predicate WithinHalfHundredth(before: Option<real>, after: Option<real>)
  {
    (before.None? && after.None?) ||
    (before.Some? && after.Some? && -0.005 <= before.value - after.value <= 0.005)
  }

  function FormatRow(r: Row, cols: set<Col>): Row
  {
    r.(rt := if ComponentRT in cols then RoundCell(r.rt) else r.rt,
       area := if ComponentArea in cols then Some(TruncTowardZero(Or0(r.area)) as real) else r.area,
       pct := if AreaPercent in cols then RoundCell(r.pct) else r.pct)
  }

  /** The formatting pass, on a nonempty table only. Names, CAS numbers and
      emissions are untouched; rounded cells move by at most half a
      hundredth; every area becomes a whole number. */
  function FormatForDisplay(t: Table): (r: Table)
    ensures r.columns == t.columns && |r.rows| == |t.rows|
    ensures IsEmpty(t) ==> r == t
    ensures forall i :: 0 <= i < |t.rows| ==>
      && r.rows[i].name == t.rows[i].name
      && r.rows[i].cas == t.rows[i].cas
      && r.rows[i].emission == t.rows[i].emission
      && (ComponentRT in t.columns ==> WithinHalfHundredth(t.rows[i].rt, r.rows[i].rt))
      && (ComponentRT in t.columns && r.rows[i].rt.Some? ==> IsWhole(r.rows[i].rt.value * 100.0))
      && (AreaPercent in t.columns ==> WithinHalfHundredth(t.rows[i].pct, r.rows[i].pct))
      && (AreaPercent in t.columns && r.rows[i].pct.Some? ==> IsWhole(r.rows[i].pct.value * 100.0))
      && (ComponentArea in t.columns ==> r.rows[i].area == Some(TruncTowardZero(Or0(t.rows[i].area)) as real))
  {
    if IsEmpty(t) then t
    else Table(t.columns, seq(|t.rows|, i requires 0 <= i < |t.rows| => FormatRow(t.rows[i], t.columns)))
  }

  /** Formatting a formatted table changes nothing. */
  lemma FormatIsIdempotent(t: Table)
    ensures FormatForDisplay(FormatForDisplay(t)) == FormatForDisplay(t)
  {
    var once := FormatForDisplay(t);
    if !IsEmpty(t) {
      var twice := FormatForDisplay(once);
      forall i | 0 <= i < |t.rows|
        ensures twice.rows[i] == once.rows[i]
      {
        FormatRowTwice(t.rows[i], t.columns);
      }
    }
  }

  lemma FormatRowTwice(r: Row, cols: set<Col>)
    ensures FormatRow(FormatRow(r, cols), cols) == FormatRow(r, cols)
  {
    RoundCellTwice(r.rt);
    RoundCellTwice(r.pct);
    TruncWhole(TruncTowardZero(Or0(r.area)));
  }

  lemma RoundCellTwice(cell: Option<real>)
    ensures RoundCell(RoundCell(cell)) == RoundCell(cell)
  {
    if cell.Some? {
      RoundToHundredthsTwice(cell.value);
    }
  }

  /** A retention time at or after the SVOC cut-off of 12.1 minutes is still
      at or after it once rounded to two decimals. */
  lemma RoundedRtKeepsCutOff(rt: real)
    requires rt >= 12.1
    ensures RoundToHundredths(rt) >= 12.1
  {
    assert 12.1 * 100.0 == 1210 as real;
    RoundToHundredthsKeepsBound(rt, 12.1);
  }
}
