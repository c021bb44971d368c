/** The mode-based row filter: in SVOC mode only peaks eluting at or after
    12.1 minutes are kept. */
module RowFilter {

  import opened Seqs
  import opened Frame

  datatype Mode = VOC | SVOC

  /** The SVOC retention-time cut-off, in minutes. */
  const SvocMinRt: real := 12.1

  /** `Component RT >= 12.1`; false for a missing retention time, as for NaN. */
  predicate ElutesForSvoc(r: Row)
  {
    r.rt.Some? && r.rt.value >= SvocMinRt
  }

  /** The filter as the script applies it: only a nonempty table in SVOC mode
      that has a retention-time column loses rows. */
  function FilterByMode(t: Table, mode: Mode): (r: Table)
    ensures r.columns == t.columns
    ensures mode == VOC || ComponentRT !in t.columns || IsEmpty(t) ==> r == t
    ensures mode == SVOC && ComponentRT in t.columns ==>
      && IsSubsequence(r.rows, t.rows)
      && (forall row :: row in r.rows ==> ElutesForSvoc(row))
      && (forall row :: ElutesForSvoc(row) ==> multiset(r.rows)[row] == multiset(t.rows)[row])
  {
    if !IsEmpty(t) && mode == SVOC && ComponentRT in t.columns then
      FilterIsSubsequence(t.rows, ElutesForSvoc);
      FilterMultiset(t.rows, ElutesForSvoc);
      t.(rows := Filter(t.rows, ElutesForSvoc))
    else
      t
  }

  /** A peak at exactly 12.1 minutes is kept; one just before it is dropped. */
  lemma CutOffIsInclusive(row: Row, t: Table)
    requires row.rt == Some(12.1)
    requires t == Table({ComponentRT}, [row, row.(rt := Some(12.09))])
    ensures FilterByMode(t, SVOC).rows == [row]
  {
    var rows := t.rows;
    assert rows[1..] == [rows[1]] && rows[1..][1..] == [];
    assert !ElutesForSvoc(rows[1]);
    assert Filter(rows[1..], ElutesForSvoc) == [];
  }
}
