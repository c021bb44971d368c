/** The peak table the pipeline works on: which of the recognised columns it
    has, and its rows in file order. A missing cell (NaN) is `None`. */
module Frame {

  import opened Seqs

  datatype Option<T> = None | Some(value: T)

  /** The six recognised columns, and a marker standing for any other column
      the uploaded file carried. */
  datatype Col =
    | ComponentRT      // "Component RT": retention time in minutes
    | CompoundName     // "Compound Name"
    | CasNumber        // "CAS#"
    | ComponentArea    // "Component Area": raw peak area
    | AreaPercent      // "Area %"
    | EmissionUgPerG   // "Emission (ug/g)"
    | Unrecognised     // some column outside the six

  /** One detected peak. The cell of a column the table does not have is never
      read: every stage looks at `columns` first. */
  datatype Row = Row(
    rt: Option<real>,
    name: Option<string>,
    cas: Option<string>,
    area: Option<real>,
    pct: Option<real>,
    emission: Option<real>)

  datatype Table = Table(columns: set<Col>, rows: seq<Row>)

  /** A table without rows, or without columns, is empty. */
  predicate IsEmpty(t: Table)
  {
    |t.rows| == 0 || t.columns == {}
  }

  /** The schema-only table put in place of an empty or unreadable upload:
      the six recognised columns and no rows. */
  const SchemaOnly: Table :=
    Table({ComponentRT, CompoundName, CasNumber, ComponentArea, AreaPercent, EmissionUgPerG}, [])

  /** The table the pipeline starts from. `parsed` is the uploaded file as read,
      or `None` when nothing was uploaded or the file could not be read. */
  function LoadTable(parsed: Option<Table>): (t: Table)
    ensures parsed.Some? && !IsEmpty(parsed.value) ==> t == parsed.value
    ensures parsed.None? || IsEmpty(parsed.value) ==>
      && t.rows == []
      && {ComponentRT, CompoundName, CasNumber, ComponentArea, AreaPercent, EmissionUgPerG} <= t.columns
      && Unrecognised !in t.columns
  {
    match parsed
    case Some(t) => if IsEmpty(t) then SchemaOnly else t
    case None => SchemaOnly
  }

  /** A cell with a missing value counted as 0. */
  function Or0(cell: Option<real>): real
  {
    match cell
    case Some(v) => v
    case None => 0.0
  }

  function AreaOr0(r: Row): real { Or0(r.area) }

  function PctOr0(r: Row): real { Or0(r.pct) }

  function EmissionOr0(r: Row): real { Or0(r.emission) }

  /** `emission >= 1`; false for a missing emission, as for NaN. */
  predicate EmissionAtLeast1(r: Row)
  {
    r.emission.Some? && r.emission.value >= 1.0
  }

  /** `emission < 1`; false for a missing emission, as for NaN. */
  predicate EmissionBelow1(r: Row)
  {
    r.emission.Some? && r.emission.value < 1.0
  }
}
