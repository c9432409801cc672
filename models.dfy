/**
 * The records the service reads and writes, the collaborators it calls
 * (coordinate transform, WKT reader, distance, wall clock) and the ways a
 * processing cycle can end.
 */
module Models {
  import opened Wrappers

  const Int32Min: int := -0x8000_0000
  const Int32Max: int := 0x7fff_ffff
  const Int16Min: int := -0x8000
  const Int16Max: int := 0x7fff

  /** What `GetInt32` can return without throwing. */
  predicate IsInt32(v: int) { Int32Min <= v <= Int32Max }

  /** What `GetInt16` can return without throwing. */
  predicate IsInt16(v: int) { Int16Min <= v <= Int16Max }

  /** `Models.Point`: a GPS_DATA row (X, Y in WGS84 degrees) or its ITM projection. */
  datatype Point = Point(objectId: int, x: real, y: real)

  /** A row of SDE.RAIL_LINES: OBJECTID and the SHAPE column as well-known text. */
  datatype RailRow = RailRow(objectId: int, shapeWkt: string)

  /** `Models.RailLine`: a rail line with its parsed geometry of type G. */
  datatype RailLine<G> = RailLine(objectId: int, shape: G)

  /** A row of RAIL_LINE_DATA: (OBJECTID, RAIL_LINE_ID, TIMESTAMP). */
  datatype MatchRow = MatchRow(objectId: int, railLineId: int, timestamp: int)

  /**
   * The four tables a cycle touches. `idStore` holds the GPS_DATA_ID column
   * of OBJECT_ID_STORE, row by row, in the order the reader returns them;
   * `gpsData` is GPS_DATA in the order its reader returns rows.
   */
  datatype Tables = Tables(
    idStore: seq<int>,
    gpsData: seq<Point>,
    railLines: seq<RailRow>,
    railLineData: seq<MatchRow>)

  /**
   * The foreign code a cycle calls: the WGS84-to-ITM transform, the WKT
   * reader (None where it throws), point-to-geometry distance, and the wall
   * clock read at the k-th insert of the cycle.
   */
  datatype Env<!G> = Env(
    transform: (real, real) -> (real, real),
    parse: string -> Option<G>,
    distance: (real, real, G) -> real,
    clock: nat -> int)

  /**
   * Where the database throws during one cycle: opening the connection,
   * reading row k of OBJECT_ID_STORE, of the GPS_DATA query or of
   * SDE.RAIL_LINES, the watermark UPDATE, or the k-th INSERT (from 0).
   */
  datatype Faults = Faults(
    openFails: bool,
    storeRead: Option<nat>,
    fetch: Option<nat>,
    updateFails: bool,
    railRead: Option<nat>,
    insert: Option<nat>)

  const NoFaults: Faults := Faults(false, None, None, false, None, None)

  /** The step whose exception reached the cycle's outer catch. */
  datatype Stage = AtOpen | AtFetch | AtUpdate | AtRailLoad | AtInsert

  /** How a cycle ended: normally with its insert counter, or in the outer catch. */
  datatype Outcome = Completed(counter: nat) | Failed(stage: Stage)

  /** The tables after a cycle, and how it ended. */
  datatype CycleResult = CycleResult(after: Tables, outcome: Outcome)
}
