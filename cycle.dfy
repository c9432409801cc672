/**
 * One run of `DatabaseService.PerformDataBaseOperations`, as functions of the
 * tables, the foreign code and the faults: read the watermark, fetch the
 * points above it, overwrite the watermark, project the points, load the rail
 * lines, and insert one RAIL_LINE_DATA row per (point, line) pair within
 * 3.0 metres.
 */
module Cycle {
  import opened Wrappers
  import opened Models

  /** Distance in ITM metres at or under which a point matches a rail line. */
  const Threshold: real := 3.0

  /**
   * How many rows a data reader hands over before it throws: it throws on
   * the first row the typed getter cannot convert (`ok[k]` false) or that
   * the environment fails (`failAt`); otherwise it reads them all.
   */
  function Delivered(ok: seq<bool>, failAt: Option<nat>): (k: nat)
    ensures k <= |ok|
    ensures forall j :: 0 <= j < k ==> ok[j] && failAt != Some(j)
    ensures k < |ok| ==> !ok[k] || failAt == Some(k)
  {
    if ok == [] then 0
    else
      var n := |ok| - 1;
      var k := Delivered(ok[..n], failAt);
      if k < n then k
      else if ok[n] && failAt != Some(n) then n + 1
      else n
  }

  /**
   * Whether a reader hands over every row without throwing. A fault at
   * index |ok| is one in the final `Read()`, or in `ExecuteReader` itself
   * when the query returns no row.
   */
  predicate ReadsAll(ok: seq<bool>, failAt: Option<nat>)
  {
    Delivered(ok, failAt) == |ok| && failAt != Some(|ok|)
  }

  /** Per row of OBJECT_ID_STORE: can `GetInt32(0)` read it. */
  function Int32Flags(ids: seq<int>): seq<bool>
  {
    seq(|ids|, j requires 0 <= j < |ids| => IsInt32(ids[j]))
  }

  /** Per row of the GPS_DATA query: can `GetInt32(0)` read its OBJECT_ID. */
  function PointFlags(ps: seq<Point>): seq<bool>
  {
    seq(|ps|, j requires 0 <= j < |ps| => IsInt32(ps[j].objectId))
  }

  /** Per row of SDE.RAIL_LINES: can `GetInt16(0)` read its OBJECTID and the WKT reader parse its SHAPE. */
  function RailFlags<G>(rows: seq<RailRow>, parse: string -> Option<G>): seq<bool>
  {
    seq(|rows|, j requires 0 <= j < |rows| => IsInt16(rows[j].objectId) && parse(rows[j].shapeWkt).Some?)
  }

  /** The last element of `ids`, or 0 when there is none. */
  function LastOr0(ids: seq<int>): int
  {
    if ids == [] then 0 else ids[|ids| - 1]
  }

  /** The OBJECT_IDs of `ps`, in order. */
  function Ids(ps: seq<Point>): (r: seq<int>)
    ensures |r| == |ps|
  {
    seq(|ps|, j requires 0 <= j < |ps| => ps[j].objectId)
  }

  /**
   * `lastid` after the watermark read: column 0 of the last row read from
   * OBJECT_ID_STORE, or 0; an exception while reading is swallowed and
   * leaves the value of the last row read before it.
   */
  function LastId(store: seq<int>, failAt: Option<nat>): int
  {
    LastOr0(store[..Delivered(Int32Flags(store), failAt)])
  }

  /**
   * The rows `SELECT OBJECT_ID, X, Y FROM GPS_DATA WHERE OBJECT_ID > :lastid`
   * returns, in the order the table yields them.
   */
  function Above(rows: seq<Point>, lastid: int): (r: seq<Point>)
    ensures |r| <= |rows|
  {
    if rows == [] then []
    else
      var n := |rows| - 1;
      Above(rows[..n], lastid) + (if rows[n].objectId > lastid then [rows[n]] else [])
  }

  /** Whether the OBJECT_IDs of `ps` strictly increase. */
  predicate Ascending(ps: seq<Point>)
  {
    forall a, b :: 0 <= a < b < |ps| ==> ps[a].objectId < ps[b].objectId
  }

  /** `UPDATE OBJECT_ID_STORE SET GPS_DATA_ID = :lastItem`: every row gets the value. */
  function SetAll(store: seq<int>, v: int): seq<int>
  {
    seq(|store|, _ => v)
  }

  /** One point through the WGS84-to-ITM transform, keeping its OBJECT_ID. */
  function Project(p: Point, transform: (real, real) -> (real, real)): Point
  {
    var xy := transform(p.x, p.y);
    Point(p.objectId, xy.0, xy.1)
  }

  /** `itmPoints`: every fetched point projected, in order. */
  function ToItm(ps: seq<Point>, transform: (real, real) -> (real, real)): seq<Point>
  {
    seq(|ps|, j requires 0 <= j < |ps| => Project(ps[j], transform))
  }

  /**
   * `RailLineShapes`: every row of SDE.RAIL_LINES with its SHAPE parsed, or
   * None when reading or parsing any row throws.
   */
  function LoadRails<G>(rows: seq<RailRow>, parse: string -> Option<G>, failAt: Option<nat>): Option<seq<RailLine<G>>>
  {
    var ok := RailFlags(rows, parse);
    if !ReadsAll(ok, failAt) then None
    else
      assert forall j :: 0 <= j < |rows| ==> ok[j] && parse(rows[j].shapeWkt).Some?;
      Some(seq(|rows|, j requires 0 <= j < |rows| && parse(rows[j].shapeWkt).Some? =>
                             RailLine(rows[j].objectId, parse(rows[j].shapeWkt).value)))
  }

  /** Whether point `p` lies within the threshold of rail line `l`. */
  predicate Within<G>(p: Point, l: RailLine<G>, distance: (real, real, G) -> real)
  {
    distance(p.x, p.y, l.shape) <= Threshold
  }

  /** A matching pair, by index into the points and into the rail lines. */
  datatype Hit = Hit(point: nat, line: nat)

  /** Point-major, then line-major order. */
  predicate Before(a: Hit, b: Hit)
  {
    a.point < b.point || (a.point == b.point && a.line < b.line)
  }

  /** The hits of point `i` against the first `m` rail lines, in line order. */
  function LineHits<G>(points: seq<Point>, lines: seq<RailLine<G>>, distance: (real, real, G) -> real, i: nat, m: nat): seq<Hit>
    requires i < |points| && m <= |lines|
  {
    if m == 0 then []
    else
      var r := LineHits(points, lines, distance, i, m - 1);
      if Within(points[i], lines[m - 1], distance) then r + [Hit(i, m - 1)] else r
  }

  /**
   * The hits of the first `n` points against every rail line, in the order
   * the nested loops find them.
   */
  function Hits<G>(points: seq<Point>, lines: seq<RailLine<G>>, distance: (real, real, G) -> real, n: nat): seq<Hit>
    requires n <= |points|
  {
    if n == 0 then []
    else Hits(points, lines, distance, n - 1) + LineHits(points, lines, distance, n - 1, |lines|)
  }

  /** Point `i` hits exactly the lines within the threshold, each once, in line order. */
  lemma {:induction false} LineHitsExact<G>(points: seq<Point>, lines: seq<RailLine<G>>, distance: (real, real, G) -> real, i: nat, m: nat)
    requires i < |points| && m <= |lines|
    ensures var r := LineHits(points, lines, distance, i, m);
            (forall h :: h in r <==> h.point == i && h.line < m && Within(points[i], lines[h.line], distance)) &&
            (forall a, b :: 0 <= a < b < |r| ==> r[a].point == r[b].point == i && r[a].line < r[b].line)
  {
    if m > 0 {
      LineHitsExact(points, lines, distance, i, m - 1);
    }
  }

  /**
   * The nested loops hit exactly the (point, line) pairs within the
   * threshold, each once, in point-major then line-major order.
   */
  lemma {:induction false} HitsExact<G>(points: seq<Point>, lines: seq<RailLine<G>>, distance: (real, real, G) -> real, n: nat)
    requires n <= |points|
    ensures var r := Hits(points, lines, distance, n);
            (forall h :: h in r <==> h.point < n && h.line < |lines| && Within(points[h.point], lines[h.line], distance)) &&
            (forall a, b :: 0 <= a < b < |r| ==> Before(r[a], r[b]))
  {
    if n > 0 {
      HitsExact(points, lines, distance, n - 1);
      LineHitsExact(points, lines, distance, n - 1, |lines|);
      var prev := Hits(points, lines, distance, n - 1);
      var last := LineHits(points, lines, distance, n - 1, |lines|);
      assert forall a :: 0 <= a < |prev| ==> prev[a] in prev && prev[a].point < n - 1;
      assert forall b :: 0 <= b < |last| ==> last[b] in last && last[b].point == n - 1;
    }
  }

  /** The RAIL_LINE_DATA row inserted for the k-th hit. */
  function MatchRows<G>(points: seq<Point>, lines: seq<RailLine<G>>, hits: seq<Hit>, clock: nat -> int): seq<MatchRow>
    requires forall k :: 0 <= k < |hits| ==> hits[k].point < |points| && hits[k].line < |lines|
  {
    seq(|hits|, k requires 0 <= k < |hits| =>
      MatchRow(points[hits[k].point].objectId, lines[hits[k].line].objectId, clock(k)))
  }

  /** Every row the match loop inserts when no INSERT throws. */
  function AllMatchRows<G>(points: seq<Point>, lines: seq<RailLine<G>>, env: Env<G>): seq<MatchRow>
  {
    var hits := Hits(points, lines, env.distance, |points|);
    HitsExact(points, lines, env.distance, |points|);
    assert forall k :: 0 <= k < |hits| ==> hits[k] in hits;
    MatchRows(points, lines, hits, env.clock)
  }

  /** The batch the GPS_DATA query returns in a cycle that opens its connection. */
  function Batch(t: Tables, f: Faults): seq<Point>
  {
    Above(t.gpsData, LastId(t.idStore, f.storeRead))
  }

  /** One whole cycle: the tables afterwards and how it ended. */
  function Run<G>(t: Tables, env: Env<G>, f: Faults): CycleResult
  {
    if f.openFails then CycleResult(t, Failed(AtOpen))
    else
      var batch := Batch(t, f);
      if !ReadsAll(PointFlags(batch), f.fetch) then CycleResult(t, Failed(AtFetch))
      else if f.updateFails then CycleResult(t, Failed(AtUpdate))
      else
        var marked := t.(idStore := SetAll(t.idStore, LastOr0(Ids(batch))));
        match LoadRails(t.railLines, env.parse, f.railRead)
        case None => CycleResult(marked, Failed(AtRailLoad))
        case Some(lines) =>
          var rows := AllMatchRows(ToItm(batch, env.transform), lines, env);
          if f.insert.Some? && f.insert.value < |rows| then
            CycleResult(marked.(railLineData := t.railLineData + rows[..f.insert.value]), Failed(AtInsert))
          else
            CycleResult(marked.(railLineData := t.railLineData + rows), Completed(|rows|))
  }
}
