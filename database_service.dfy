/**
 * `DatabaseService` and the Oracle schema it works on. Each method mirrors
 * one block of `PerformDataBaseOperations` and is proved against the
 * function in module Cycle that specifies that block.
 */
module Services {
  import opened Wrappers
  import opened Models
  import opened Cycle
  import opened Properties

  /** The tables of the Oracle schema the service connects to. */
  class Database {
    /** OBJECT_ID_STORE.GPS_DATA_ID, one entry per row. */
    var idStore: seq<int>
    /** GPS_DATA (OBJECT_ID, X, Y), in the order its readers return rows. */
    var gpsData: seq<Point>
    /** SDE.RAIL_LINES (OBJECTID, SHAPE as WKT). */
    var railLines: seq<RailRow>
    /** RAIL_LINE_DATA, append-only. */
    var railLineData: seq<MatchRow>

    constructor (t: Tables)
      ensures Contents() == t
    {
      idStore, gpsData, railLines, railLineData := t.idStore, t.gpsData, t.railLines, t.railLineData;
    }

    function Contents(): Tables
      reads this
    {
      Tables(idStore, gpsData, railLines, railLineData)
    }
  }

  class DatabaseService {
    /** The schema `_connectionString` reaches. */
    const db: Database

    constructor (db: Database)
      ensures this.db == db
    {
      this.db := db;
    }

    /**
     * `SELECT * FROM OBJECT_ID_STORE`: `lastid` ends as column 0 of the last
     * row read, or 0; an exception while reading is logged and swallowed.
     */
    method ReadLastId(failAt: Option<nat>) returns (lastid: int)
      ensures lastid == LastId(db.idStore, failAt)
    {
      var rows := db.idStore;
      ghost var ok := Int32Flags(rows);
      lastid := 0;
      var i := 0;
      while i < |rows|
        invariant i <= |rows|
        invariant forall j :: 0 <= j < i ==> ok[j] && failAt != Some(j)
        invariant lastid == LastOr0(rows[..i])
      {
        if failAt == Some(i) || !IsInt32(rows[i]) {
          // the inner catch: lastid keeps the last value read
          assert Delivered(ok, failAt) == i;
          return;
        }
        lastid := rows[i];
        i := i + 1;
      }
      assert rows[..i] == rows;
    }

    /**
     * `SELECT OBJECT_ID, X, Y FROM GPS_DATA WHERE OBJECT_ID > :lastid` read
     * into `wgsPoints`; None when the reader throws.
     */
    method FetchPoints(lastid: int, failAt: Option<nat>) returns (wgsPoints: Option<seq<Point>>)
      ensures var batch := Above(db.gpsData, lastid);
              wgsPoints == if ReadsAll(PointFlags(batch), failAt) then Some(batch) else None
    {
      var rows := db.gpsData;
      var acc: seq<Point> := [];
      var i := 0;
      while i < |rows|
        invariant i <= |rows|
        invariant acc == Above(rows[..i], lastid)
        invariant forall j :: 0 <= j < |acc| ==> IsInt32(acc[j].objectId) && failAt != Some(j)
      {
        assert rows[..i + 1][..i] == rows[..i];
        if rows[i].objectId > lastid {
          if failAt == Some(|acc|) || !IsInt32(rows[i].objectId) {
            FetchStopsAt(rows, i, lastid, failAt);
            return None;
          }
          acc := acc + [rows[i]];
        }
        i := i + 1;
      }
      assert rows[..i] == rows;
      ghost var flags := PointFlags(acc);
      assert forall j :: 0 <= j < |acc| ==> flags[j] && failAt != Some(j);
      if failAt == Some(|acc|) {
        // the final Read(), or ExecuteReader when no row comes back, throws
        return None;
      }
      return Some(acc);
    }

    /** Every WGS84 point through the transform into `itmPoints`, keeping its OBJECT_ID. */
    method TransformPoints(wgsPoints: seq<Point>, transform: (real, real) -> (real, real)) returns (itmPoints: seq<Point>)
      ensures itmPoints == ToItm(wgsPoints, transform)
    {
      itmPoints := [];
      for i := 0 to |wgsPoints|
        invariant itmPoints == ToItm(wgsPoints[..i], transform)
      {
        var xy := transform(wgsPoints[i].x, wgsPoints[i].y);
        itmPoints := itmPoints + [Point(wgsPoints[i].objectId, xy.0, xy.1)];
      }
      assert wgsPoints[..|wgsPoints|] == wgsPoints;
    }

    /**
     * `SELECT OBJECTID, SDE.ST_AsText(SHAPE) ... FROM SDE.RAIL_LINES` read
     * into `RailLineShapes`; None when a read, `GetInt16` or the WKT reader throws.
     */
    method LoadRailLines<G>(parse: string -> Option<G>, failAt: Option<nat>) returns (lines: Option<seq<RailLine<G>>>)
      ensures lines == LoadRails(db.railLines, parse, failAt)
    {
      var rows := db.railLines;
      ghost var ok := RailFlags(rows, parse);
      var acc: seq<RailLine<G>> := [];
      var i := 0;
      while i < |rows|
        invariant i <= |rows| && |acc| == i
        invariant forall j :: 0 <= j < i ==> ok[j] && failAt != Some(j)
        invariant forall j :: 0 <= j < i ==>
                    parse(rows[j].shapeWkt).Some? && acc[j] == RailLine(rows[j].objectId, parse(rows[j].shapeWkt).value)
      {
        if failAt == Some(i) || !IsInt16(rows[i].objectId) {
          assert Delivered(ok, failAt) == i;
          return None;
        }
        var shape := parse(rows[i].shapeWkt);
        if shape.None? {
          assert Delivered(ok, failAt) == i;
          return None;
        }
        acc := acc + [RailLine(rows[i].objectId, shape.value)];
        i := i + 1;
      }
      if failAt == Some(i) {
        // the final Read(), or ExecuteReader when no row comes back, throws
        return None;
      }
      assert acc == seq(|rows|, j requires 0 <= j < |rows| && parse(rows[j].shapeWkt).Some? =>
                          RailLine(rows[j].objectId, parse(rows[j].shapeWkt).value));
      return Some(acc);
    }

    /**
     * The nested point-by-line loop: one RAIL_LINE_DATA insert per pair
     * within the threshold, `counter` counting them; `failed` when the
     * INSERT numbered `failAt` throws, after the earlier ones were stored.
     */
    method InsertMatches<G>(itmPoints: seq<Point>, lines: seq<RailLine<G>>, env: Env<G>, failAt: Option<nat>)
      returns (counter: nat, failed: bool)
      modifies db`railLineData
      ensures var rows := AllMatchRows(itmPoints, lines, env);
              if failAt.Some? && failAt.value < |rows| then
                failed && db.railLineData == old(db.railLineData) + rows[..failAt.value]
              else
                !failed && counter == |rows| && db.railLineData == old(db.railLineData) + rows
    {
      ghost var all := Hits(itmPoints, lines, env.distance, |itmPoints|);
      HitsExact(itmPoints, lines, env.distance, |itmPoints|);
      assert forall k :: 0 <= k < |all| ==> all[k] in all;
      ghost var hits: seq<Hit> := [];
      counter := 0;
      var i := 0;
      while i < |itmPoints|
        invariant i <= |itmPoints|
        invariant hits == Hits(itmPoints, lines, env.distance, i) && hits <= all
        invariant counter == |hits|
        invariant db.railLineData == old(db.railLineData) + MatchRows(itmPoints, lines, hits, env.clock)
        invariant failAt.Some? ==> failAt.value >= counter
      {
        var point := itmPoints[i];
        var j := 0;
        while j < |lines|
          invariant j <= |lines|
          invariant hits == Hits(itmPoints, lines, env.distance, i) + LineHits(itmPoints, lines, env.distance, i, j)
          invariant hits <= all
          invariant counter == |hits|
          invariant db.railLineData == old(db.railLineData) + MatchRows(itmPoints, lines, hits, env.clock)
          invariant failAt.Some? ==> failAt.value >= counter
        {
          if env.distance(point.x, point.y, lines[j].shape) <= Threshold {
            PartialHitsPrefix(itmPoints, lines, env.distance, i, j + 1);
            if failAt == Some(counter) {
              MatchRowsPrefix(itmPoints, lines, hits, all, env.clock);
              return counter, true;
            }
            MatchRowsSnoc(itmPoints, lines, hits, Hit(i, j), env.clock);
            db.railLineData := db.railLineData + [MatchRow(point.objectId, lines[j].objectId, env.clock(counter))];
            hits := hits + [Hit(i, j)];
            counter := counter + 1;
          }
          PartialHitsPrefix(itmPoints, lines, env.distance, i, j + 1);
          j := j + 1;
        }
        i := i + 1;
      }
      failed := false;
    }

    /** One processing cycle; an exception past the connection ends it in the outer catch. */
    method PerformDataBaseOperations<G>(env: Env<G>, faults: Faults) returns (outcome: Outcome)
      modifies db
      ensures var r := Run(old(db.Contents()), env, faults);
              db.Contents() == r.after && outcome == r.outcome
    {
      if faults.openFails {
        return Failed(AtOpen);
      }
      var lastid := ReadLastId(faults.storeRead);
      var fetched := FetchPoints(lastid, faults.fetch);
      if fetched.None? {
        return Failed(AtFetch);
      }
      var wgsPoints := fetched.value;
      var lastItem := 0;
      if |wgsPoints| > 0 {
        lastItem := wgsPoints[|wgsPoints| - 1].objectId;
      }
      if faults.updateFails {
        return Failed(AtUpdate);
      }
      db.idStore := seq(|db.idStore|, _ => lastItem);
      var itmPoints := TransformPoints(wgsPoints, env.transform);
      var loaded := LoadRailLines(env.parse, faults.railRead);
      if loaded.None? {
        return Failed(AtRailLoad);
      }
      var counter, failed := InsertMatches(itmPoints, loaded.value, env, faults.insert);
      if failed {
        return Failed(AtInsert);
      }
      return Completed(counter);
    }
  }
}
