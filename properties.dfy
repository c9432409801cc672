/**
 * What one processing cycle guarantees, and what it does not: the watermark
 * rule, the filter and order of the fetched batch, the match rule, the
 * insert count, and where an exception leaves the tables.
 */
module Properties {
  import opened Wrappers
  import opened Models
  import opened Cycle

  // ---------------------------------------------------------------------
  // The GPS_DATA fetch

  /** The fetch filter keeps the table's order: filtering a concatenation filters each part. */
  lemma {:induction false} AboveAppend(a: seq<Point>, b: seq<Point>, lastid: int)
    ensures Above(a + b, lastid) == Above(a, lastid) + Above(b, lastid)
    decreases |b|
  {
    if b == [] {
      assert a + b == a;
    } else {
      var n := |b| - 1;
      assert (a + b)[..|a + b| - 1] == a + b[..n];
      AboveAppend(a, b[..n], lastid);
    }
  }

  /**
   * The GPS_DATA reader throws on row `i` of the table, which passes the
   * filter: fewer rows are delivered than the query returns.
   */
  lemma FetchStopsAt(rows: seq<Point>, i: nat, lastid: int, failAt: Option<nat>)
    requires i < |rows| && rows[i].objectId > lastid
    requires var acc := Above(rows[..i], lastid);
             (forall j :: 0 <= j < |acc| ==> IsInt32(acc[j].objectId) && failAt != Some(j)) &&
             (failAt == Some(|acc|) || !IsInt32(rows[i].objectId))
    ensures var batch := Above(rows, lastid);
            !ReadsAll(PointFlags(batch), failAt)
  {
    var acc := Above(rows[..i], lastid);
    var batch := Above(rows, lastid);
    assert rows[..i + 1][..i] == rows[..i];
    assert Above(rows[..i + 1], lastid) == acc + [rows[i]];
    assert rows == rows[..i + 1] + rows[i + 1..];
    AboveAppend(rows[..i + 1], rows[i + 1..], lastid);
    assert batch == acc + [rows[i]] + Above(rows[i + 1..], lastid);
    var ok := PointFlags(batch);
    assert forall j :: 0 <= j < |acc| ==> batch[j] == acc[j] && ok[j];
    assert !ok[|acc|] || failAt == Some(|acc|);
  }

  // ---------------------------------------------------------------------
  // The match loop

  /** The hits of point `i` against fewer lines are a prefix of its hits against more. */
  lemma {:induction false} LineHitsPrefix<G>(points: seq<Point>, lines: seq<RailLine<G>>, distance: (real, real, G) -> real, i: nat, j: nat, m: nat)
    requires i < |points| && j <= m <= |lines|
    ensures LineHits(points, lines, distance, i, j) <= LineHits(points, lines, distance, i, m)
    decreases m - j
  {
    if j < m {
      LineHitsPrefix(points, lines, distance, i, j, m - 1);
    }
  }

  /** The hits of fewer points are a prefix of the hits of more. */
  lemma {:induction false} HitsPrefix<G>(points: seq<Point>, lines: seq<RailLine<G>>, distance: (real, real, G) -> real, i: nat, n: nat)
    requires i <= n <= |points|
    ensures Hits(points, lines, distance, i) <= Hits(points, lines, distance, n)
    decreases n - i
  {
    if i < n {
      HitsPrefix(points, lines, distance, i, n - 1);
    }
  }

  /** What the nested loops have found once they reach line `j` of point `i` is a prefix of what they find in all. */
  lemma PartialHitsPrefix<G>(points: seq<Point>, lines: seq<RailLine<G>>, distance: (real, real, G) -> real, i: nat, j: nat)
    requires i < |points| && j <= |lines|
    ensures Hits(points, lines, distance, i) + LineHits(points, lines, distance, i, j)
            <= Hits(points, lines, distance, |points|)
  {
    LineHitsPrefix(points, lines, distance, i, j, |lines|);
    HitsPrefix(points, lines, distance, i + 1, |points|);
  }

  /** Inserting one more hit appends its row, stamped with the clock reading for its position. */
  lemma MatchRowsSnoc<G>(points: seq<Point>, lines: seq<RailLine<G>>, hits: seq<Hit>, h: Hit, clock: nat -> int)
    requires forall k :: 0 <= k < |hits| ==> hits[k].point < |points| && hits[k].line < |lines|
    requires h.point < |points| && h.line < |lines|
    ensures MatchRows(points, lines, hits + [h], clock)
            == MatchRows(points, lines, hits, clock) + [MatchRow(points[h.point].objectId, lines[h.line].objectId, clock(|hits|))]
  {
  }

  /** The rows of a prefix of the hits are a prefix of the rows. */
  lemma MatchRowsPrefix<G>(points: seq<Point>, lines: seq<RailLine<G>>, hits: seq<Hit>, all: seq<Hit>, clock: nat -> int)
    requires forall k :: 0 <= k < |all| ==> all[k].point < |points| && all[k].line < |lines|
    requires hits <= all
    ensures MatchRows(points, lines, hits, clock) == MatchRows(points, lines, all, clock)[..|hits|]
  {
  }

  // ---------------------------------------------------------------------
  // Properties of the parts

  /** `lastid` is column 0 of the last row of OBJECT_ID_STORE when every row reads cleanly. */
  lemma WatermarkReadsLastRow(store: seq<int>)
    requires forall j :: 0 <= j < |store| ==> IsInt32(store[j])
    ensures LastId(store, None) == LastOr0(store)
  {
    var ok := Int32Flags(store);
    assert forall j :: 0 <= j < |store| ==> ok[j];
    assert store[..|store|] == store;
  }

  /**
   * A failure reading row k of OBJECT_ID_STORE is swallowed: `lastid` is
   * what the rows before it left, 0 when it is the first.
   */
  lemma WatermarkReadErrorSwallowed(store: seq<int>, k: nat)
    requires k <= |store|
    requires forall j :: 0 <= j < k ==> IsInt32(store[j])
    ensures LastId(store, Some(k)) == LastOr0(store[..k])
    ensures k == 0 ==> LastId(store, Some(k)) == 0
  {
    var ok := Int32Flags(store);
    var d := Delivered(ok, Some(k));
    assert forall j :: 0 <= j < k ==> ok[j];
    assert d == k;
  }

  /** Every fetched point lies above the watermark, and every such row of GPS_DATA is fetched. */
  lemma {:induction false} FetchedAboveWatermark(rows: seq<Point>, lastid: int)
    ensures forall p :: p in Above(rows, lastid) <==> p in rows && p.objectId > lastid
  {
    if rows != [] {
      var n := |rows| - 1;
      FetchedAboveWatermark(rows[..n], lastid);
      assert rows == rows[..n] + [rows[n]];
    }
  }

  /** A bound on every id of GPS_DATA bounds every fetched id. */
  lemma {:induction false} FetchKeepsBound(rows: seq<Point>, lastid: int, c: int)
    requires forall j :: 0 <= j < |rows| ==> rows[j].objectId < c
    ensures forall j :: 0 <= j < |Above(rows, lastid)| ==> Above(rows, lastid)[j].objectId < c
  {
    if rows != [] {
      var n := |rows| - 1;
      FetchKeepsBound(rows[..n], lastid, c);
    }
  }

  /** Ids ascending in GPS_DATA's order stay ascending in the fetched batch. */
  lemma {:induction false} FetchKeepsAscending(rows: seq<Point>, lastid: int)
    requires Ascending(rows)
    ensures Ascending(Above(rows, lastid))
  {
    if rows != [] {
      var n := |rows| - 1;
      FetchKeepsAscending(rows[..n], lastid);
      FetchKeepsBound(rows[..n], lastid, rows[n].objectId);
      var prev := Above(rows[..n], lastid);
      if rows[n].objectId > lastid {
        var r := prev + [rows[n]];
        assert Above(rows, lastid) == r;
        forall a, b | 0 <= a < b < |r|
          ensures r[a].objectId < r[b].objectId
        {
          if b == |prev| {
            assert r[a] == prev[a];
          } else {
            assert r[a] == prev[a] && r[b] == prev[b];
          }
        }
      } else {
        assert Above(rows, lastid) == prev;
      }
    }
  }

  /** The projection keeps every OBJECT_ID, position by position. */
  lemma ProjectionKeepsIds(ps: seq<Point>, transform: (real, real) -> (real, real))
    ensures Ids(ToItm(ps, transform)) == Ids(ps)
  {
  }

  /** In an ascending batch the last id is the largest. */
  lemma LastIsMaxWhenAscending(ps: seq<Point>)
    requires Ascending(ps)
    ensures forall p :: p in ps ==> p.objectId <= LastOr0(Ids(ps))
  {
  }

  /**
   * Loading SDE.RAIL_LINES fails as a whole when any row's OBJECTID does
   * not fit `GetInt16` or its SHAPE does not parse: no row is skipped.
   */
  lemma BadRailRowFailsLoad<G>(rows: seq<RailRow>, parse: string -> Option<G>, failAt: Option<nat>, j: nat)
    requires j < |rows|
    requires !IsInt16(rows[j].objectId) || parse(rows[j].shapeWkt).None?
    ensures LoadRails(rows, parse, failAt) == None
  {
    var ok := RailFlags(rows, parse);
    assert !ok[j];
  }

  /** With no fault and every row readable, every rail line is loaded, in table order. */
  lemma RailLoadKeepsRows<G>(rows: seq<RailRow>, parse: string -> Option<G>)
    requires forall j :: 0 <= j < |rows| ==> IsInt16(rows[j].objectId) && parse(rows[j].shapeWkt).Some?
    ensures var r := LoadRails(rows, parse, None);
            r.Some? && |r.value| == |rows| &&
            forall j :: 0 <= j < |rows| ==> r.value[j] == RailLine(rows[j].objectId, parse(rows[j].shapeWkt).value)
  {
    var ok := RailFlags(rows, parse);
    assert forall j :: 0 <= j < |rows| ==> ok[j];
  }

  // ---------------------------------------------------------------------
  // One cycle

  /** Nothing is written when the cycle fails before the watermark UPDATE. */
  lemma NothingWrittenBeforeUpdate<G>(t: Tables, env: Env<G>, f: Faults)
    ensures var r := Run(t, env, f);
            r.outcome in {Failed(AtOpen), Failed(AtFetch), Failed(AtUpdate)} ==> r.after == t
  {
  }

  /**
   * Past the UPDATE every row of OBJECT_ID_STORE holds the OBJECT_ID of the
   * last fetched point, or 0 for an empty batch, whether the later steps
   * succeed or throw; the other input tables are untouched.
   */
  lemma WatermarkWrittenBeforeWork<G>(t: Tables, env: Env<G>, f: Faults)
    ensures var r := Run(t, env, f);
            var batch := Batch(t, f);
            r.outcome !in {Failed(AtOpen), Failed(AtFetch), Failed(AtUpdate)} ==>
              r.after.idStore == SetAll(t.idStore, LastOr0(Ids(batch))) &&
              (batch == [] ==> forall j :: 0 <= j < |r.after.idStore| ==> r.after.idStore[j] == 0) &&
              (batch != [] ==> forall j :: 0 <= j < |r.after.idStore| ==> r.after.idStore[j] == batch[|batch| - 1].objectId) &&
              r.after.gpsData == t.gpsData && r.after.railLines == t.railLines
  {
  }

  /**
   * The watermark a cycle leaves depends only on what happens up to the
   * UPDATE: not on the transform, the rail lines, the distances, or on
   * failures in the steps after it, which roll nothing back.
   */
  lemma WatermarkIgnoresLaterSteps<G>(t: Tables, env1: Env<G>, env2: Env<G>, f1: Faults, f2: Faults)
    requires f1.openFails == f2.openFails && f1.storeRead == f2.storeRead
    requires f1.fetch == f2.fetch && f1.updateFails == f2.updateFails
    ensures Run(t, env1, f1).after.idStore == Run(t, env2, f2).after.idStore
  {
  }

  /** RAIL_LINE_DATA only grows: a cycle appends rows and never rewrites earlier ones. */
  lemma MatchLogAppendOnly<G>(t: Tables, env: Env<G>, f: Faults)
    ensures t.railLineData <= Run(t, env, f).after.railLineData
  {
  }

  /**
   * A completed cycle appends exactly one row per (point, line) pair
   * within 3.0 metres, in point-major then line-major order, and its
   * counter is the number of rows appended.
   */
  lemma CompletedCycleInserts<G>(t: Tables, env: Env<G>, f: Faults)
    requires Run(t, env, f).outcome.Completed?
    ensures var r := Run(t, env, f);
            var itm := ToItm(Batch(t, f), env.transform);
            var lines := LoadRails(t.railLines, env.parse, f.railRead);
            lines.Some? &&
            var hits := Hits(itm, lines.value, env.distance, |itm|);
            r.after.railLineData == t.railLineData + AllMatchRows(itm, lines.value, env) &&
            r.outcome.counter == |hits| == |r.after.railLineData| - |t.railLineData| &&
            (forall h :: h in hits <==> h.point < |itm| && h.line < |lines.value| && Within(itm[h.point], lines.value[h.line], env.distance)) &&
            (forall a, b :: 0 <= a < b < |hits| ==> Before(hits[a], hits[b]))
  {
    var itm := ToItm(Batch(t, f), env.transform);
    var lines := LoadRails(t.railLines, env.parse, f.railRead);
    HitsExact(itm, lines.value, env.distance, |itm|);
  }

  /**
   * The k-th insert throwing ends the cycle with the first k rows stored
   * and the watermark already overwritten.
   */
  lemma InsertFailureKeepsEarlierRows<G>(t: Tables, env: Env<G>, f: Faults)
    requires Run(t, env, f).outcome == Failed(AtInsert)
    ensures var r := Run(t, env, f);
            var itm := ToItm(Batch(t, f), env.transform);
            var lines := LoadRails(t.railLines, env.parse, f.railRead);
            lines.Some? && f.insert.Some? &&
            var rows := AllMatchRows(itm, lines.value, env);
            f.insert.value < |rows| &&
            r.after.railLineData == t.railLineData + rows[..f.insert.value] &&
            r.after.idStore == SetAll(t.idStore, LastOr0(Ids(Batch(t, f))))
  {
  }

  /**
   * One malformed rail-line WKT (or an OBJECTID beyond Int16) is not
   * skipped: the cycle ends in the outer catch with no row inserted for
   * any point, after the watermark was overwritten.
   */
  lemma MalformedRailLineAbortsMatching<G>(t: Tables, env: Env<G>, f: Faults, j: nat)
    requires !f.openFails && !f.updateFails
    requires ReadsAll(PointFlags(Batch(t, f)), f.fetch)
    requires j < |t.railLines|
    requires !IsInt16(t.railLines[j].objectId) || env.parse(t.railLines[j].shapeWkt).None?
    ensures var r := Run(t, env, f);
            r.outcome == Failed(AtRailLoad) &&
            r.after.railLineData == t.railLineData &&
            r.after.idStore == SetAll(t.idStore, LastOr0(Ids(Batch(t, f))))
  {
    BadRailRowFailsLoad(t.railLines, env.parse, f.railRead, j);
  }

  /**
   * A cycle that fetches nothing writes 0 into every row of
   * OBJECT_ID_STORE and inserts nothing, whatever the rail lines hold.
   */
  lemma EmptyBatchWritesZero<G>(t: Tables, env: Env<G>, f: Faults)
    requires !f.openFails && !f.updateFails && Batch(t, f) == [] && f.fetch != Some(0)
    ensures var r := Run(t, env, f);
            r.after.idStore == SetAll(t.idStore, 0) &&
            r.after.railLineData == t.railLineData &&
            r.outcome in {Completed(0), Failed(AtRailLoad)}
  {
    var itm := ToItm(Batch(t, f), env.transform);
    assert itm == [];
  }

  /**
   * A reader that throws on its final `Read()` (or in `ExecuteReader`, when
   * the query returns no row) fails the cycle before the UPDATE, even though
   * every row was already delivered.
   */
  lemma FinalReadFailureKeepsTables<G>(t: Tables, env: Env<G>, f: Faults)
    requires !f.openFails && f.fetch == Some(|Batch(t, f)|)
    ensures Run(t, env, f) == CycleResult(t, Failed(AtFetch))
  {
    assert !ReadsAll(PointFlags(Batch(t, f)), f.fetch);
  }

  // ---------------------------------------------------------------------
  // Consecutive cycles

  /** The watermark one cycle writes is what the next cycle's read returns. */
  lemma {:induction false} NextCycleReadsWrittenWatermark(store: seq<int>, v: int)
    requires store != [] && IsInt32(v)
    ensures LastId(SetAll(store, v), None) == v
  {
    var s := SetAll(store, v);
    WatermarkReadsLastRow(s);
  }

  /**
   * With an empty OBJECT_ID_STORE nothing is ever written back, so every
   * cycle reads 0 and fetches the whole of GPS_DATA above 0 again.
   */
  lemma EmptyStoreAlwaysRefetches<G>(t: Tables, env: Env<G>, f: Faults)
    requires t.idStore == [] && !f.openFails
    ensures Batch(t, f) == Above(t.gpsData, 0)
    ensures Run(t, env, f).after.idStore == []
  {
  }

  /** The batch a cycle fetched is delivered whole, so its ids fit Int32. */
  lemma FetchedIdsFitInt32(batch: seq<Point>, failAt: Option<nat>)
    requires ReadsAll(PointFlags(batch), failAt)
    ensures forall j :: 0 <= j < |batch| ==> IsInt32(batch[j].objectId)
    ensures IsInt32(LastOr0(Ids(batch)))
  {
    var ok := PointFlags(batch);
    assert forall j :: 0 <= j < |batch| ==> ok[j] && ok[j] == IsInt32(batch[j].objectId);
  }

  /** A batch whose ids all fit Int32 is delivered whole when its reader does not fail. */
  lemma FetchedIdsFitInt32Converse(batch: seq<Point>, failAt: Option<nat>)
    requires forall j :: 0 <= j < |batch| ==> IsInt32(batch[j].objectId)
    requires failAt.None? || failAt.value > |batch|
    ensures ReadsAll(PointFlags(batch), failAt)
  {
    var ok := PointFlags(batch);
    assert forall j :: 0 <= j < |batch| ==> ok[j];
  }

  /**
   * After a cycle that fetched nothing, the next cycle reads watermark 0
   * and fetches again every point with a positive OBJECT_ID, including
   * those already processed: the watermark moves backwards.
   */
  lemma EmptyCycleRewinds<G>(t: Tables, env: Env<G>, f: Faults)
    requires t.idStore != [] && !f.openFails && !f.updateFails
    requires Batch(t, f) == [] && f.fetch != Some(0)
    ensures var next := Run(t, env, f).after;
            LastId(next.idStore, None) == 0 &&
            Batch(next, NoFaults) == Above(t.gpsData, 0)
  {
    EmptyBatchWritesZero(t, env, f);
    NextCycleReadsWrittenWatermark(t.idStore, 0);
  }

  /**
   * Over ascending ids, fetching above the last id of a batch returns
   * nothing from that batch.
   */
  lemma AscendingFetchesAreDisjoint(rows: seq<Point>, lastid: int)
    requires Ascending(rows)
    ensures var batch := Above(rows, lastid);
            forall p :: p in Above(rows, LastOr0(Ids(batch))) ==> p !in batch
  {
    var batch := Above(rows, lastid);
    FetchKeepsAscending(rows, lastid);
    LastIsMaxWhenAscending(batch);
    FetchedAboveWatermark(rows, LastOr0(Ids(batch)));
  }

  /**
   * When GPS_DATA's reader returns ids in ascending order, the next cycle
   * fetches none of the points this cycle fetched.
   */
  lemma AscendingIdsNoRefetch<G>(t: Tables, env: Env<G>, f: Faults)
    requires t.idStore != [] && !f.openFails && !f.updateFails
    requires ReadsAll(PointFlags(Batch(t, f)), f.fetch)
    requires Batch(t, f) != []
    requires Ascending(t.gpsData)
    ensures var next := Run(t, env, f).after;
            forall p :: p in Batch(next, NoFaults) ==> p !in Batch(t, f)
  {
    var batch := Batch(t, f);
    var v := LastOr0(Ids(batch));
    FetchedIdsFitInt32(batch, f.fetch);
    WatermarkWrittenBeforeWork(t, env, f);
    var next := Run(t, env, f).after;
    assert next.idStore == SetAll(t.idStore, v) && next.gpsData == t.gpsData;
    NextCycleReadsWrittenWatermark(t.idStore, v);
    assert Batch(next, NoFaults) == Above(t.gpsData, v);
    assert batch == Above(t.gpsData, LastId(t.idStore, f.storeRead));
    AscendingFetchesAreDisjoint(t.gpsData, LastId(t.idStore, f.storeRead));
    assert forall p :: p in Above(t.gpsData, v) ==> p !in batch;
  }
}
