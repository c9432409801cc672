/**
 * Concrete cycles: the end-to-end example of the service, the inclusive
 * 3.0-metre boundary, a point near two lines, and a GPS_DATA reader that
 * returns ids out of order.
 */
module Scenarios {
  import opened Wrappers
  import opened Models
  import opened Cycle
  import opened Properties

  /**
   * Foreign code for the examples: the projection keeps coordinates, every
   * WKT parses, and the distance to any line is `d(x)`; the k-th insert is
   * stamped 1000 + k.
   */
  function TestEnv(d: real -> real): Env<int>
  {
    Env((x: real, y: real) => (x, y), (s: string) => Some(0), (x: real, y: real, g: int) => d(x), (k: nat) => 1000 + k)
  }

  /**
   * Watermark 0, points 1 and 2, one rail line 2 m from point 2 and 150 m
   * from point 1: one row for point 2, and the watermark becomes 2.
   */
  lemma EndToEnd()
    ensures var p1, p2 := Point(1, 35.0, 32.0), Point(2, 35.2045169444444, 31.7343936111111);
            var t := Tables([0], [p1, p2], [RailRow(7, "LINESTRING (0 0, 10 0)")], []);
            var r := Run(t, TestEnv((x: real) => if x == 35.0 then 150.0 else 2.0), NoFaults);
            r.after.idStore == [2] &&
            r.after.railLineData == [MatchRow(2, 7, 1000)] &&
            r.outcome == Completed(1)
  {
    var p1, p2 := Point(1, 35.0, 32.0), Point(2, 35.2045169444444, 31.7343936111111);
    var t := Tables([0], [p1, p2], [RailRow(7, "LINESTRING (0 0, 10 0)")], []);
    var env := TestEnv((x: real) => if x == 35.0 then 150.0 else 2.0);
    assert LastId(t.idStore, None) == 0 by { WatermarkReadsLastRow(t.idStore); }
    assert [p1, p2][..1] == [p1] && [p1][..0] == [];
    assert Above([p1], 0) == [p1];
    assert Above([p1, p2], 0) == [p1, p2];
    var batch := Batch(t, NoFaults);
    assert batch == [p1, p2];
    FetchedIdsFitInt32Converse(batch, None);
    assert LastOr0(Ids(batch)) == 2;
    RailLoadKeepsRows(t.railLines, env.parse);
    var lines := LoadRails(t.railLines, env.parse, None).value;
    assert lines == [RailLine(7, 0)];
    var itm := ToItm(batch, env.transform);
    assert itm == [p1, p2];
    assert LineHits(itm, lines, env.distance, 0, 1) == [];
    assert LineHits(itm, lines, env.distance, 1, 1) == [Hit(1, 0)];
    assert Hits(itm, lines, env.distance, 1) == [];
    assert Hits(itm, lines, env.distance, 2) == [] + [Hit(1, 0)];
    assert AllMatchRows(itm, lines, env) == [MatchRow(2, 7, 1000)];
  }

  /** GPS_DATA holds one point above the watermark; SDE.RAIL_LINES holds one line. */
  function OnePointOneLine(): Tables
  {
    Tables([0], [Point(5, 0.0, 0.0)], [RailRow(9, "LINESTRING (0 3, 10 3)")], [])
  }

  /** The rows a fault-free cycle over OnePointOneLine inserts, as in the service. */
  lemma OnePointOneLineRows(d: real)
    ensures var t := OnePointOneLine();
            var env := TestEnv((x: real) => d);
            var r := Run(t, env, NoFaults);
            var itm := [Point(5, 0.0, 0.0)];
            var lines := [RailLine(9, 0)];
            r.after.railLineData == AllMatchRows(itm, lines, env) &&
            r.outcome == Completed(|AllMatchRows(itm, lines, env)|) &&
            Hits(itm, lines, env.distance, 1) == LineHits(itm, lines, env.distance, 0, 1)
  {
    var p := Point(5, 0.0, 0.0);
    var t := OnePointOneLine();
    var env := TestEnv((x: real) => d);
    WatermarkReadsLastRow(t.idStore);
    assert [p][..0] == [];
    var batch := Batch(t, NoFaults);
    assert batch == [p];
    FetchedIdsFitInt32Converse(batch, None);
    RailLoadKeepsRows(t.railLines, env.parse);
    var lines := LoadRails(t.railLines, env.parse, None).value;
    assert lines == [RailLine(9, 0)];
    var itm := ToItm(batch, env.transform);
    assert itm == [p];
    assert Hits(itm, lines, env.distance, 1) == [] + LineHits(itm, lines, env.distance, 0, 1);
  }

  /** A point exactly 3.0 m from a rail line matches: the comparison is inclusive. */
  lemma ExactlyThresholdMatches()
    ensures var r := Run(OnePointOneLine(), TestEnv((x: real) => 3.0), NoFaults);
            r.after.railLineData == [MatchRow(5, 9, 1000)] && r.outcome == Completed(1)
  {
    OnePointOneLineRows(3.0);
    var env := TestEnv((x: real) => 3.0);
    var itm, lines := [Point(5, 0.0, 0.0)], [RailLine(9, 0)];
    assert LineHits(itm, lines, env.distance, 0, 1) == [Hit(0, 0)];
    assert AllMatchRows(itm, lines, env) == [MatchRow(5, 9, 1000)];
  }

  /** A point 3.0001 m from a rail line does not match. */
  lemma JustBeyondThresholdMisses()
    ensures var r := Run(OnePointOneLine(), TestEnv((x: real) => 3.0001), NoFaults);
            r.after.railLineData == [] && r.outcome == Completed(0)
  {
    OnePointOneLineRows(3.0001);
    var env := TestEnv((x: real) => 3.0001);
    var itm, lines := [Point(5, 0.0, 0.0)], [RailLine(9, 0)];
    assert LineHits(itm, lines, env.distance, 0, 1) == [];
  }

  /**
   * A point within range of two rail lines yields two rows, in line order:
   * no nearest-line preference and no early exit.
   */
  lemma TwoLinesTwoRows()
    ensures var t := Tables([4], [Point(5, 0.0, 0.0)], [RailRow(9, "A"), RailRow(8, "B")], []);
            var r := Run(t, TestEnv((x: real) => 1.0), NoFaults);
            r.after.railLineData == [MatchRow(5, 9, 1000), MatchRow(5, 8, 1001)] &&
            r.outcome == Completed(2) && r.after.idStore == [5]
  {
    var p := Point(5, 0.0, 0.0);
    var t := Tables([4], [p], [RailRow(9, "A"), RailRow(8, "B")], []);
    var env := TestEnv((x: real) => 1.0);
    WatermarkReadsLastRow(t.idStore);
    assert [p][..0] == [];
    var batch := Batch(t, NoFaults);
    assert batch == [p];
    FetchedIdsFitInt32Converse(batch, None);
    RailLoadKeepsRows(t.railLines, env.parse);
    var lines := LoadRails(t.railLines, env.parse, None).value;
    assert lines == [RailLine(9, 0), RailLine(8, 0)];
    var itm := ToItm(batch, env.transform);
    assert itm == [p];
    assert LineHits(itm, lines, env.distance, 0, 1) == [Hit(0, 0)];
    assert LineHits(itm, lines, env.distance, 0, 2) == [Hit(0, 0), Hit(0, 1)];
    assert Hits(itm, lines, env.distance, 1) == [] + [Hit(0, 0), Hit(0, 1)];
    assert AllMatchRows(itm, lines, env) == [MatchRow(5, 9, 1000), MatchRow(5, 8, 1001)];
  }

  /**
   * GPS_DATA's reader returns id 2 before id 1: the watermark becomes 1,
   * not the largest id 2, and the next cycle fetches point 2 a second time.
   */
  lemma OutOfOrderRowsRefetch()
    ensures var p2, p1 := Point(2, 0.0, 0.0), Point(1, 0.0, 0.0);
            var t := Tables([0], [p2, p1], [], []);
            var next := Run(t, TestEnv((x: real) => 0.0), NoFaults).after;
            next.idStore == [1] && Batch(next, NoFaults) == [p2]
  {
    var p2, p1 := Point(2, 0.0, 0.0), Point(1, 0.0, 0.0);
    var t := Tables([0], [p2, p1], [], []);
    var env := TestEnv((x: real) => 0.0);
    WatermarkReadsLastRow(t.idStore);
    assert [p2, p1][..1] == [p2] && [p2][..0] == [];
    assert Above([p2], 0) == [p2];
    assert Above([p2, p1], 0) == [p2, p1];
    var batch := Batch(t, NoFaults);
    assert batch == [p2, p1];
    FetchedIdsFitInt32Converse(batch, None);
    assert LastOr0(Ids(batch)) == 1;
    RailLoadKeepsRows(t.railLines, env.parse);
    var next := Run(t, env, NoFaults).after;
    assert next.idStore == [1];
    WatermarkReadsLastRow(next.idStore);
    assert Above([p2], 1) == [p2];
    assert Above([p2, p1], 1) == [p2];
  }

  /**
   * Three fault-free cycles over one point 1 m from one line: the first
   * inserts the match and writes watermark 5, the second fetches nothing and
   * writes 0, and the third fetches the point again and inserts the same
   * row a second time.
   */
  lemma EmptyCycleDuplicatesMatch()
    ensures var env := TestEnv((x: real) => 1.0);
            var t1 := Run(OnePointOneLine(), env, NoFaults).after;
            var t2 := Run(t1, env, NoFaults).after;
            var t3 := Run(t2, env, NoFaults).after;
            t1.idStore == [5] && t2.idStore == [0] && t3.idStore == [5] &&
            t3.railLineData == [MatchRow(5, 9, 1000), MatchRow(5, 9, 1000)]
  {
    var p := Point(5, 0.0, 0.0);
    var env := TestEnv((x: real) => 1.0);
    var itm, lines := [p], [RailLine(9, 0)];
    OnePointOneLineRows(1.0);
    assert LineHits(itm, lines, env.distance, 0, 1) == [Hit(0, 0)];
    assert AllMatchRows(itm, lines, env) == [MatchRow(5, 9, 1000)];
    var t1 := Run(OnePointOneLine(), env, NoFaults).after;
    assert t1 == Tables([5], [p], OnePointOneLine().railLines, [MatchRow(5, 9, 1000)]);

    WatermarkReadsLastRow(t1.idStore);
    assert Above([p], 5) == Above([p][..0], 5);
    assert Batch(t1, NoFaults) == [];
    EmptyBatchWritesZero(t1, env, NoFaults);
    RailLoadKeepsRows(t1.railLines, env.parse);
    var t2 := Run(t1, env, NoFaults).after;
    assert t2 == t1.(idStore := [0]);

    WatermarkReadsLastRow(t2.idStore);
    assert [p][..0] == [];
    var batch := Batch(t2, NoFaults);
    assert batch == [p];
    FetchedIdsFitInt32Converse(batch, None);
    assert LoadRails(t2.railLines, env.parse, None).value == lines;
    assert ToItm(batch, env.transform) == itm;
    assert Hits(itm, lines, env.distance, 1) == [] + LineHits(itm, lines, env.distance, 0, 1);
  }
}
