# GPS-GeoProcessing-Service: one processing cycle, in Dafny

This project models `DatabaseService.PerformDataBaseOperations`, the one
processing cycle of the service. The cycle does the following, in order:

1. Reads a watermark (`lastid`) from OBJECT_ID_STORE.
2. Fetches the GPS_DATA rows whose OBJECT_ID lies above that watermark.
3. Overwrites the watermark with the OBJECT_ID of the last fetched row, or 0 when no row came back.
4. Projects every fetched point from WGS84 to the Israeli grid (ITM).
5. Loads every rail line of SDE.RAIL_LINES, parsing its WKT shape.
6. For every (point, rail line) pair within 3.0 metres, inserts one row `(OBJECTID, RAIL_LINE_ID, TIMESTAMP)` into RAIL_LINE_DATA, counting the inserts.

Any exception after the connection opens ends the cycle in the outer catch. There is no rollback. Only an exception during the watermark read is swallowed.

Layout:

- `models.dfy` (module `Models`) holds the records:
  - `Point` (`Models.Point`) and `RailRow`;
  - `RailLine` (`Models.RailLine`) and `MatchRow`;
  - the four tables as `Tables`;
  - the foreign code as `Env`: the ProjNet transform, the NetTopologySuite WKT reader and distance, and the wall clock;
  - the places where the database throws, as `Faults`;
  - how a cycle ends, as `Outcome`.
- `cycle.dfy` (module `Cycle`) holds the specification functions, one per block of the cycle. `Run` is the whole cycle.
- `database_service.dfy` (module `Services`) holds two classes:
  - `Database` holds the tables as `seq` fields.
  - `DatabaseService` has one method per block, each with the loops of the C# code. Each method is proved equal to its specification function. `PerformDataBaseOperations` is proved equal to `Run`.
- `properties.dfy` (module `Properties`) holds lemmas about single cycles and consecutive cycles.
- `scenarios.dfy` (module `Scenarios`) holds concrete cycles.

How exceptions are modelled:

- Faults that come from the database itself are listed in a `Faults` value:
  - the connection fails to open;
  - the reader fails at row k, where k equal to the number of rows means the final `Read()` (or `ExecuteReader`, for an empty result) throws;
  - the UPDATE fails;
  - the k-th INSERT fails.
- Faults that come from the data follow from the rows:
  - `GetInt32` fails on an id outside Int32;
  - `GetInt16` fails on a rail OBJECTID outside Int16;
  - the WKT reader fails on malformed text.
- The first fault reached ends the cycle, as in the C# code.

The model follows the code as written, including behaviour that looks unintended:

- The new watermark is the OBJECT_ID of the last row returned, not the largest id. An empty batch writes 0 rather than leaving the watermark unchanged.
- A malformed rail-line WKT aborts the cycle. It is not skipped record by record.
- The transform is not fail-soft per point. A failed INSERT ends the cycle; the remaining inserts are not attempted.
- The watermark is therefore not monotonic. `EmptyCycleRewinds` proves that a cycle after an empty one fetches every processed point again. `EmptyCycleDuplicatesMatch` shows the same match row inserted twice over three cycles. `OutOfOrderRowsRefetch` shows a point fetched twice when rows come back out of order.

## Model

| member | source | states |
|---|---|---|
| `Cycle.Delivered` | Services/DatabaseService.cs:49-53 | a data reader delivers exactly the rows before the first row that throws (a failing getter or a failing read), or every row |
| `Cycle.LineHitsExact` | Services/DatabaseService.cs:148-169 | for one point, the inner loop hits exactly the lines at distance `<= 3.0`, each once, in line order |
| `Cycle.HitsExact` | Services/DatabaseService.cs:143-170 | the nested loops hit exactly the (point, line) pairs within 3.0, each once, in point-major then line-major order |
| `Services.DatabaseService.constructor` | Services/DatabaseService.cs:19-22 | the service is bound to the schema its connection reaches |
| `Services.DatabaseService.ReadLastId` | Services/DatabaseService.cs:38-59 | `lastid` is column 0 of the last row read from OBJECT_ID_STORE or 0; a read exception is swallowed, keeping the value of the rows before it |
| `Services.DatabaseService.FetchPoints` | Services/DatabaseService.cs:61-77 | `wgsPoints` is the GPS_DATA rows above `lastid` in reader order, or an exception when `ExecuteReader`, any `Read()` including the final one, or `GetInt32` fails |
| `Services.DatabaseService.TransformPoints` | Services/DatabaseService.cs:111-121 | `itmPoints` is every fetched point through the transform, in order, keeping its OBJECT_ID |
| `Services.DatabaseService.LoadRailLines` | Services/DatabaseService.cs:123-139 | `RailLineShapes` is every rail row with its parsed shape in table order, or an exception on any read (the final `Read()` included), `GetInt16` or WKT failure |
| `Services.DatabaseService.InsertMatches` | Services/DatabaseService.cs:142-170 | RAIL_LINE_DATA gains exactly the rows of the within-threshold pairs, in loop order, stamped by the clock; `counter` is their number; a failing INSERT leaves the rows before it |
| `Services.DatabaseService.PerformDataBaseOperations` | Services/DatabaseService.cs:24-183 | the tables after a cycle and its outcome are those of `Run`, for every fault plan |
| `Properties.AboveAppend` | Services/DatabaseService.cs:63-77 | the fetch keeps the reader's order: filtering a concatenation filters each part |
| `Properties.FetchStopsAt` | Services/DatabaseService.cs:67-77 | a reader failure on a row that passes the filter means fewer rows are delivered than the query returns |
| `Properties.WatermarkReadsLastRow` | Services/DatabaseService.cs:42-53 | with every row readable, `lastid` is the last row of OBJECT_ID_STORE, or 0 when it is empty |
| `Properties.WatermarkReadErrorSwallowed` | Services/DatabaseService.cs:39-59 | a failure at row k leaves `lastid` as the last of the first k rows, and 0 when k is 0 |
| `Properties.FetchedAboveWatermark` | Services/DatabaseService.cs:63-77 | a point is fetched if and only if it is in GPS_DATA with OBJECT_ID above `lastid` |
| `Properties.FetchKeepsBound` | Services/DatabaseService.cs:63-77 | an upper bound on every id of GPS_DATA bounds every fetched id |
| `Properties.FetchKeepsAscending` | Services/DatabaseService.cs:63-77 | ascending ids in reader order stay ascending in `wgsPoints` |
| `Properties.ProjectionKeepsIds` | Services/DatabaseService.cs:112-121 | `itmPoints` has the OBJECT_IDs of `wgsPoints`, position by position |
| `Properties.LastIsMaxWhenAscending` | Services/DatabaseService.cs:80-85 | in an ascending batch the last OBJECT_ID is the largest one |
| `Properties.BadRailRowFailsLoad` | Services/DatabaseService.cs:128-139 | one rail row with a malformed WKT or an OBJECTID outside Int16 makes the whole load fail |
| `Properties.RailLoadKeepsRows` | Services/DatabaseService.cs:124-139 | with every row readable and no fault, every rail line is loaded in table order with its parsed shape |
| `Properties.NothingWrittenBeforeUpdate` | Services/DatabaseService.cs:29-100 | a cycle that fails before or at the UPDATE leaves every table unchanged |
| `Properties.WatermarkWrittenBeforeWork` | Services/DatabaseService.cs:80-100 | past the UPDATE, every watermark row holds the last fetched OBJECT_ID, or 0 for an empty batch, whatever happens later |
| `Properties.WatermarkIgnoresLaterSteps` | Services/DatabaseService.cs:92-180 | the watermark a cycle leaves does not depend on the transform, the rail lines, distances or later faults: there is no rollback |
| `Properties.MatchLogAppendOnly` | Services/DatabaseService.cs:142-170 | RAIL_LINE_DATA after a cycle extends RAIL_LINE_DATA before it |
| `Properties.CompletedCycleInserts` | Services/DatabaseService.cs:142-172 | a completed cycle appends one row per within-threshold pair in point-major, line-major order, and `counter` equals the number appended |
| `Properties.InsertFailureKeepsEarlierRows` | Services/DatabaseService.cs:152-180 | when the k-th INSERT throws, the first k rows stay and the watermark stays overwritten |
| `Properties.MalformedRailLineAbortsMatching` | Services/DatabaseService.cs:128-180 | one malformed rail-line WKT ends the cycle with no match inserted, after the watermark was overwritten |
| `Properties.EmptyBatchWritesZero` | Services/DatabaseService.cs:80-100 | a cycle whose GPS_DATA query returns nothing without throwing writes 0 into every watermark row and inserts nothing |
| `Properties.FinalReadFailureKeepsTables` | Services/DatabaseService.cs:66-77 | a GPS_DATA reader that throws on its final `Read()`, or in `ExecuteReader` on an empty result, fails the cycle before the UPDATE with every table unchanged |
| `Properties.NextCycleReadsWrittenWatermark` | Services/DatabaseService.cs:42-100 | the next cycle reads back the value the UPDATE wrote |
| `Properties.EmptyStoreAlwaysRefetches` | Services/DatabaseService.cs:38-100 | with an empty OBJECT_ID_STORE every cycle reads 0 and fetches all of GPS_DATA above 0 |
| `Properties.FetchedIdsFitInt32` | Services/DatabaseService.cs:69-71 | a batch delivered whole has Int32 ids only |
| `Properties.FetchedIdsFitInt32Converse` | Services/DatabaseService.cs:69-71 | a batch of Int32 ids is delivered whole when the reader fails neither on a row nor on its final `Read()` |
| `Properties.EmptyCycleRewinds` | Services/DatabaseService.cs:38-100 | after an empty cycle the next one reads watermark 0 and fetches already processed points again |
| `Properties.AscendingFetchesAreDisjoint` | Services/DatabaseService.cs:63-85 | over ascending ids, fetching above the last id of a batch returns nothing from that batch |
| `Properties.AscendingIdsNoRefetch` | Services/DatabaseService.cs:38-100 | when GPS_DATA returns ids in ascending order, the next cycle fetches none of this cycle's points |
| `Scenarios.EndToEnd` | Services/DatabaseService.cs:24-183 | watermark 0, points 1 and 2, one line 2 m from point 2 and 150 m from point 1: one row for point 2, watermark 2 |
| `Scenarios.OnePointOneLineRows` | Services/DatabaseService.cs:143-170 | a fault-free cycle over one point and one line inserts exactly the rows of that pair's hits |
| `Scenarios.ExactlyThresholdMatches` | Services/DatabaseService.cs:150-152 | a distance of exactly 3.0 matches |
| `Scenarios.JustBeyondThresholdMisses` | Services/DatabaseService.cs:150-152 | a distance of 3.0001 does not match |
| `Scenarios.TwoLinesTwoRows` | Services/DatabaseService.cs:143-169 | a point near two lines yields two rows, in line order |
| `Scenarios.EmptyCycleDuplicatesMatch` | Services/DatabaseService.cs:38-172 | three fault-free cycles over one point 1 m from one line write watermarks 5, 0, 5 and insert the same match row twice |
| `Scenarios.OutOfOrderRowsRefetch` | Services/DatabaseService.cs:63-100 | rows returned as ids 2, 1 leave watermark 1, not the maximum, and the next cycle fetches point 2 again |

## Left out

- Oracle connection, command and parameter handling, and SQL evaluation are not modelled. The tables are sequences. The `WHERE OBJECT_ID > :lastid` filter is the function `Above` over the rows in reader order.
- The ProjNet transform and its two WKT coordinate-system definitions are a function parameter (`Env.transform`). It is total: a transform exception is not modelled.
- NetTopologySuite's WKT reader and point-to-geometry distance are function parameters (`Env.parse`, which may fail, and `Env.distance`, a `real`). WKT syntax and the distance geometry are not modelled.
- `float`/`double` casts and their precision are not modelled. Coordinates are `real`s.
- Serilog logging and the `Stopwatch` are left out as side effects. Exceptions thrown by log calls are not modelled.
- `DateTime.Now` is `Env.clock(k)`, the clock reading at the k-th insert of the cycle.
- OBJECT_ID_STORE is taken to have GPS_DATA_ID as column 0, the column `SELECT *` returns first.
- A fault in the OBJECT_ID_STORE reader's final `Read()` is swallowed like any other read fault there. It leaves the same `lastid` as a clean end of rows, so the model does not distinguish the two.
- Worker.cs is not part of this model: it is the hosting loop with a 5-second delay and cancellation. Consecutive cycles are instead stated as lemmas over `Run`.
- Program.cs is not part of this model: it is host, dependency-injection and logger setup.
