# NYCU PDA Lab 4 — a Dafny model of the loaders, the route checker and the test-case generator

The repository solves a two-chip global-routing exercise. A placement file (`.gmp`) gives the
routing area, the gcell size, two chips and their bumps. A capacity file (`.gcl`) gives each
gcell's left and bottom edge capacity. A cost file (`.cst`) gives per-layer cell costs. A
route file (`.lg`) gives, net by net, `M1`/`M2` segments, vias and `.end`.

Four programs read or write these files, and each is modelled here:

- **The C++ evaluator** (`Evaluator` in `evaluator.dfy`). It reads all four files, builds a
  linked gcell grid, sorts the bumps and attaches each to its gcell. It then walks every
  route, checking direction, length and alignment, counting wirelength and vias, extending the
  net's gcell path and raising per-edge crossing counters, with an overflow whenever a counter
  is already at capacity. Its read loops are specified by folds over the lines:
  - `EvalPlacement` for the placement file;
  - `Loaders` for the capacity and cost files;
  - `EvalRoute` for the route file.
  The grid work lives in `Grid`; the edge counters and their excess live in `Edges`.
- **The C++ router's loaders** (`Router` class in `router.dfy`). They are modelled as written:
  - the first token of every line is taken as a command before the state is looked at;
  - `chip1Loaded` is never cleared;
  - bumps are placed against the routing-area corner;
  - the bump state is never left;
  - costs are extracted into an `int`, so a fractional row gives one integer and then zeros.
- **The Python visualizer's loaders** (`Visualizer` class in `visualizer.dfy`). It keeps a list of
  lines and pushes a `.`-line met in a bump or cost state back to its front. The folds
  (`VisPlacement`, `VisCosts`, `VisRoutes`) read such a line as a command at once. The class's
  loops re-read it, and their contracts prove the two agree.
- **The test-case generator** (`Generator`). This covers the distance from a point to a chip
  rectangle, the capacity, placement and cost files it writes, and their value bounds. The
  random draws are parameters constrained to their ranges.

`RoundTrip` connects the generator and the readers:
- the evaluator reads the generated capacity and placement files back exactly as drawn;
- the router shifts every capacity record by one token.

Modelling choices:
- **Input.** A file is a sequence of lines and a line a sequence of tokens (`Common.Token`:
  its text, and the integer the loader would parse from it). A blank or whitespace-only line
  is the empty token list.
- **Gcell pointers.** They become grid indices (`Grid.CellRef`).
- **Undefined behaviour.** Division by zero, an index outside `gcells`, or a null bump
  dereference sets `faulted`. From then on the folds change nothing, and the class methods
  promise only the `faulted` flag.
- **Python exceptions and `sys.exit`.** They set `failed` in the same way.
- **Missing fields.** A field missing from a C++ data line leaves a member target unchanged
  and a local target 0. The locals are indeterminate in the source; see Left out.

## Model

| member | source | states |
|---|---|---|
| `EvalPlacement.BlankLine` | src/evaluator.cpp:53-59 | a blank line in the bump state returns the loop to command state; in every other state it changes nothing at all |
| `EvalPlacement.ChipBlock` | src/evaluator.cpp:69-76 | `.c` flips `loadingChip1`: its data line sets chip1 when the flag was false and chip2 when it was true, corner = file offset + routing-area corner, size from the line |
| `EvalPlacement.LoadChip` | src/evaluator.cpp:97-104 | a chip data line: corner = offset (0 when missing) + routing-area corner, size read into the chip (kept when missing), bumps untouched |
| `EvalPlacement.BumpRows` | src/evaluator.cpp:106-118 | in the bump state each non-blank line appends one bump, in file order, to the chip `loadingChip1` selects, at its offset plus that chip's corner |
| `EvalPlacement.BumpBlock` | src/evaluator.cpp:106-118 | a `.b` block closed by a blank line appends all its bumps, in order, to the selected chip (offset + that chip's corner) and returns to command state |
| `EvalPlacement.BumpsOf` | src/evaluator.cpp:107-117 | one bump per line, the k-th built from line k |
| `Grid.PlaceCells` | src/evaluator.cpp:138-149 | a rows × cols grid; cell (x, y) is fresh (edge counts 0, no links) with lower-left `(x*gw + llx, y*gh + lly)` |
| `Grid.LinkNeighbours` | src/evaluator.cpp:150-174 | every cell's left/bottom/right/top link is null exactly when x = 0 / y = 0 / x = cols-1 / y = rows-1, and is the adjacent cell otherwise; nothing else of any cell changes |
| `Grid.LinksAreMutual` | src/evaluator.cpp:150-174 | in a linked grid every link points into the grid and links come in pairs (the right neighbour's left link points back, and so on) |
| `Grid.CellOfContains` | src/evaluator.cpp:185-188 | above and right of the routing-area corner, the cell `((px-llx)/gw, (py-lly)/gh)` is the one whose square contains the point |
| `Grid.CellOfLowerLeft` | src/evaluator.cpp:146-146 | mapping a cell's own lower-left corner back through the bump-to-cell division gives that cell |
| `Grid.SortBumps` | src/evaluator.cpp:177-182 | the bumps come out sorted non-decreasing by index and are a permutation of the bumps read |
| `Grid.LocateBumps` | src/evaluator.cpp:184-195 | every bump, in order, gets the gcell at `((px-llx)/gw, (py-lly)/gh)` |
| `Grid.LocatePermutation` | src/evaluator.cpp:177-195 | attaching cells after sorting keeps the permutation: permuted inputs give permuted located outputs |
| `Grid.AttachedAfterSort` | src/evaluator.cpp:177-195 | sorting then attaching leaves each chip's bumps sorted, a permutation of the bumps read, each attached to the in-grid cell `CellOf` gives for its position (truncating division, so a bump less than one gcell left of or below the corner gets column or row 0) |
| `Grid.FinishPlacement` | src/evaluator.cpp:134-195 | `ok` exactly when the grid build and bump mapping have no undefined behaviour; a zero gcell width is undefined only when some row is resized or some bump located by it; then the grid is `size.y/gcell.y` × `size.x/gcell.x` fresh linked cells at their corners (0 × 0 for a zero width) and both chips' bumps are sorted, permuted and attached to the in-grid cell `CellOf` gives (truncating division) |
| `Grid.ZeroWidthWithoutRows` | src/evaluator.cpp:134-137 | with a zero gcell width and no row, the placement faults exactly when there is a bump to locate |
| `Grid.ZeroWidthExample` | src/evaluator.cpp:134-137 | `.ra 0 0 100 5` with `.g 0 10` and no bump builds an empty grid without fault |
| `Loaders.RecordCell` | src/evaluator.cpp:233-233 | record k goes to row `k / cols`, column `k % cols`: `y*cols + x == k` with `0 <= x < cols` |
| `Loaders.WithCapacity` | src/evaluator.cpp:231-235 | the two fields become the cell's left and bottom capacity (stored as `unsigned int`), nothing else of the cell changes |
| `Loaders.CapacityRecord` | src/evaluator.cpp:230-238 | the k-th record sets exactly the left/bottom capacity of `gcells[k / cols][k % cols]`, every other cell is unchanged, and a record past the last cell is undefined behaviour |
| `Loaders.RecordCellIndex` | src/evaluator.cpp:233-233 | the cell of record k has row-major index k |
| `Loaders.RowMajorInjective` | src/evaluator.cpp:233-233 | two distinct cells have distinct row-major indices, so no record overwrites another |
| `Loaders.RecordsLoaded` | src/evaluator.cpp:216-242 | after n records, exactly the cells with row-major index below n hold their record's capacities and every other cell is as before |
| `Loaders.CapacityFile` | src/evaluator.cpp:216-242 | `.ec` followed by one record per cell loads every cell (y, x) from record `y*cols + x`, with no fault |
| `Loaders.CostAt` | src/evaluator.cpp:306-308 | the value the evaluator's `double` extraction leaves for column x: the token at that column, the line's last value once the line runs out, `Missing` if the line had none |
| `Loaders.DigitRunShape` | src/router.cpp:286-286 | `DigitRun` is the length of the run of digits at the front of a string: all of them digits, and the next character not one |
| `Loaders.IntPrefixShape` | src/router.cpp:286-286 | the integer an `int` extraction accepts ends on a digit and before any further digit; nothing is accepted from a string that starts with neither a sign nor a digit |
| `Loaders.Clamp` | src/router.cpp:286-286 | the value stored for an integer beyond the `int` range is in range, and an in-range integer is stored as it is |
| `Loaders.ReadInt` | src/router.cpp:286-286 | an extraction succeeds exactly when the text starts with an in-range integer, and stops right after it |
| `Loaders.Extract` | src/router.cpp:286-286 | a failed stream changes nothing; a good stream holds an in-range value; `cost` changes only on a good stream |
| `Loaders.ExtractWhole` | src/router.cpp:286-286 | an extraction from the start of a whole-integer token reads the whole token and keeps the stream good |
| `Loaders.IntegerRowStream` | src/router.cpp:284-291 | on a row of whole integers, the n-th extraction (for column n - 1) reads exactly token n and leaves the stream good |
| `Loaders.IntegerRowPastEnd` | src/router.cpp:284-291 | past the last token of such a row the stream fails and `cost` keeps the last value |
| `Loaders.IntegerRowCosts` | src/router.cpp:284-291 | on a row of whole integers, column x gets the token at x + 1, and every column past the line's end the last token |
| `Loaders.WrittenIntReadsWhole` | src/router.cpp:286-286 | an integer written as `NatToString` is a token the `int` extraction reads whole, as its own value |
| `Loaders.DigitsReadWhole` | src/router.cpp:286-286 | a non-empty string of digits is read whole, as its decimal value |
| `Loaders.PointStops` | src/router.cpp:284-291 | on a row whose second token is an integer followed by `.`, the first extraction stops at the `.` and the second fails there, storing 0 |
| `Loaders.PointStaysFailed` | src/router.cpp:284-291 | once an extraction has failed at the `.`, every later one leaves the stream as it is |
| `Loaders.FractionalRowCosts` | src/router.cpp:284-291 | on such a row, column 0 gets the integer part of the second token and every later column 0 |
| `Loaders.FractionalRowExample` | src/router.cpp:284-291 | the layer line `12.50 47.20 3.10` gives the cells 47, 0 and 0 |
| `Loaders.CostRow` | src/evaluator.cpp:307-320 | a layer line sets every cell of the current row on the current layer (M1 for layer 0, M2 otherwise) to the value read for its column |
| `Loaders.FillCostRow` | src/evaluator.cpp:307-320 | the evaluator's column loop computes exactly `CostRow` with the evaluator's reader |
| `Loaders.FillIntCostRow` | src/router.cpp:284-291 | the router's column loop computes exactly `CostRow` with the router's `int` reader |
| `Loaders.RowStaysInRange` | src/evaluator.cpp:321-328 | the row counter stays below the number of rows, is 0 outside a layer block, the grid keeps its height and a non-empty grid never faults |
| `Loaders.LayerRows` | src/evaluator.cpp:305-330 | after n < rows lines of a block, rows below n hold their line's costs, the rest are untouched, and the counter is n |
| `Loaders.LayerBlock` | src/evaluator.cpp:305-330 | a `.l` block of exactly `rows` lines fills row y from line y on the current layer, then the row counter wraps to 0, the layer advances and the loop is back in command state |
| `Loaders.GclKeepsCounts` | src/evaluator.cpp:216-242 | the capacity loader leaves every edge counter as it was |
| `Loaders.CstKeepsCounts` | src/evaluator.cpp:267-333 | the cost loader leaves every edge counter as it was |
| `Edges.ForwardSteps` | src/evaluator.cpp:445-455 | going up (right), cells `y1g+1 .. y2g` are entered in order, each crossing its own bottom (left) edge |
| `Edges.BackwardSteps` | src/evaluator.cpp:457-467 | going down (left), cells `y1g-1 .. y2g` are entered in order, each crossing the bottom (left) edge of cell y+1 (x+1) that it leaves |
| `Edges.Crossed` | src/evaluator.cpp:454-454 | a crossing raises exactly that layer's counter of the cell by one |
| `Edges.CrossedExcess` | src/evaluator.cpp:450-454 | a crossing adds one to the cell's excess exactly when its counter was already at capacity |
| `Edges.TakeEffect` | src/evaluator.cpp:445-455 | one step appends exactly the entered cell to the path, raises exactly one counter by one, changes no other cell, and counts an overflow exactly when that counter was full |
| `Edges.WalkBalance` | src/evaluator.cpp:443-468 | the overflow a walk counts equals the excess it adds to the grid |
| `Edges.WalkPath` | src/evaluator.cpp:443-468 | a walk that stays in the grid appends the entered cells, in order |
| `Edges.GridExcessUpdate` | inc/gcell.h:54-57 | replacing one cell changes the grid's total excess by exactly that cell's change |
| `Edges.UncrossedHasNoExcess` | inc/gcell.h:56-57 | with every counter at its initial 0 the grid has no excess |
| `EvalRoute.FirstWithIdx` | src/evaluator.cpp:387-398 | the first bump with the net's index, or none when no bump has it |
| `EvalRoute.RecordErrorsM1` | src/evaluator.cpp:415-432 | an M1 record logs "horizontal" iff `x2 != x1`, "zero length" iff `y2 == y1`, "misaligned" iff an end is off the gcell corners, the start mismatch iff it is the net's first segment and starts off the bump; no M2 error |
| `EvalRoute.RecordErrorsM2` | src/evaluator.cpp:477-494 | an M2 record logs "vertical" iff `y2 != y1`, "zero length" iff `x2 == x1`, "misaligned" iff off the corners, the start mismatch as for M1; no M1 error |
| `EvalRoute.SegmentChecks` | src/evaluator.cpp:408-531 | a segment record appends exactly its checks' errors and clears the start check and the via flag, setting `lastM1` to its layer; errors are never fatal |
| `EvalRoute.SegmentTotals` | src/evaluator.cpp:433-530 | a segment adds `|y2-y1|` (M1) or `|x2-x1|` (M2) to the net's wirelength, appends the cells it enters to the path, counts as overflow exactly the excess it adds, and leaves the via count and the other nets unchanged |
| `EvalRoute.ViaCount` | src/evaluator.cpp:532-559 | a via adds one to the net's via count and changes nothing else but the via flag |
| `EvalRoute.EndChecks` | src/evaluator.cpp:560-574 | `.end` logs the end-point mismatch iff the path's last gcell is not at the chip2 bump, "last routing is not M1" iff `passVia == lastM1`, and returns to reading headers |
| `EvalRoute.HeaderOpensNet` | src/evaluator.cpp:372-402 | a header pushes a net with zero counters whose path is the gcell of the first chip1 bump with that index; no such bump is the null dereference `startBump->gcell`, and a bump without a gcell (never left by a completed placement) is treated as undefined behaviour here |
| `EvalRoute.StepBalance` | src/evaluator.cpp:369-579 | every line keeps the invariant: the grid's excess grows exactly by the overflow the nets count |
| `EvalRoute.RunBalance` | src/evaluator.cpp:369-579 | the same over the whole route file |
| `EvalRoute.OverflowIsExcess` | src/evaluator.cpp:443-530 | since counters start at 0, the overflow summed over all nets equals the sum over every edge of `max(0, count - capacity)` |
| `EvalRoute.FaultedRun` | src/evaluator.cpp:399-399 | after undefined behaviour later lines change nothing in the model |
| `Evaluator.FindBump` | src/evaluator.cpp:387-392 | the linear search returns the first bump with the index, or none exactly when no bump has it |
| `Evaluator.FreshIsUncrossed` | inc/gcell.h:56-57 | a freshly built grid has every edge counter at 0 |
| `Evaluator.Evaluator.constructor` | src/evaluator.cpp:13-14 | an evaluator starts with zero placement, empty chips, no grid, no nets, no errors |
| `Evaluator.Evaluator.LoadGridMap` | src/evaluator.cpp:31-196 | the read loop computes exactly the `EvalPlacement` fold; then the grid is fresh, linked and `size/gcell` in each dimension, each chip's bumps are sorted, permuted and attached, or `faulted` is set exactly when that work is undefined (a zero gcell width only when a row or a bump divides by it) |
| `Evaluator.Evaluator.PlacementStep` | src/evaluator.cpp:54-131 | one line of the read loop changes the placement fields and the state exactly as the `EvalPlacement` step does, blank lines included |
| `Evaluator.Evaluator.ReadPlacement` | src/evaluator.cpp:53-132 | after the read loop the placement fields and the state are those of the `EvalPlacement` fold over the whole file |
| `Evaluator.Evaluator.LoadGCells` | src/evaluator.cpp:198-243 | the loop computes exactly the capacity fold: fault flag, then the grid |
| `Evaluator.Evaluator.LoadCost` | src/evaluator.cpp:245-350 | the loop computes exactly the cost fold; an empty grid is undefined behaviour |
| `Evaluator.Evaluator.CrossEdge` | src/evaluator.cpp:450-454 | reports whether the edge was full and raises exactly its counter |
| `Evaluator.Evaluator.WalkForward` | src/evaluator.cpp:445-455 | the upward (rightward) loop computes exactly the walk over `ForwardSteps` |
| `Evaluator.Evaluator.WalkBackward` | src/evaluator.cpp:457-467 | the downward (leftward) loop computes exactly the walk over `BackwardSteps` |
| `Evaluator.Evaluator.OpenNet` | src/evaluator.cpp:372-402 | a header line does exactly what `EvalRoute.Header` specifies |
| `Evaluator.Evaluator.LogSegmentChecks` | src/evaluator.cpp:415-432 | appends exactly the record's errors |
| `Evaluator.Evaluator.LogLayerChecks` | src/evaluator.cpp:421-432 | appends exactly the segment's own check errors |
| `Evaluator.Evaluator.WalkSegment` | src/evaluator.cpp:443-468 | picks the walk direction as the source does and computes exactly that walk |
| `Evaluator.Evaluator.RouteSegment` | src/evaluator.cpp:408-531 | an `M1`/`M2` record does exactly what `EvalRoute.Segment` specifies |
| `Evaluator.Evaluator.RoutePoints` | src/evaluator.cpp:411-531 | a segment between two parsed end points logs its checks, faults on a start outside the grid or a walk off it, and otherwise updates the grid and the current net exactly as `EvalRoute.SegmentFrom` specifies |
| `Evaluator.Evaluator.ViaRecord` | src/evaluator.cpp:532-559 | a via record does exactly what `EvalRoute.Via` specifies |
| `Evaluator.Evaluator.EndNet` | src/evaluator.cpp:560-574 | `.end` does exactly what `EvalRoute.End` specifies |
| `Evaluator.Evaluator.LoadLG` | src/evaluator.cpp:352-580 | the nested read loop computes exactly the `EvalRoute` fold: grid, nets and errors, or the fault |
| `Evaluator.Evaluator.PrintTotals` | src/evaluator.cpp:582-594 | the "Total" row's wirelength, overflow and via count are the sums over the nets |
| `Evaluator.Evaluate` | main.cpp:14-19 | loads the four files in order and totals the nets; without undefined behaviour the total overflow equals the grid's total edge excess |
| `Router.LoadChip` | src/router.cpp:83-91 | a chip line read from its second token: corner = tokens 1, 2 + routing-area corner, size = tokens 3, 4 |
| `Router.AreaLineShifted` | src/router.cpp:46-49 | a routing-area line `x y w h` sets the corner to `(y, w)` and the width to `h`, and keeps the old height |
| `Router.Chip1LoadedSticks` | src/router.cpp:56-62 | once set, `chip1Loaded` is never cleared |
| `Router.ChipCommand` | src/router.cpp:56-62 | the first `.c` selects chip1 and sets the flag; every later `.c` selects chip2 |
| `Router.BumpStateAbsorbs` | src/router.cpp:92-104 | nothing leaves the bump state; the routing-area corner and the flag are unchanged |
| `Router.BumpToChip2` | src/router.cpp:92-104 | with the flag set, a bump line goes to chip2, at its offset plus the routing-area corner, and chip1 is untouched |
| `Router.BumpsOfChip1Misrouted` | src/router.cpp:92-104 | for `.c` / chip line / `.b` / bump line the router gives chip1 no bump and chip2 one, where the evaluator gives the bump to chip1 |
| `Router.Router.constructor` | src/router.cpp:8-9 | a router starts with zero placement, empty chips, no grid, no fault |
| `Router.Router.LoadGridMap` | src/router.cpp:23-177 | the read loop computes exactly the router's fold; then the same grid build, link, sort and attach as the evaluator, or `faulted` exactly when that is undefined (a zero gcell width only when a row or a bump divides by it) |
| `Router.Router.PlacementStep` | src/router.cpp:46-115 | one line of the router's read loop does exactly the router's step, its fields read one token late |
| `Router.Router.ReadPlacement` | src/router.cpp:45-116 | after the read loop the placement fields and the state are those of the router's fold over the whole file |
| `Router.Router.LoadGCells` | src/router.cpp:179-224 | the capacity fold with fields read from the second token |
| `Router.Router.LoadCost` | src/router.cpp:226-307 | the cost fold with the router's `int` extraction from the second token on (see `Loaders.IntegerRowCosts` and `Loaders.FractionalRowCosts`); the row counter wraps after `gcells.size()` rows and the layer advances |
| `VisPlacement.CommandStep` | visualizer/visualizer.py:60-75 | dispatch on the first token; bump lists and failure unchanged |
| `VisPlacement.BlankLinesIgnored` | visualizer/visualizer.py:53-56 | blank lines are skipped in every state: reading a file equals reading it with its blank lines removed |
| `VisPlacement.PushedBackLine` | visualizer/visualizer.py:99-110 | a `.`-line in a bump state is not stored and is read exactly as in command state |
| `VisPlacement.UnknownCommandIgnored` | visualizer/visualizer.py:60-75 | an unrecognised command leaves the whole state unchanged |
| `VisPlacement.Chip1LoadedOnlyByB` | visualizer/visualizer.py:70-73 | `chip1_loaded` changes only by a `.b` read while false, and then becomes true |
| `VisPlacement.ChipBlock` | visualizer/visualizer.py:86-97 | a `.c` block sets chip1's corner and size before the first `.b`, chip2's after it; corner = offset + routing-area corner |
| `VisPlacement.BumpsOf` | visualizer/visualizer.py:98-113 | one bump per row, the k-th at row k's offset plus the chip corner |
| `VisPlacement.ReadBumps` | visualizer/visualizer.py:98-105 | in chip1's bump state the rows append their bumps to chip1, in file order |
| `VisPlacement.ReadBumps2` | visualizer/visualizer.py:106-113 | in chip2's bump state the rows append their bumps to chip2, in file order |
| `VisPlacement.BumpBlock` | visualizer/visualizer.py:70-113 | a `.b` block ended by a command line: the first block goes to chip1 and sets the flag, later ones to chip2, each bump at offset + its own chip's corner, in order; the closing line is then read as a command |
| `VisCosts.BlankLinesIgnored` | visualizer/visualizer.py:142-145 | blank lines are skipped in every state |
| `VisCosts.PushedBackLine` | visualizer/visualizer.py:170-180 | a `.`-line ending a cost table is not stored and is read exactly as in command state |
| `VisCosts.ViaLineDiscarded` | visualizer/visualizer.py:158-168 | the line after `.v` is consumed without being read |
| `VisCosts.OtherCommandsIgnored` | visualizer/visualizer.py:150-157 | the weights and any other command leave the state as it was |
| `VisCosts.ReadRows` | visualizer/visualizer.py:169-182 | in a cost state each row is appended whole, in order, to the table of that state |
| `VisCosts.LayerBlock` | visualizer/visualizer.py:160-182 | the first `.l` table's rows go to `costM1_map`, every later table's to `costM2_map`; the closing line is then read as a command |
| `VisRoutes.Seed` | visualizer/visualizer.py:192-193 | seeding adds exactly the bumps' indices as keys |
| `VisRoutes.SeedRoutes` | visualizer/visualizer.py:192-193 | with distinct indices each chip1 bump's route is exactly its own position, and other keys keep what they had |
| `VisRoutes.BlankLinesIgnored` | visualizer/visualizer.py:202-204 | blank lines are skipped in every state |
| `VisRoutes.NonHeaderFails` | visualizer/visualizer.py:208-214 | in command state any line not starting with `n` ends the program |
| `VisRoutes.Endpoints` | visualizer/visualizer.py:219-221 | at most one point per record; a block of vias only contributes none |
| `VisRoutes.ReadRecords` | visualizer/visualizer.py:215-221 | a net's records append tokens 3 and 4 of each segment, in order, vias skipped, to that net's route only |
| `VisRoutes.NetBlock` | visualizer/visualizer.py:208-221 | a seeded net's block from header to `.end` extends that net's route by its segments' end points and returns to command state; no other route changes |
| `VisRoutes.UnseededNetFails` | visualizer/visualizer.py:221-221 | a net no chip1 bump seeded fails at its first segment record |
| `Visualizer.Visualizer.constructor` | visualizer/visualizer.py:22-34 | every attribute starts as `None` or empty |
| `Visualizer.Visualizer.PlacementLine` | visualizer/visualizer.py:59-113 | one line of the placement loop: either the fold's step, or a push-back of a `.`-line that leaves the state as command state would see it |
| `Visualizer.Visualizer.HeaderPlacementLine` | visualizer/visualizer.py:59-97 | a line in command, routing-area, grid-size or chip state does exactly the `VisPlacement` step, failing on a short line or a missing routing-area corner |
| `Visualizer.Visualizer.BumpPlacementLine` | visualizer/visualizer.py:98-113 | a non-command line in a bump state appends one bump to the chip being read, or fails on a short line or a missing chip corner |
| `Visualizer.Visualizer.LoadGridMap` | visualizer/visualizer.py:36-116 | the pop/push-back loop computes exactly the `VisPlacement` fold (failure, then every placement attribute); the costs and routes are untouched |
| `Visualizer.Visualizer.LoadCosts` | visualizer/visualizer.py:129-185 | the pop/push-back loop computes exactly the `VisCosts` fold's two tables; after an earlier failure nothing is read; nothing else changes |
| `Visualizer.Visualizer.LoadLg` | visualizer/visualizer.py:187-221 | the seeding loop, then the read loop, compute exactly the `VisRoutes` fold started from the seeded routes |
| `Generator.DiffZeroIffOnChip` | testcase/generator.py:31-56 | the distance is never negative and is 0 exactly when the point lies on the closed chip rectangle |
| `Generator.DiffRegions` | testcase/generator.py:36-56 | the distance is the horizontal plus the vertical overshoot: their sum in a corner region, the one overshoot in an edge region |
| `Generator.DiffIsNearestDistance` | testcase/generator.py:31-56 | the distance is the rectilinear distance to the nearest point of the chip: no chip point is closer, and the clamped point attains it |
| `Generator.GenerateGcl` | testcase/generator.py:124-130 | writes `.ec` and then exactly `GRID_WIDTH*GRID_HEIGHT` records, record k being draw k |
| `Common.NatToStringReadsBack` | testcase/generator.py:129-129 | `f"{n}"` of a natural number is decimal digits that read back as n, with no leading zero |
| `Generator.CapacityLinesInRange` | testcase/generator.py:129-129 | every record has two integers in `[EDGE_CAPACITY_MIN, EDGE_CAPACITY_MAX]` |
| `Generator.NumLine` | testcase/generator.py:136-138 | a line of numbers, one token per number |
| `Generator.BumpLines` | testcase/generator.py:144-145 | line k is bump k + 1 with its drawn offsets |
| `Generator.WriteBumps` | testcase/generator.py:144-145 | the loop writes exactly `BumpLines` |
| `Generator.GenerateGmp` | testcase/generator.py:133-152 | writes the routing area, gcell size, chip1 block, a blank line, then the chip2 block, each chip's bumps as drawn |
| `Generator.BumpLinesShape` | testcase/generator.py:142-151 | bump indices run 1 .. NUM_NETS in increasing order; each offset is `k*GCELL` with `0 <= k <= chip_w/gcell_w` |
| `Generator.CostBaseBounds` | testcase/generator.py:93-120 | a cost base is between 1 and `ON_CHIP`; on either chip it is `ON_CHIP` on both layers, elsewhere `max(1, ON_CHIP - diff)` with chip1's distance on layer 1 and chip2's on layer 2 |
| `Generator.CostLayer` | testcase/generator.py:94-106 | a layer block of `GRID_HEIGHT` rows of `GRID_WIDTH` bases, entry (i, j) the base for grid indices (j, i) |
| `Generator.GenerateCst` | testcase/generator.py:85-121 | both layer blocks, layer 1 then layer 2 |
| `Generator.GridIndexCostMissesChips` | testcase/generator.py:96-97 | as written, cell (40, 40), whose corner is chip1's corner, gets the off-chip base 1, and no grid cell is ever on chip2 |
| `Generator.CellCostBaseOnChip` | testcase/generator.py:110-111 | with distances at the cell's corner coordinates, every cell whose corner is on a chip gets `ON_CHIP`, among them (40, 40) and (1360, 860) |
| `RoundTrip.CapacitiesLoad` | src/evaluator.cpp:216-242 | reading a generated capacity file loads every cell from the draw with its row-major index |
| `RoundTrip.CapacitiesLoadRect` | src/evaluator.cpp:216-242 | the same for a file of exactly `rows * cols` records |
| `RoundTrip.GeneratedCapacitiesLoad` | testcase/generator.py:124-130 | the evaluator reads back exactly the drawn capacities: cell (x, y) gets draw `y*GRID_WIDTH + x`, nothing else changes |
| `RoundTrip.RouterMisreadsCapacities` | src/router.cpp:211-219 | the router reads the same file one token late: the left capacity is the second number and the bottom capacity is left indeterminate (0 in the model), below the generator's minimum |
| `RoundTrip.GeneratedBumps` | testcase/generator.py:144-151 | the evaluator reads generated bump line k as bump k + 1 at its offsets plus the chip corner |
| `RoundTrip.GeneratedPlacementLoads` | testcase/generator.py:133-152 | the evaluator reads a generated placement file as meant: area, gcell size, both chips' corners and sizes, and bumps 1 .. NUM_NETS of each chip in order at their drawn positions |
| `RoundTrip.GeneratedBumpsOnChip` | testcase/generator.py:142-151 | every generated bump lies on its own chip (its distance to it is 0) |

## Left out

- File opening and closing, and file-not-found handling: a file is given as its lines.
- `std::getline`/`istringstream` tokenising, and `std::stoi`, `int()` and `float()` conversion
  failures: every token carries the integer it parses to. The exception is the router's `int`
  extraction of costs, which is modelled on the token's text (`Loaders.Extract`).
- Logging: the `LOG_*` calls are no-ops. The route checker's errors are collected in a list.
- Every floating-point cost is left out. In the evaluator these are `cellCost`, `totalCost`,
  `gammaM1/M2`, `maxCellCost`, the median found by `nth_element`, `alpha`, `beta`, `gamma`,
  `delta`, `viaCost`, `betaHalfMaxCellCost`, `deltaViaCost` and `M1M2ViaCost`. Cost values are
  opaque tokens. So is the one undefined behaviour of the median: when `costs` is empty (a grid
  whose rows have no columns, with no bumps and no capacity records to fault on),
  `costs[medianIndex]` reads past the end, and the model does not flag it.
- The router's `int cost` is stored as a token carrying only its value (`Loaders.IntCost`); the
  `double` conversion is not modelled.
- Integer overflow of `int` coordinates and counters: the model uses unbounded integers. The
  one `int` stored into an `unsigned int` capacity is written out (`Common.ToUnsigned`).
- Indeterminate values. The uninitialised locals of a short data line read as 0; uninitialised
  capacities read as 0 and costs as `Missing`. The source leaves all of these indeterminate.
- EvalRoute.HeaderOpensNet: a chip1 bump without a gcell faults at the header. The source
  pushes the null pointer and dereferences it only at a via or `.end` met before any segment.
  A completed placement attaches every bump (`Grid.FinishPlacement`), so this case does not arise
  after it.
- Undefined behaviour becomes a `faulted` flag. Once it is set, the class methods promise only
  the flag.
- `std::sort` is modelled on a sequence value, as an insertion sort. The contract is sorted and
  a permutation; it does not say which order equal indices end up in, which `std::sort` does
  not fix either.
- The `net->gcells` path is kept. Heap allocation, destructors and the `GCell` fields
  `routesLeft`, `routesBottom`, `parent` and the A* score vectors are not modelled.
- Evaluator.Evaluator.LoadLG: the source's inner `while getline` loop over one net's records is
  one loop over all lines here, with the net context as a variable. A file that ends inside a
  net is read the same way.
- `Router::route` and `Router::run`: logging stubs.
- `main` argument handling and timing, and the `__main__` blocks of visualizer.py and
  generator.py. `Evaluator.Evaluate` models the evaluator's load order.
- `Visualizer.draw_placement` (plotting).
- `Visualizer.load_gcells`: it is an unimplemented TODO.
- Visualizer.Visualizer.LoadCosts: the rows are kept as token lines, not `float` lists.
- Python exceptions (short lines, `None` attributes, unknown route keys) and `sys.exit` are one
  `failed` flag. The exception type is not kept.
- Generator randomness: `random.randint` draws are parameters within their ranges. The
  `random.uniform` jitter and the `.2f` formatting of costs are left out.
- Generator.GenerateCst: it returns the integer cost bases, not the jittered text. The
  `.alpha`…`.v` header lines and the unused `diff = min(diff1, diff2)` are not written.

## Findings

| source | as written | input that shows it | evidently intended | confidence | as-written member | corrected member |
|---|---|---|---|---|---|---|
| src/router.cpp:92-104 | `chip1Loaded` is set by the first `.c`, so the bumps of chip1's `.b` block go to `chip2.bumps`, and they are offset by the routing-area corner | `.c`, a chip line, `.b`, one bump line | chip1's bumps go to chip1 at chip1's corner, as the evaluator's loader does | not executed | `Router.BumpsOfChip1Misrouted` | `EvalPlacement.BumpBlock` |
| src/router.cpp:211-219 | the first token of every line is consumed as a command, so a capacity record is read from its second token | the generated record `2 3` sets left capacity 3 and leaves the bottom capacity unread | both numbers of the record are read, as the evaluator does | not executed | `RoundTrip.RouterMisreadsCapacities` | `RoundTrip.GeneratedCapacitiesLoad` |
| src/router.cpp:284-291 | costs are extracted into an `int cost`, after the first token went to `command`, while the generator writes them with two decimals | the layer line `12.50 47.20 3.10` gives the first cell 47 and every other cell 0 | each cell gets its own fractional value, as in the evaluator's `double` read | not executed | `Loaders.FractionalRowExample` | `Loaders.CostAt` |
| testcase/generator.py:96-97 | chip distances are taken at the grid indices (j, i), while the chips are in coordinates 10 times larger | cell (40, 40), whose corner (400, 400) is chip1's corner, gets base 1; no cell is ever on chip2 | distances at the cell's corner `(j*10, i*10)` | not executed | `Generator.GridIndexCostMissesChips` | `Generator.CellCostBaseOnChip` |
