/** The generator's files read back by the C++ loaders: what the evaluator and the router store
    when they load the capacity and placement files that testcase/generator.py writes. */
module RoundTrip {
  import opened Common
  import opened Grid
  import Loaders
  import EvalPlacement
  import opened Generator

  // ---------------------------------------------------------------- capacity file

  /** A capacity file of one record per cell, read with the record's fields starting at
      `first`: each cell gets the fields of the record at its row-major index. */
  lemma CapacitiesLoad(draws: seq<(nat, nat)>, lines: seq<Line>, g: Grid, rows: nat, cols: nat, first: nat)
    requires rows > 0 && cols > 0 && |draws| == Loaders.RowMajor(rows, 0, cols)
    requires IsGclFile(lines, draws) && IsRect(g, rows, cols)
    ensures var r := Loaders.GclRun(Loaders.Gcl(Loaders.GclCommand, 0, g, false), lines, first);
      !r.faulted && IsRect(r.grid, rows, cols) &&
      forall y, x :: 0 <= y < rows && 0 <= x < cols ==>
        Loaders.RowMajor(y, x, cols) < |draws| &&
        r.grid[y][x] == Loaders.WithCapacity(g[y][x], Field(CapacityLine(draws[Loaders.RowMajor(y, x, cols)]), first, 0),
                                             Field(CapacityLine(draws[Loaders.RowMajor(y, x, cols)]), first + 1, 0))
  {
    var recs := lines[1..];
    assert lines == [lines[0]] + recs;
    forall k | 0 <= k < |recs|
      ensures recs[k] != [] && recs[k] == CapacityLine(draws[k])
    {
      assert k < |draws| && recs[k] == lines[k + 1];
      assert lines[k + 1] == CapacityLine(draws[k]);
    }
    Loaders.CapacityFile(g, rows, cols, lines[0], recs, first);
  }

  /** The same for a file of exactly `rows * cols` records. */
  lemma CapacitiesLoadRect(draws: seq<(nat, nat)>, lines: seq<Line>, g: Grid, rows: nat, cols: nat, first: nat)
    requires rows > 0 && cols > 0 && |draws| == rows * cols
    requires IsGclFile(lines, draws) && IsRect(g, rows, cols)
    ensures var r := Loaders.GclRun(Loaders.Gcl(Loaders.GclCommand, 0, g, false), lines, first);
      !r.faulted && IsRect(r.grid, rows, cols) &&
      forall y, x :: 0 <= y < rows && 0 <= x < cols ==>
        Loaders.RowMajor(y, x, cols) < |draws| &&
        r.grid[y][x] == Loaders.WithCapacity(g[y][x], Field(CapacityLine(draws[Loaders.RowMajor(y, x, cols)]), first, 0),
                                             Field(CapacityLine(draws[Loaders.RowMajor(y, x, cols)]), first + 1, 0))
  {
    Loaders.RowMajorValue(rows, 0, cols);
    CapacitiesLoad(draws, lines, g, rows, cols, first);
  }

  /** One cell of a `GridWidth`-wide grid, with its row-major index written out. */
  lemma LoadedCell(c2: GCell, c: GCell, draws: seq<(nat, nat)>, y: nat, x: nat, first: nat)
    requires Loaders.RowMajor(y, x, GridWidth) < |draws|
    requires c2 == Loaders.WithCapacity(c, Field(CapacityLine(draws[Loaders.RowMajor(y, x, GridWidth)]), first, 0),
                                        Field(CapacityLine(draws[Loaders.RowMajor(y, x, GridWidth)]), first + 1, 0))
    ensures y * GridWidth + x < |draws|
    ensures c2 == Loaders.WithCapacity(c, Field(CapacityLine(draws[y * GridWidth + x]), first, 0),
                                       Field(CapacityLine(draws[y * GridWidth + x]), first + 1, 0))
  {
    Loaders.RowMajorValue(y, x, GridWidth);
  }

  /** A cell loaded from the record of a drawn pair `d`, read from field `first` on. */
  lemma DrawnCell(c2: GCell, c: GCell, d: (nat, nat), first: nat)
    requires first <= 1 && d.0 <= EdgeCapacityMax && d.1 <= EdgeCapacityMax
    requires c2 == Loaders.WithCapacity(c, Field(CapacityLine(d), first, 0), Field(CapacityLine(d), first + 1, 0))
    ensures first == 0 ==> c2 == c.(leftEdgeCapacity := d.0, bottomEdgeCapacity := d.1)
    ensures first == 1 ==> c2 == c.(leftEdgeCapacity := d.1, bottomEdgeCapacity := 0)
  {
  }

  /** The evaluator reads back exactly the drawn capacities: cell (x, y) of a
      `GridHeight` x `GridWidth` grid gets the pair drawn for row-major index `y * GridWidth + x`,
      and nothing else of any cell changes. */
  lemma GeneratedCapacitiesLoad(draws: seq<(nat, nat)>, lines: seq<Line>, g: Grid)
    requires CapacityDraws(draws) && IsGclFile(lines, draws) && IsRect(g, GridHeight, GridWidth)
    ensures var r := Loaders.GclRun(Loaders.Gcl(Loaders.GclCommand, 0, g, false), lines, 0);
      !r.faulted && IsRect(r.grid, GridHeight, GridWidth) &&
      forall y, x :: 0 <= y < GridHeight && 0 <= x < GridWidth ==>
        y * GridWidth + x < |draws| &&
        r.grid[y][x] == g[y][x].(leftEdgeCapacity := draws[y * GridWidth + x].0,
                                 bottomEdgeCapacity := draws[y * GridWidth + x].1)
  {
    assert GridWidth == 1500 && GridHeight == 1000;
    CapacitiesLoadRect(draws, lines, g, GridHeight, GridWidth, 0);
    var r := Loaders.GclRun(Loaders.Gcl(Loaders.GclCommand, 0, g, false), lines, 0);
    forall y: nat, x: nat | y < GridHeight && x < GridWidth
      ensures y * GridWidth + x < |draws| &&
        r.grid[y][x] == g[y][x].(leftEdgeCapacity := draws[y * GridWidth + x].0,
                                 bottomEdgeCapacity := draws[y * GridWidth + x].1)
    {
      LoadedCell(r.grid[y][x], g[y][x], draws, y, x, 0);
      DrawnCell(r.grid[y][x], g[y][x], draws[y * GridWidth + x], 0);
    }
  }

  /** The router reads the same file one token late: each record's second number becomes the
      left capacity and the bottom capacity is left unread (0 here), below the generator's
      minimum of 1 in every cell. */
  lemma RouterMisreadsCapacities(draws: seq<(nat, nat)>, lines: seq<Line>, g: Grid)
    requires CapacityDraws(draws) && IsGclFile(lines, draws) && IsRect(g, GridHeight, GridWidth)
    ensures var r := Loaders.GclRun(Loaders.Gcl(Loaders.GclCommand, 0, g, false), lines, 1);
      !r.faulted && IsRect(r.grid, GridHeight, GridWidth) &&
      forall y, x :: 0 <= y < GridHeight && 0 <= x < GridWidth ==>
        y * GridWidth + x < |draws| &&
        r.grid[y][x] == g[y][x].(leftEdgeCapacity := draws[y * GridWidth + x].1, bottomEdgeCapacity := 0) &&
        r.grid[y][x].bottomEdgeCapacity < EdgeCapacityMin
  {
    assert GridWidth == 1500 && GridHeight == 1000;
    CapacitiesLoadRect(draws, lines, g, GridHeight, GridWidth, 1);
    var r := Loaders.GclRun(Loaders.Gcl(Loaders.GclCommand, 0, g, false), lines, 1);
    forall y: nat, x: nat | y < GridHeight && x < GridWidth
      ensures y * GridWidth + x < |draws| &&
        r.grid[y][x] == g[y][x].(leftEdgeCapacity := draws[y * GridWidth + x].1, bottomEdgeCapacity := 0)
    {
      LoadedCell(r.grid[y][x], g[y][x], draws, y, x, 1);
      DrawnCell(r.grid[y][x], g[y][x], draws[y * GridWidth + x], 1);
    }
  }

  // ---------------------------------------------------------------- placement file

  lemma RunCons(s: EvalPlacement.Gmp, l: Line, rest: seq<Line>)
    ensures EvalPlacement.Run(s, [l] + rest) == EvalPlacement.Run(EvalPlacement.Step(s, l), rest)
  {
    assert ([l] + rest)[1..] == rest;
  }

  /** The bump a generated bump line describes for a chip at `ll`. */
  function GeneratedBump(k: nat, d: (nat, nat), ll: Point): Bump {
    Bump(k + 1, Point(ll.x + d.0 * 10, ll.y + d.1 * 10), None)
  }

  /** The routing-area and gcell-size blocks. */
  lemma PlacementHeader(s: EvalPlacement.Gmp, rest: seq<Line>)
    requires s.mode == EvalPlacement.LoadingCommand
    ensures EvalPlacement.Run(s, [Cmd(".ra"), NumLine([0, 0, 15000, 10000]), Cmd(".g"), NumLine([10, 10])] + rest) ==
      EvalPlacement.Run(s.(origin := Point(0, 0), areaSize := Point(15000, 10000), gcellSize := Point(10, 10)), rest)
  {
    var l0, l1, l2, l3 := Cmd(".ra"), NumLine([0, 0, 15000, 10000]), Cmd(".g"), NumLine([10, 10]);
    assert [l0, l1, l2, l3] + rest == [l0] + ([l1] + ([l2] + ([l3] + rest)));
    RunCons(s, l0, [l1] + ([l2] + ([l3] + rest)));
    var s1 := EvalPlacement.Step(s, l0);
    RunCons(s1, l1, [l2] + ([l3] + rest));
    var s2 := EvalPlacement.Step(s1, l1);
    RunCons(s2, l2, [l3] + rest);
    var s3 := EvalPlacement.Step(s2, l2);
    RunCons(s3, l3, rest);
  }

  /** Chip1's block and its bumps, closed by the blank line. */
  lemma PlacementChip1(s: EvalPlacement.Gmp, draws: seq<(nat, nat)>, rest: seq<Line>)
    requires s.mode == EvalPlacement.LoadingCommand && !s.loadingChip1 && s.origin == Point(0, 0) && s.chip1.bumps == []
    ensures EvalPlacement.Run(s, [Cmd(".c"), NumLine([400, 400, 1000, 1000])] + ([Cmd(".b")] + BumpLines(draws) + [[]] + rest)) ==
      EvalPlacement.Run(s.(chip1 := Chip(Point(400, 400), Point(1000, 1000), EvalPlacement.BumpsOf(BumpLines(draws), Point(400, 400))),
                           loadingChip1 := true), rest)
  {
    var b := BumpLines(draws);
    EvalPlacement.ChipBlock(s, Cmd(".c"), NumLine([400, 400, 1000, 1000]), [Cmd(".b")] + b + [[]] + rest);
    var s1 := s.(chip1 := EvalPlacement.LoadChip(s.chip1, NumLine([400, 400, 1000, 1000]), s.origin), loadingChip1 := true);
    assert s1.chip1 == Chip(Point(400, 400), Point(1000, 1000), []);
    assert EvalPlacement.NonBlank(b);
    EvalPlacement.BumpBlock(s1, Cmd(".b"), b, rest);
    assert EvalPlacement.AddBumps(s1, b).(mode := EvalPlacement.LoadingCommand)
        == s.(chip1 := Chip(Point(400, 400), Point(1000, 1000), EvalPlacement.BumpsOf(b, Point(400, 400))), loadingChip1 := true);
  }

  /** Chip2's block and its bumps, up to the end of the file. */
  lemma PlacementChip2(s: EvalPlacement.Gmp, draws: seq<(nat, nat)>)
    requires s.mode == EvalPlacement.LoadingCommand && s.loadingChip1 && s.origin == Point(0, 0) && s.chip2.bumps == []
    ensures EvalPlacement.Run(s, [Cmd(".c"), NumLine([13600, 8600, 1000, 1000])] + ([Cmd(".b")] + BumpLines(draws))) ==
      s.(chip2 := Chip(Point(13600, 8600), Point(1000, 1000), EvalPlacement.BumpsOf(BumpLines(draws), Point(13600, 8600))),
         loadingChip1 := false, mode := EvalPlacement.LoadingBump)
  {
    var b := BumpLines(draws);
    EvalPlacement.ChipBlock(s, Cmd(".c"), NumLine([13600, 8600, 1000, 1000]), [Cmd(".b")] + b);
    var s1 := s.(chip2 := EvalPlacement.LoadChip(s.chip2, NumLine([13600, 8600, 1000, 1000]), s.origin), loadingChip1 := false);
    assert s1.chip2 == Chip(Point(13600, 8600), Point(1000, 1000), []);
    RunCons(s1, Cmd(".b"), b);
    var s2 := s1.(mode := EvalPlacement.LoadingBump);
    assert EvalPlacement.Step(s1, Cmd(".b")) == s2;
    assert EvalPlacement.NonBlank(b);
    EvalPlacement.BumpRows(s2, b);
    assert EvalPlacement.AddBumps(s2, b) == s2.(chip2 := s2.chip2.(bumps := EvalPlacement.BumpsOf(b, Point(13600, 8600))));
  }

  /** The bumps of a block of generated bump lines, read at chip corner `ll`. */
  lemma GeneratedBumps(draws: seq<(nat, nat)>, ll: Point)
    ensures var r := EvalPlacement.BumpsOf(BumpLines(draws), ll);
      |r| == |draws| && forall k :: 0 <= k < |draws| ==> r[k] == GeneratedBump(k, draws[k], ll)
  {
    var b := BumpLines(draws);
    var r := EvalPlacement.BumpsOf(b, ll);
    forall k | 0 <= k < |draws|
      ensures r[k] == GeneratedBump(k, draws[k], ll)
    {
      GeneratedBumpAt(b[k], k, draws[k], ll);
    }
  }

  lemma GeneratedBumpAt(line: Line, k: nat, d: (nat, nat), ll: Point)
    requires line == BumpLine(k + 1, d)
    ensures EvalPlacement.BumpOf(line, ll) == GeneratedBump(k, d, ll)
  {
  }

  lemma GmpFileShape(draws1: seq<(nat, nat)>, draws2: seq<(nat, nat)>)
    ensures GmpFile(draws1, draws2) ==
      [Cmd(".ra"), NumLine([0, 0, 15000, 10000]), Cmd(".g"), NumLine([10, 10])] +
      ([Cmd(".c"), NumLine([400, 400, 1000, 1000])] + ([Cmd(".b")] + BumpLines(draws1) + [[]] +
        ([Cmd(".c"), NumLine([13600, 8600, 1000, 1000])] + ([Cmd(".b")] + BumpLines(draws2)))))
  {
  }

  /** The evaluator reads a generated placement file as the generator meant it: the routing
      area, the gcell size, both chips' corners and sizes, and for each chip the bumps
      1 .. NumNets in order at their drawn offsets from that chip's corner. */
  lemma GeneratedPlacementLoads(draws1: seq<(nat, nat)>, draws2: seq<(nat, nat)>, s: EvalPlacement.Gmp)
    requires OffsetDraws(draws1) && OffsetDraws(draws2)
    requires s.mode == EvalPlacement.LoadingCommand && !s.loadingChip1 && s.chip1.bumps == [] && s.chip2.bumps == []
    ensures var r := EvalPlacement.Run(s, GmpFile(draws1, draws2));
      r.origin == RoutingAreaLowerLeft && r.areaSize == RoutingAreaSize && r.gcellSize == GCellSize &&
      r.chip1.lowerLeft == Chip1LowerLeft && r.chip1.size == Chip1Size &&
      r.chip2.lowerLeft == Chip2LowerLeft && r.chip2.size == Chip2Size &&
      |r.chip1.bumps| == NumNets && |r.chip2.bumps| == NumNets &&
      (forall k :: 0 <= k < NumNets ==> r.chip1.bumps[k] == GeneratedBump(k, draws1[k], Chip1LowerLeft)) &&
      (forall k :: 0 <= k < NumNets ==> r.chip2.bumps[k] == GeneratedBump(k, draws2[k], Chip2LowerLeft))
  {
    var tail := [Cmd(".c"), NumLine([13600, 8600, 1000, 1000])] + ([Cmd(".b")] + BumpLines(draws2));
    var body := [Cmd(".c"), NumLine([400, 400, 1000, 1000])] + ([Cmd(".b")] + BumpLines(draws1) + [[]] + tail);
    GmpFileShape(draws1, draws2);
    PlacementHeader(s, body);
    var s4 := s.(origin := Point(0, 0), areaSize := Point(15000, 10000), gcellSize := Point(10, 10));
    PlacementChip1(s4, draws1, tail);
    var s6 := s4.(chip1 := Chip(Point(400, 400), Point(1000, 1000), EvalPlacement.BumpsOf(BumpLines(draws1), Point(400, 400))),
                  loadingChip1 := true);
    PlacementChip2(s6, draws2);
    GeneratedBumps(draws1, Point(400, 400));
    GeneratedBumps(draws2, Point(13600, 8600));
  }

  /** Every generated bump lies on its own chip: its distance to that chip is zero. */
  lemma GeneratedBumpsOnChip(draws: seq<(nat, nat)>, k: nat)
    requires OffsetDraws(draws) && k < NumNets
    ensures var p1 := GeneratedBump(k, draws[k], Chip1LowerLeft).position;
      var p2 := GeneratedBump(k, draws[k], Chip2LowerLeft).position;
      DiffFromChip1(p1.x, p1.y) == 0 && DiffFromChip2(p2.x, p2.y) == 0
  {
    var p1 := GeneratedBump(k, draws[k], Chip1LowerLeft).position;
    var p2 := GeneratedBump(k, draws[k], Chip2LowerLeft).position;
    DiffZeroIffOnChip(p1.x, p1.y, Chip1LowerLeft, Chip1Size);
    DiffZeroIffOnChip(p2.x, p2.y, Chip2LowerLeft, Chip2Size);
  }
}
