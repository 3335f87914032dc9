/** `class Evaluator` of inc/evaluator.h and src/evaluator.cpp: the four loaders that fill the
    evaluator's members from a placement (`.gmp`), capacity (`.gcl`), cost (`.cst`) and route
    (`.lg`) file, and the integer totals of `printCosts`. Each loader is the source's read loop
    over the file's lines and is proved to end in the state its read-loop function in
    `EvalPlacement`, `Loaders` or `EvalRoute` describes. */
module Evaluator {
  import opened Common
  import opened Grid
  import opened Edges
  import EvalPlacement
  import Loaders
  import EvalRoute

  /** The loops that set `startBump` and `endBump`: the first bump with index `idx`. */
  method FindBump(bumps: seq<Bump>, idx: int) returns (r: Option<nat>)
    ensures r.Some? ==>
      r.value < |bumps| && bumps[r.value].idx == idx && forall k :: 0 <= k < r.value ==> bumps[k].idx != idx
    ensures r.None? ==> forall k :: 0 <= k < |bumps| ==> bumps[k].idx != idx
    ensures r == EvalRoute.FirstWithIdx(bumps, idx)
  {
    var i := 0;
    while i < |bumps|
      invariant 0 <= i <= |bumps|
      invariant forall k :: 0 <= k < i ==> bumps[k].idx != idx
    {
      if bumps[i].idx == idx {
        return Some(i);
      }
      i := i + 1;
    }
    return None;
  }

  /** The counter of every edge is 0 in a freshly built grid. */
  lemma FreshIsUncrossed(g: Grid, rows: nat, cols: nat, gcellSize: Point, origin: Point)
    requires FreshGrid(g, rows, cols, gcellSize, origin)
    ensures Uncrossed(g)
  {
    forall y, x | 0 <= y < |g| && 0 <= x < |g[y]|
      ensures g[y][x].bottomEdgeCount == 0 && g[y][x].leftEdgeCount == 0
    {
      assert Unlinked(g[y][x]) == NewCell(CellLowerLeft(x, y, gcellSize, origin));
    }
  }

  lemma SameCountsUncrossed(g: Grid, h: Grid)
    requires Loaders.SameCounts(g, h) && Uncrossed(h)
    ensures Uncrossed(g)
  {
    forall y, x | 0 <= y < |g| && 0 <= x < |g[y]|
      ensures g[y][x].bottomEdgeCount == 0 && g[y][x].leftEdgeCount == 0
    {
      assert h[y][x].bottomEdgeCount == 0;
    }
  }

  class Evaluator {
    var routingAreaLowerLeft: Point
    var routingAreaSize: Point
    var gcellSize: Point
    var chip1: Chip
    var chip2: Chip
    /** `gcells[y][x]`. */
    var gcells: Grid
    var nets: seq<EvalRoute.Net>
    /** The route errors logged so far, in order. */
    var errors: seq<EvalRoute.RouteError>
    /** Set once the source would have undefined behaviour; every later load is skipped. */
    var faulted: bool

    /** The source's constructor leaves the scalar members indeterminate; they start at 0 here. */
    constructor()
      ensures routingAreaLowerLeft == Point(0, 0) && routingAreaSize == Point(0, 0) && gcellSize == Point(0, 0)
      ensures chip1 == EmptyChip && chip2 == EmptyChip
      ensures gcells == [] && nets == [] && errors == [] && !faulted
    {
      routingAreaLowerLeft, routingAreaSize, gcellSize := Point(0, 0), Point(0, 0), Point(0, 0);
      chip1, chip2 := EmptyChip, EmptyChip;
      gcells, nets, errors := [], [], [];
      faulted := false;
    }

    /** The members the placement read loop writes, with the loop's two locals. */
    function Placement(mode: EvalPlacement.Mode, loadingChip1: bool): EvalPlacement.Gmp
      reads this
    {
      EvalPlacement.Gmp(mode, loadingChip1, routingAreaLowerLeft, routingAreaSize, gcellSize, chip1, chip2)
    }

    /** What the route loader reads from the placement. */
    function Env(): EvalRoute.Env
      reads this`routingAreaLowerLeft, this`gcellSize, this`chip1, this`chip2
    {
      EvalRoute.Env(routingAreaLowerLeft, gcellSize, chip1.bumps, chip2.bumps)
    }

    /** The members the route loader writes, with the inner loop's locals. */
    function RouteState(ctx: Option<EvalRoute.Ctx>): EvalRoute.Lg
      reads this
    {
      EvalRoute.Lg(gcells, nets, errors, ctx, faulted)
    }

    /** One line of the placement loop in `loadGridMap`. */
    method PlacementStep(line: Line, mode0: EvalPlacement.Mode, loadingChip10: bool)
      returns (mode: EvalPlacement.Mode, loadingChip1: bool)
      modifies this`routingAreaLowerLeft, this`routingAreaSize, this`gcellSize, this`chip1, this`chip2
      ensures Placement(mode, loadingChip1) == EvalPlacement.Step(old(Placement(mode0, loadingChip10)), line)
    {
      mode, loadingChip1 := mode0, loadingChip10;
      if line == [] {
        if mode == EvalPlacement.LoadingBump {
          mode := EvalPlacement.LoadingCommand;
        }
      } else {
        match mode
        case LoadingCommand =>
          var command := line[0].text;
          if command == ".ra" {
            mode := EvalPlacement.LoadingRoutingArea;
          } else if command == ".g" {
            mode := EvalPlacement.LoadingGCellSize;
          } else if command == ".c" {
            if loadingChip1 {
              mode := EvalPlacement.LoadingChip2;
              loadingChip1 := false;
            } else {
              mode := EvalPlacement.LoadingChip1;
              loadingChip1 := true;
            }
          } else if command == ".b" {
            mode := EvalPlacement.LoadingBump;
          }
        case LoadingRoutingArea =>
          routingAreaLowerLeft := Point(Field(line, 0, routingAreaLowerLeft.x), Field(line, 1, routingAreaLowerLeft.y));
          routingAreaSize := Point(Field(line, 2, routingAreaSize.x), Field(line, 3, routingAreaSize.y));
          mode := EvalPlacement.LoadingCommand;
        case LoadingGCellSize =>
          gcellSize := Point(Field(line, 0, gcellSize.x), Field(line, 1, gcellSize.y));
          mode := EvalPlacement.LoadingCommand;
        case LoadingChip1 =>
          var offsetX, offsetY := Field(line, 0, 0), Field(line, 1, 0);
          chip1 := chip1.(lowerLeft := Point(offsetX + routingAreaLowerLeft.x, offsetY + routingAreaLowerLeft.y),
                          size := Point(Field(line, 2, chip1.size.x), Field(line, 3, chip1.size.y)));
          mode := EvalPlacement.LoadingCommand;
        case LoadingChip2 =>
          var offsetX, offsetY := Field(line, 0, 0), Field(line, 1, 0);
          chip2 := chip2.(lowerLeft := Point(offsetX + routingAreaLowerLeft.x, offsetY + routingAreaLowerLeft.y),
                          size := Point(Field(line, 2, chip2.size.x), Field(line, 3, chip2.size.y)));
          mode := EvalPlacement.LoadingCommand;
        case LoadingBump =>
          var idx, x, y := Field(line, 0, 0), Field(line, 1, 0), Field(line, 2, 0);
          if loadingChip1 {
            chip1 := chip1.(bumps := chip1.bumps + [Bump(idx, Point(x + chip1.lowerLeft.x, y + chip1.lowerLeft.y), None)]);
          } else {
            chip2 := chip2.(bumps := chip2.bumps + [Bump(idx, Point(x + chip2.lowerLeft.x, y + chip2.lowerLeft.y), None)]);
          }
      }
    }

    /** The read loop of `loadGridMap`: every line through the placement state machine. */
    method ReadPlacement(lines: seq<Line>) returns (mode: EvalPlacement.Mode, loadingChip1: bool)
      modifies this`routingAreaLowerLeft, this`routingAreaSize, this`gcellSize, this`chip1, this`chip2
      ensures Placement(mode, loadingChip1) == EvalPlacement.Run(old(Placement(EvalPlacement.LoadingCommand, false)), lines)
    {
      mode := EvalPlacement.LoadingCommand;
      loadingChip1 := false;
      ghost var p0 := Placement(mode, loadingChip1);
      var i := 0;
      while i < |lines|
        invariant 0 <= i <= |lines|
        invariant EvalPlacement.Run(Placement(mode, loadingChip1), lines[i..]) == EvalPlacement.Run(p0, lines)
      {
        mode, loadingChip1 := PlacementStep(lines[i], mode, loadingChip1);
        assert lines[i..][1..] == lines[i + 1..];
        i := i + 1;
      }
      assert lines[i..] == [];
    }

    /** `loadGridMap`: the read loop, then the grid, its links, the bump sort and the bump-to-gcell map. */
    method LoadGridMap(lines: seq<Line>)
      modifies this
      ensures old(faulted) ==> faulted && unchanged(this)
      ensures !old(faulted) ==>
        var r := EvalPlacement.Run(old(Placement(EvalPlacement.LoadingCommand, false)), lines);
        routingAreaLowerLeft == r.origin && routingAreaSize == r.areaSize && gcellSize == r.gcellSize &&
        chip1.lowerLeft == r.chip1.lowerLeft && chip1.size == r.chip1.size &&
        chip2.lowerLeft == r.chip2.lowerLeft && chip2.size == r.chip2.size &&
        nets == old(nets) && errors == old(errors) &&
        faulted == GridFault(r.origin, r.areaSize, r.gcellSize, r.chip1.bumps, r.chip2.bumps) &&
        (!faulted ==>
          GridRows(r.areaSize, r.gcellSize) >= 0 &&
          FreshGrid(gcells, GridRows(r.areaSize, r.gcellSize), ColsOrZero(r.areaSize, r.gcellSize), r.gcellSize, r.origin) &&
          Attached(chip1.bumps, r.chip1.bumps, gcells, r.origin, r.gcellSize) &&
          Attached(chip2.bumps, r.chip2.bumps, gcells, r.origin, r.gcellSize))
    {
      if faulted {
        return;
      }
      ghost var p0 := Placement(EvalPlacement.LoadingCommand, false);
      var mode, loadingChip1 := ReadPlacement(lines);
      ghost var r := EvalPlacement.Run(p0, lines);
      assert Placement(mode, loadingChip1) == r;
      var ok, g, sorted1, sorted2 := FinishPlacement(routingAreaLowerLeft, routingAreaSize, gcellSize, chip1.bumps, chip2.bumps);
      if !ok {
        faulted := true;
        return;
      }
      gcells := g;
      chip1 := chip1.(bumps := sorted1);
      chip2 := chip2.(bumps := sorted2);
    }

    /** `loadGCells`: `.ec`, then the capacities of the cells in row-major order. */
    method LoadGCells(lines: seq<Line>)
      modifies this`gcells, this`faulted
      ensures var r := Loaders.GclRun(Loaders.Gcl(Loaders.GclCommand, 0, old(gcells), old(faulted)), lines, 0);
        faulted == r.faulted && (!faulted ==> gcells == r.grid)
    {
      ghost var start := Loaders.Gcl(Loaders.GclCommand, 0, gcells, faulted);
      if faulted {
        Loaders.GclFaultedRun(start, lines, 0);
        return;
      }
      var mode := Loaders.GclCommand;
      var loadedGCellCount := 0;
      var i := 0;
      while i < |lines|
        invariant 0 <= i <= |lines| && !faulted
        invariant Loaders.GclRun(Loaders.Gcl(mode, loadedGCellCount, gcells, false), lines[i..], 0) ==
                  Loaders.GclRun(start, lines, 0)
      {
        var line := lines[i];
        ghost var before := Loaders.Gcl(mode, loadedGCellCount, gcells, false);
        assert lines[i..][1..] == lines[i + 1..];
        if line != [] {
          if mode == Loaders.GclCommand {
            if line[0].text == ".ec" {
              mode := Loaders.GclLoading;
            }
          } else {
            var cols := if |gcells| == 0 then 0 else |gcells[0]|;
            if cols == 0 {
              faulted := true;
              Loaders.GclFaultedRun(Loaders.GclStep(before, line, 0), lines[i + 1..], 0);
              return;
            }
            var y, x := loadedGCellCount / cols, loadedGCellCount % cols;
            if y >= |gcells| || x >= |gcells[y]| {
              faulted := true;
              Loaders.GclFaultedRun(Loaders.GclStep(before, line, 0), lines[i + 1..], 0);
              return;
            }
            var leftEdgeCapacity, bottomEdgeCapacity := Field(line, 0, 0), Field(line, 1, 0);
            var gcell := gcells[y][x].(leftEdgeCapacity := ToUnsigned(leftEdgeCapacity),
                                       bottomEdgeCapacity := ToUnsigned(bottomEdgeCapacity));
            gcells := gcells[y := gcells[y][x := gcell]];
            loadedGCellCount := loadedGCellCount + 1;
          }
        }
        assert Loaders.Gcl(mode, loadedGCellCount, gcells, false) == Loaders.GclStep(before, line, 0);
        i := i + 1;
      }
      assert lines[i..] == [];
    }

    /** The integer part of `loadCost`: the row and layer walk that stores each layer line's
        values as the M1 (first layer) or M2 (later layers) cost of one grid row. Sizing the
        cost vector reads `gcells[0]`, undefined behaviour on an empty grid. */
    method LoadCost(lines: seq<Line>)
      modifies this`gcells, this`faulted
      ensures var r := Loaders.CstRun(Loaders.Cst(Loaders.CstCommand, 0, 0, old(gcells), old(faulted) || old(gcells) == []), lines, Loaders.EvaluatorCosts);
        faulted == r.faulted && (!faulted ==> gcells == r.grid)
    {
      ghost var start := Loaders.Cst(Loaders.CstCommand, 0, 0, gcells, faulted || gcells == []);
      if faulted || gcells == [] {
        faulted := true;
        Loaders.CstFaultedRun(start, lines, Loaders.EvaluatorCosts);
        return;
      }
      var mode := Loaders.CstCommand;
      var currentRow: nat := 0;
      var currentLayer: nat := 0;
      var i := 0;
      while i < |lines|
        invariant 0 <= i <= |lines| && !faulted
        invariant Loaders.CstRun(Loaders.Cst(mode, currentRow, currentLayer, gcells, false), lines[i..], Loaders.EvaluatorCosts) ==
                  Loaders.CstRun(start, lines, Loaders.EvaluatorCosts)
      {
        var line := lines[i];
        ghost var before := Loaders.Cst(mode, currentRow, currentLayer, gcells, false);
        assert lines[i..][1..] == lines[i + 1..];
        if line != [] {
          match mode
          case CstCommand =>
            if line[0].text == ".l" {
              mode := Loaders.CstLayer;
            } else if line[0].text == ".v" {
              mode := Loaders.CstViaCost;
            }
          case CstViaCost =>
            mode := Loaders.CstCommand;
          case CstLayer =>
            if currentRow >= |gcells| {
              faulted := true;
              Loaders.CstFaultedRun(Loaders.CstStep(before, line, Loaders.EvaluatorCosts), lines[i + 1..], Loaders.EvaluatorCosts);
              return;
            }
            var row := Loaders.FillCostRow(gcells[currentRow], line, currentLayer);
            gcells := gcells[currentRow := row];
            currentRow := currentRow + 1;
            if currentRow == |gcells| {
              currentRow := 0;
              currentLayer := currentLayer + 1;
              mode := Loaders.CstCommand;
            }
        }
        assert Loaders.Cst(mode, currentRow, currentLayer, gcells, false) == Loaders.CstStep(before, line, Loaders.EvaluatorCosts);
        i := i + 1;
      }
      assert lines[i..] == [];
    }

    /** One crossing of the bottom (M1) or left (M2) edge of cell `e`: the test that counts
        an overflow, then the counter's increment. */
    method CrossEdge(layer: Layer, e: CellRef) returns (full: bool)
      requires InGrid(gcells, e)
      modifies this`gcells
      ensures full == Full(old(gcells)[e.y][e.x], layer)
      ensures gcells == old(gcells)[e.y := old(gcells)[e.y][e.x := Crossed(old(gcells)[e.y][e.x], layer)]]
    {
      var gcell := gcells[e.y][e.x];
      if layer == M1 {
        full := gcell.bottomEdgeCount >= gcell.bottomEdgeCapacity;
        gcells := gcells[e.y := gcells[e.y][e.x := gcell.(bottomEdgeCount := gcell.bottomEdgeCount + 1)]];
      } else {
        full := gcell.leftEdgeCount >= gcell.leftEdgeCapacity;
        gcells := gcells[e.y := gcells[e.y][e.x := gcell.(leftEdgeCount := gcell.leftEdgeCount + 1)]];
      }
    }

    /** One iteration of a walk loop: the entered cell is appended to the net's path, then the
        crossed edge is tested and its counter raised. */
    method TakeStep(layer: Layer, s: Step, path0: seq<CellRef>, overflow0: nat)
      returns (path: seq<CellRef>, overflow: nat)
      requires InGrid(gcells, s.enter) && InGrid(gcells, s.edge)
      modifies this`gcells
      ensures Walk(gcells, path, overflow, true) == Take(Walk(old(gcells), path0, overflow0, true), layer, s)
    {
      path := path0 + [s.enter];
      var full := CrossEdge(layer, s.edge);
      overflow := if full then overflow0 + 1 else overflow0;
    }

    /** The walk loop of a segment towards larger coordinates: cells `lo+1 .. hi` of column
        (M1) or row (M2) `fixed`, each crossing its own bottom (left) edge. */
    method WalkForward(layer: Layer, fixed: int, lo: int, hi: int, path0: seq<CellRef>, overflow0: nat)
      returns (path: seq<CellRef>, overflow: nat, ok: bool)
      modifies this`gcells
      ensures var w := WalkAll(Walk(old(gcells), path0, overflow0, true), layer, ForwardSteps(layer, fixed, lo, hi));
        ok == w.ok && (ok ==> Walk(gcells, path, overflow, true) == w)
    {
      ghost var w0 := Walk(gcells, path0, overflow0, true);
      ghost var steps := ForwardSteps(layer, fixed, lo, hi);
      path, overflow, ok := path0, overflow0, true;
      var v := lo + 1;
      while v <= hi
        invariant lo + 1 <= v <= (if hi > lo then hi + 1 else lo + 1)
        invariant Walk(gcells, path, overflow, true) == WalkAll(w0, layer, steps[..v - lo - 1])
      {
        ghost var k := v - lo - 1;
        assert steps[k] == Step(At(layer, fixed, v), At(layer, fixed, v));
        WalkAllPrefix(w0, layer, steps, k);
        var c := At(layer, fixed, v);
        if !(0 <= c.y < |gcells| && 0 <= c.x < |gcells[c.y]|) {
          WalkFailStays(w0, layer, steps, k + 1);
          return path, overflow, false;
        }
        path, overflow := TakeStep(layer, Step(c, c), path, overflow);
        v := v + 1;
      }
      assert steps[..v - lo - 1] == steps;
    }

    /** The walk loop of a segment towards smaller coordinates: cells `start-1` down to `lo`,
        each crossing the bottom (left) edge of the cell it leaves. */
    method WalkBackward(layer: Layer, fixed: int, start: int, lo: int, path0: seq<CellRef>, overflow0: nat)
      returns (path: seq<CellRef>, overflow: nat, ok: bool)
      modifies this`gcells
      ensures var w := WalkAll(Walk(old(gcells), path0, overflow0, true), layer, BackwardSteps(layer, fixed, start, lo));
        ok == w.ok && (ok ==> Walk(gcells, path, overflow, true) == w)
    {
      ghost var w0 := Walk(gcells, path0, overflow0, true);
      ghost var steps := BackwardSteps(layer, fixed, start, lo);
      path, overflow, ok := path0, overflow0, true;
      var v := start - 1;
      while v >= lo
        invariant (if start > lo then lo - 1 else start - 1) <= v <= start - 1
        invariant Walk(gcells, path, overflow, true) == WalkAll(w0, layer, steps[..start - 1 - v])
      {
        ghost var k := start - 1 - v;
        assert steps[k] == Step(At(layer, fixed, v), At(layer, fixed, v + 1));
        WalkAllPrefix(w0, layer, steps, k);
        var c, e := At(layer, fixed, v), At(layer, fixed, v + 1);
        if !(0 <= c.y < |gcells| && 0 <= c.x < |gcells[c.y]|) || !(0 <= e.y < |gcells| && 0 <= e.x < |gcells[e.y]|) {
          WalkFailStays(w0, layer, steps, k + 1);
          return path, overflow, false;
        }
        path, overflow := TakeStep(layer, Step(c, e), path, overflow);
        v := v - 1;
      }
      assert steps[..start - 1 - v] == steps;
    }
  
    /** A net header: the net record is pushed, then the loops that find `startBump` in chip1
        and `endBump` in chip2; the path starts at the start bump's gcell. */
    method OpenNet(line: Line) returns (ctx: Option<EvalRoute.Ctx>)
      requires line != [] && !faulted
      modifies this`nets, this`faulted
      ensures |nets| == |old(nets)| + 1
      ensures var r := EvalRoute.Header(Env(), old(RouteState(None)), line);
        faulted == r.faulted && (!faulted ==> RouteState(ctx) == r)
    {
      var netIdx := line[0].num;
      nets := nets + [EvalRoute.Net(netIdx, 0, 0, 0, [])];
      var startBump := FindBump(chip1.bumps, netIdx);
      var endBump := FindBump(chip2.bumps, netIdx);
      if startBump.None? || chip1.bumps[startBump.value].gcell.None? {
        faulted := true;
        return None;
      }
      var start := chip1.bumps[startBump.value];
      nets := nets[|nets| - 1 := nets[|nets| - 1].(path := [start.gcell.value])];
      var end := if endBump.Some? then Some(chip2.bumps[endBump.value]) else None;
      ctx := Some(EvalRoute.Ctx(start, end, true, false, true));
    }

    /** The checks of a segment record, each logging its error when it fails, in the
        source's order: the start point (first segment only), direction, length, alignment. */
    method LogSegmentChecks(ctx: EvalRoute.Ctx, layer: Layer, idx: int, p1: Point, p2: Point, aligned: bool)
      modifies this`errors
      ensures errors == old(errors) + EvalRoute.RecordErrors(ctx, layer, idx, p1, p2, aligned)
    {
      if ctx.checkStart && ctx.start.position != p1 {
        errors := errors + [EvalRoute.StartMismatch(idx)];
      }
      ghost var errors1 := errors;
      LogLayerChecks(layer, idx, p1, p2, aligned);
      assert errors == errors1 + EvalRoute.SegmentErrors(layer, idx, p1, p2, aligned);
    }

    method LogLayerChecks(layer: Layer, idx: int, p1: Point, p2: Point, aligned: bool)
      modifies this`errors
      ensures errors == old(errors) + EvalRoute.SegmentErrors(layer, idx, p1, p2, aligned)
    {
      ghost var errors0 := errors;
      if layer == M1 {
        if p2.x != p1.x {
          errors := errors + [EvalRoute.M1Horizontal(idx)];
        }
        if p2.y == p1.y {
          errors := errors + [EvalRoute.M1ZeroLength(idx)];
        }
        if !aligned {
          errors := errors + [EvalRoute.M1Misaligned(idx)];
        }
      } else {
        if p2.y != p1.y {
          errors := errors + [EvalRoute.M2Vertical(idx)];
        }
        if p2.x == p1.x {
          errors := errors + [EvalRoute.M2ZeroLength(idx)];
        }
        if !aligned {
          errors := errors + [EvalRoute.M2Misaligned(idx)];
        }
      }
    }

    /** The walk loop a segment runs: up or right when the end lies beyond the start, else down or left. */
    method WalkSegment(layer: Layer, p1: Point, p2: Point, c1: CellRef, c2: CellRef, path0: seq<CellRef>, overflow0: nat)
      returns (path: seq<CellRef>, overflow: nat, ok: bool)
      modifies this`gcells
      ensures var w := WalkAll(Walk(old(gcells), path0, overflow0, true), layer, EvalRoute.SegmentSteps(layer, p1, p2, c1, c2));
        ok == w.ok && (ok ==> Walk(gcells, path, overflow, true) == w)
    {
      if layer == M1 {
        if p2.y > p1.y {
          path, overflow, ok := WalkForward(M1, c1.x, c1.y, c2.y, path0, overflow0);
        } else {
          path, overflow, ok := WalkBackward(M1, c1.x, c1.y, c2.y, path0, overflow0);
        }
      } else {
        if p2.x > p1.x {
          path, overflow, ok := WalkForward(M2, c1.y, c1.x, c2.x, path0, overflow0);
        } else {
          path, overflow, ok := WalkBackward(M2, c1.y, c1.x, c2.x, path0, overflow0);
        }
      }
    }

    /** An `M1` or `M2` record: the four coordinates, then the work of `RoutePoints`. A gcell
        of zero size is a division by zero. */
    method RouteSegment(layer: Layer, line: Line, ctx: EvalRoute.Ctx) returns (next: EvalRoute.Ctx)
      requires |nets| > 0 && !faulted
      modifies this`gcells, this`nets, this`errors, this`faulted
      ensures |nets| == |old(nets)|
      ensures var r := EvalRoute.Segment(Env(), old(RouteState(Some(ctx))), layer, line);
        faulted == r.faulted && (!faulted ==> RouteState(Some(next)) == r)
    {
      next := ctx;
      if gcellSize.x == 0 || gcellSize.y == 0 {
        faulted := true;
        return;
      }
      var x1, y1, x2, y2 := Field(line, 1, 0), Field(line, 2, 0), Field(line, 3, 0), Field(line, 4, 0);
      assert EvalRoute.SegmentEnds(line) == (Point(x1, y1), Point(x2, y2));
      next := RoutePoints(layer, Point(x1, y1), Point(x2, y2), ctx);
    }

    /** The gcells of a segment's two ends (`(x - llx) / gw`, `(y - lly) / gh`) and whether
        both ends lie on gcell corners. */
    method SegmentCells(p1: Point, p2: Point) returns (c1: CellRef, c2: CellRef, aligned: bool)
      requires gcellSize.x != 0 && gcellSize.y != 0
      ensures c1 == CellOf(p1, routingAreaLowerLeft, gcellSize) && c2 == CellOf(p2, routingAreaLowerLeft, gcellSize)
      ensures aligned == EvalRoute.Aligned(Env(), p1, p2)
    {
      c1 := CellRef(TruncDiv(p1.x - routingAreaLowerLeft.x, gcellSize.x), TruncDiv(p1.y - routingAreaLowerLeft.y, gcellSize.y));
      c2 := CellRef(TruncDiv(p2.x - routingAreaLowerLeft.x, gcellSize.x), TruncDiv(p2.y - routingAreaLowerLeft.y, gcellSize.y));
      aligned := TruncMod(p1.x - routingAreaLowerLeft.x, gcellSize.x) == 0 &&
                 TruncMod(p1.y - routingAreaLowerLeft.y, gcellSize.y) == 0 &&
                 TruncMod(p2.x - routingAreaLowerLeft.x, gcellSize.x) == 0 &&
                 TruncMod(p2.y - routingAreaLowerLeft.y, gcellSize.y) == 0;
    }

    /** A segment from `p1` to `p2`: their gcells, the start-point, direction, length and
        alignment checks, the wirelength, and the walk loop. Reading the cost of the first
        gcell is undefined behaviour when it lies outside the grid. */
    method RoutePoints(layer: Layer, p1: Point, p2: Point, ctx: EvalRoute.Ctx) returns (next: EvalRoute.Ctx)
      requires |nets| > 0 && !faulted && gcellSize.x != 0 && gcellSize.y != 0
      modifies this`gcells, this`nets, this`errors, this`faulted
      ensures |nets| == |old(nets)|
      ensures var r := EvalRoute.SegmentFrom(Env(), old(RouteState(Some(ctx))), layer, p1, p2);
        faulted == r.faulted && (!faulted ==> RouteState(Some(next)) == r)
    {
      ghost var g0, nets0, errors0, env := gcells, nets, errors, Env();
      ghost var s0 := EvalRoute.Lg(g0, nets0, errors0, Some(ctx), false);
      next := ctx;
      var c1, c2, aligned := SegmentCells(p1, p2);
      ghost var net := nets0[|nets0| - 1];
      ghost var w := WalkAll(Walk(g0, net.path, net.overflow, true), layer, EvalRoute.SegmentSteps(layer, p1, p2, c1, c2));
      ghost var errs := EvalRoute.RecordErrors(ctx, layer, net.idx, p1, p2, aligned);
      assert EvalRoute.SegmentFrom(env, s0, layer, p1, p2) == EvalRoute.SegmentResult(s0, layer, p1, p2, c1, w, errs);
      LogSegmentChecks(ctx, layer, nets[|nets| - 1].idx, p1, p2, aligned);
      if !ctx.passVia && !(0 <= c1.y < |gcells| && 0 <= c1.x < |gcells[c1.y]|) {
        faulted := true;
        assert Env() == env && old(RouteState(Some(ctx))) == s0;
        return;
      }
      WalkAndRecord(layer, p1, p2, c1, c2, w);
      next := ctx.(checkStart := false, passVia := false, lastM1 := layer == M1);
      assert Env() == env && old(RouteState(Some(ctx))) == s0;
    }

    /** The walk loop of a segment and the net's new wirelength, overflow and path; a walk
        that leaves the grid is undefined behaviour. */
    method WalkAndRecord(layer: Layer, p1: Point, p2: Point, c1: CellRef, c2: CellRef, ghost w: Walk)
      requires |nets| > 0 && !faulted
      requires w == WalkAll(Walk(gcells, nets[|nets| - 1].path, nets[|nets| - 1].overflow, true), layer,
        EvalRoute.SegmentSteps(layer, p1, p2, c1, c2))
      modifies this`gcells, this`nets, this`faulted
      ensures |nets| == |old(nets)|
      ensures var n := |old(nets)| - 1;
        var net := old(nets)[n];
        faulted == !w.ok &&
        (!faulted ==>
          gcells == w.grid &&
          nets == old(nets)[n := net.(wl := net.wl + EvalRoute.SegmentLength(layer, p1, p2), overflow := w.overflow, path := w.path)])
    {
      var n := |nets| - 1;
      var net := nets[n];
      var length := if layer == M1 then Abs(p2.y - p1.y) else Abs(p2.x - p1.x);
      var path, overflow, ok := WalkSegment(layer, p1, p2, c1, c2, net.path, net.overflow);
      if !ok {
        faulted := true;
        return;
      }
      nets := nets[n := net.(wl := net.wl + length, overflow := overflow, path := path)];
    }

    /** A `via` record: one more via, and the next segment starts on the other layer. */
    method ViaRecord(ctx: EvalRoute.Ctx) returns (next: EvalRoute.Ctx)
      requires |nets| > 0 && !faulted
      modifies this`nets
      ensures |nets| == |old(nets)|
      ensures RouteState(Some(next)) == EvalRoute.Via(old(RouteState(Some(ctx))))
    {
      var n := |nets| - 1;
      nets := nets[n := nets[n].(viaCount := nets[n].viaCount + 1)];
      next := ctx.(passVia := true);
    }

    /** `.end`: the end-point and last-layer checks; the inner loop is left. */
    method EndNet(ctx: EvalRoute.Ctx)
      requires |nets| > 0 && !faulted
      modifies this`errors, this`faulted
      ensures var r := EvalRoute.End(old(RouteState(Some(ctx))));
        faulted == r.faulted && (!faulted ==> RouteState(None) == r)
    {
      var net := nets[|nets| - 1];
      if ctx.end.None? || net.path == [] {
        faulted := true;
        return;
      }
      var latest := net.path[|net.path| - 1];
      if !(0 <= latest.y < |gcells| && 0 <= latest.x < |gcells[latest.y]|) {
        faulted := true;
        return;
      }
      ghost var errors0 := errors;
      if gcells[latest.y][latest.x].lowerLeft != ctx.end.value.position {
        errors := errors + [EvalRoute.EndMismatch(net.idx)];
      }
      ghost var errors1 := errors;
      if ctx.passVia {
        if ctx.lastM1 {
          errors := errors + [EvalRoute.LastNotM1(net.idx)];
        }
      } else {
        if !ctx.lastM1 {
          errors := errors + [EvalRoute.LastNotM1(net.idx)];
        }
      }
      assert errors == errors0 + (errors1[|errors0|..] + errors[|errors1|..]);
    }

    /** `loadLG`: the outer loop reads a net header, the inner loop the net's records up to
        `.end`; both read the same stream, so they are one loop here whose local `ctx` is
        `None` while a header is expected. */
    method LoadLG(lines: seq<Line>)
      modifies this`gcells, this`nets, this`errors, this`faulted
      ensures old(faulted) ==> faulted
      ensures var r := EvalRoute.Run(Env(), old(RouteState(None)), lines);
        faulted == r.faulted && (!faulted ==> gcells == r.grid && nets == r.nets && errors == r.errors)
    {
      ghost var start := RouteState(None);
      if faulted {
        EvalRoute.FaultedRun(Env(), start, lines);
        return;
      }
      var ctx: Option<EvalRoute.Ctx> := None;
      var i := 0;
      while i < |lines|
        invariant 0 <= i <= |lines| && !faulted
        invariant ctx.Some? ==> |nets| > 0
        invariant EvalRoute.Run(Env(), RouteState(ctx), lines[i..]) == EvalRoute.Run(Env(), start, lines)
      {
        var line := lines[i];
        ghost var before := RouteState(ctx);
        assert lines[i..][1..] == lines[i + 1..];
        if line != [] {
          if ctx.None? {
            ctx := OpenNet(line);
          } else {
            var command := line[0].text;
            if command == "M1" {
              var next := RouteSegment(M1, line, ctx.value);
              ctx := Some(next);
            } else if command == "M2" {
              var next := RouteSegment(M2, line, ctx.value);
              ctx := Some(next);
            } else if command == "via" {
              var next := ViaRecord(ctx.value);
              ctx := Some(next);
            } else if command == ".end" {
              EndNet(ctx.value);
              ctx := None;
            } else {
              errors := errors + [EvalRoute.UnknownCommand(command)];
            }
          }
          if faulted {
            EvalRoute.FaultedRun(Env(), EvalRoute.Step(Env(), before, line), lines[i + 1..]);
            return;
          }
        }
        assert RouteState(ctx) == EvalRoute.Step(Env(), before, line);
        i := i + 1;
      }
      assert lines[i..] == [];
    }

    /** The integer columns of `printCosts`' "Total" row. */
    method PrintTotals() returns (wl: int, overflow: nat, viaCount: nat)
      ensures wl == EvalRoute.SumWL(nets) && overflow == EvalRoute.SumOverflow(nets) && viaCount == EvalRoute.SumVia(nets)
    {
      wl, overflow, viaCount := 0, 0, 0;
      var i := 0;
      while i < |nets|
        invariant 0 <= i <= |nets|
        invariant wl == EvalRoute.SumWL(nets[..i]) && overflow == EvalRoute.SumOverflow(nets[..i]) &&
                  viaCount == EvalRoute.SumVia(nets[..i])
      {
        assert nets[..i + 1][..i] == nets[..i];
        wl := wl + nets[i].wl;
        overflow := overflow + nets[i].overflow;
        viaCount := viaCount + nets[i].viaCount;
        i := i + 1;
      }
      assert nets[..i] == nets;
    }
  }

  /** The evaluator's `main`: load the four files in order and total the nets. When no load
      ran into undefined behaviour, the total overflow is the grid's total edge excess:
      every crossing of a full edge was counted once, by the net that made it. */
  method Evaluate(gmp: seq<Line>, gcl: seq<Line>, cst: seq<Line>, lg: seq<Line>)
    returns (e: Evaluator, wl: int, overflow: nat, viaCount: nat)
    ensures fresh(e)
    ensures wl == EvalRoute.SumWL(e.nets) && overflow == EvalRoute.SumOverflow(e.nets) && viaCount == EvalRoute.SumVia(e.nets)
    ensures !e.faulted ==> overflow == GridExcess(e.gcells)
  {
    e := new Evaluator();
    ghost var p := EvalPlacement.Run(e.Placement(EvalPlacement.LoadingCommand, false), gmp);
    e.LoadGridMap(gmp);
    if !e.faulted {
      FreshIsUncrossed(e.gcells, GridRows(p.areaSize, p.gcellSize), ColsOrZero(p.areaSize, p.gcellSize), p.gcellSize, p.origin);
    }
    ghost var g1 := e.gcells;
    ghost var f1 := e.faulted;
    e.LoadGCells(gcl);
    if !e.faulted {
      if f1 {
        Loaders.GclFaultedRun(Loaders.Gcl(Loaders.GclCommand, 0, g1, f1), gcl, 0);
      }
      Loaders.GclKeepsCounts(Loaders.Gcl(Loaders.GclCommand, 0, g1, f1), gcl, 0);
      SameCountsUncrossed(e.gcells, g1);
    }
    ghost var g2 := e.gcells;
    ghost var f2 := e.faulted;
    e.LoadCost(cst);
    if !e.faulted {
      ghost var s := Loaders.Cst(Loaders.CstCommand, 0, 0, g2, f2 || g2 == []);
      if f2 {
        Loaders.CstFaultedRun(s, cst, Loaders.EvaluatorCosts);
      }
      Loaders.CstKeepsCounts(s, cst, Loaders.EvaluatorCosts);
      SameCountsUncrossed(e.gcells, g2);
    }
    ghost var g3 := e.gcells;
    ghost var env := e.Env();
    e.LoadLG(lg);
    if !e.faulted {
      EvalRoute.OverflowIsExcess(env, g3, lg);
    }
    wl, overflow, viaCount := e.PrintTotals();
  }
}
