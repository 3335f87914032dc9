/** `class Router` of src/router.cpp: its placement loader as written, which takes the first
    token of every line as a command before looking at its state (so data lines are read from
    their second token), never clears `chip1Loaded`, places bumps against the routing-area
    corner and never leaves the bump state; and its capacity and cost loaders, which run the
    machines of `Loaders` with fields starting at the second token. `route` and `run` are
    logging stubs in the source and are not modelled. */
module Router {
  import opened Common
  import opened Grid
  import EvalPlacement
  import Loaders

  /** The loop's `state` and `chip1Loaded`, and the members it writes. */
  datatype Rmp = Rmp(mode: EvalPlacement.Mode, chip1Loaded: bool, origin: Point, areaSize: Point,
                     gcellSize: Point, chip1: Chip, chip2: Chip)

  /** A chip data line, after its first token: offset into locals (0 when missing), size into
      the chip (kept when missing). */
  function LoadChip(c: Chip, line: Line, origin: Point): (r: Chip)
    ensures r.bumps == c.bumps
    ensures r.lowerLeft == Point(Field(line, 1, 0) + origin.x, Field(line, 2, 0) + origin.y)
    ensures r.size == Point(Field(line, 3, c.size.x), Field(line, 4, c.size.y))
  {
    c.(lowerLeft := Point(Field(line, 1, 0) + origin.x, Field(line, 2, 0) + origin.y),
       size := Point(Field(line, 3, c.size.x), Field(line, 4, c.size.y)))
  }

  /** A bump line after its first token: index and offset, relative to the routing-area corner. */
  function BumpOf(line: Line, origin: Point): Bump {
    Bump(Field(line, 1, 0), Point(Field(line, 2, 0) + origin.x, Field(line, 3, 0) + origin.y), None)
  }

  /** One iteration of the read loop; `line[0]` is always the consumed `command`. */
  function Step(s: Rmp, line: Line): Rmp {
    if line == [] then s
    else match s.mode
      case LoadingCommand =>
        var cmd := line[0].text;
        if cmd == ".ra" then s.(mode := EvalPlacement.LoadingRoutingArea)
        else if cmd == ".g" then s.(mode := EvalPlacement.LoadingGCellSize)
        else if cmd == ".c" then
          (if s.chip1Loaded then s.(mode := EvalPlacement.LoadingChip2)
           else s.(mode := EvalPlacement.LoadingChip1, chip1Loaded := true))
        else if cmd == ".b" then s.(mode := EvalPlacement.LoadingBump)
        else s
      case LoadingRoutingArea =>
        s.(origin := Point(Field(line, 1, s.origin.x), Field(line, 2, s.origin.y)),
           areaSize := Point(Field(line, 3, s.areaSize.x), Field(line, 4, s.areaSize.y)),
           mode := EvalPlacement.LoadingCommand)
      case LoadingGCellSize =>
        s.(gcellSize := Point(Field(line, 1, s.gcellSize.x), Field(line, 2, s.gcellSize.y)),
           mode := EvalPlacement.LoadingCommand)
      case LoadingChip1 => s.(chip1 := LoadChip(s.chip1, line, s.origin), mode := EvalPlacement.LoadingCommand)
      case LoadingChip2 => s.(chip2 := LoadChip(s.chip2, line, s.origin), mode := EvalPlacement.LoadingCommand)
      case LoadingBump =>
        if s.chip1Loaded then s.(chip2 := s.chip2.(bumps := s.chip2.bumps + [BumpOf(line, s.origin)]))
        else s.(chip1 := s.chip1.(bumps := s.chip1.bumps + [BumpOf(line, s.origin)]))
  }

  function Run(s: Rmp, lines: seq<Line>): Rmp
    decreases lines
  {
    if lines == [] then s else Run(Step(s, lines[0]), lines[1..])
  }

  // ---------------------------------------------------------------- properties

  /** The first token of a data line is lost: a routing-area line `x y w h` sets the corner to
      `(y, w)` and the width to `h`, and leaves the height as it was. */
  lemma AreaLineShifted(s: Rmp, x: Token, y: Token, w: Token, h: Token)
    requires s.mode == EvalPlacement.LoadingRoutingArea
    ensures var r := Step(s, [x, y, w, h]);
      r.origin == Point(y.num, w.num) && r.areaSize == Point(h.num, s.areaSize.y) &&
      r.mode == EvalPlacement.LoadingCommand
  {
  }

  /** `chip1Loaded` is never cleared. */
  lemma {:induction false} Chip1LoadedSticks(s: Rmp, lines: seq<Line>)
    requires s.chip1Loaded
    ensures Run(s, lines).chip1Loaded
    decreases lines
  {
    if lines != [] {
      Chip1LoadedSticks(Step(s, lines[0]), lines[1..]);
    }
  }

  /** Nothing leaves the bump state: every later line, whatever its command, is read as a bump. */
  lemma {:induction false} BumpStateAbsorbs(s: Rmp, lines: seq<Line>)
    requires s.mode == EvalPlacement.LoadingBump
    ensures Run(s, lines).mode == EvalPlacement.LoadingBump
    ensures Run(s, lines).origin == s.origin && Run(s, lines).chip1Loaded == s.chip1Loaded
    decreases lines
  {
    if lines != [] {
      BumpStateAbsorbs(Step(s, lines[0]), lines[1..]);
    }
  }

  /** The first `.c` selects chip1 and sets the flag; every later `.c` selects chip2. */
  lemma ChipCommand(s: Rmp, c: Line)
    requires s.mode == EvalPlacement.LoadingCommand && c != [] && c[0].text == ".c"
    ensures Step(s, c).chip1Loaded
    ensures Step(s, c).mode == if s.chip1Loaded then EvalPlacement.LoadingChip2 else EvalPlacement.LoadingChip1
  {
  }

  /** Once the flag is set, each non-blank line in the bump state is pushed to chip2, at its
      offset plus the routing-area corner, and chip1 is untouched. */
  lemma BumpToChip2(s: Rmp, line: Line)
    requires s.mode == EvalPlacement.LoadingBump && s.chip1Loaded && line != []
    ensures Step(s, line).chip2.bumps == s.chip2.bumps + [Bump(Field(line, 1, 0), Point(Field(line, 2, 0) + s.origin.x, Field(line, 3, 0) + s.origin.y), None)]
    ensures Step(s, line).chip1 == s.chip1
  {
  }

  /** The bumps of a `.b` block that follows the first `.c` all go to chip2: for the file
      `.c` / chip line / `.b` / one bump line, chip1 ends with no bump and chip2 with the bump,
      while the evaluator's loader gives that bump to chip1. */
  lemma BumpsOfChip1Misrouted(c: Line, chip: Line, b: Line, bump: Line, s: Rmp, e: EvalPlacement.Gmp)
    requires c == [Token(".c", 0)] && b == [Token(".b", 0)]
    requires chip != [] && bump != []
    requires s.mode == EvalPlacement.LoadingCommand && !s.chip1Loaded && s.chip1.bumps == [] && s.chip2.bumps == []
    requires e.mode == EvalPlacement.LoadingCommand && !e.loadingChip1 && e.chip1.bumps == [] && e.chip2.bumps == []
    ensures Run(s, [c, chip, b, bump]).chip1.bumps == []
    ensures |Run(s, [c, chip, b, bump]).chip2.bumps| == 1
    ensures |EvalPlacement.Run(e, [c, chip, b, bump]).chip1.bumps| == 1
    ensures EvalPlacement.Run(e, [c, chip, b, bump]).chip2.bumps == []
  {
    var s1 := Step(s, c);
    var s2 := Step(s1, chip);
    var s3 := Step(s2, b);
    assert s3.mode == EvalPlacement.LoadingBump && s3.chip1Loaded;
    assert [c, chip, b, bump][1..] == [chip, b, bump];
    assert [chip, b, bump][1..] == [b, bump];
    assert [b, bump][1..] == [bump];
    assert Run(s3, [bump]) == Step(s3, bump);
    assert Run(s2, [b, bump]) == Run(s3, [bump]);
    assert Run(s1, [chip, b, bump]) == Run(s2, [b, bump]);
    assert Run(s, [c, chip, b, bump]) == Run(s1, [chip, b, bump]);
    var e1 := EvalPlacement.Step(e, c);
    var e2 := EvalPlacement.Step(e1, chip);
    var e3 := EvalPlacement.Step(e2, b);
    assert e3.mode == EvalPlacement.LoadingBump && e3.loadingChip1;
    assert EvalPlacement.Run(e3, [bump]) == EvalPlacement.Step(e3, bump);
    assert EvalPlacement.Run(e2, [b, bump]) == EvalPlacement.Run(e3, [bump]);
    assert EvalPlacement.Run(e1, [chip, b, bump]) == EvalPlacement.Run(e2, [b, bump]);
    assert EvalPlacement.Run(e, [c, chip, b, bump]) == EvalPlacement.Run(e1, [chip, b, bump]);
  }

  class Router {
    var routingAreaLowerLeft: Point
    var routingAreaSize: Point
    var gcellSize: Point
    var chip1: Chip
    var chip2: Chip
    var gcells: Grid
    /** Set once the source would have undefined behaviour; every later load is skipped. */
    var faulted: bool

    /** The source's constructor leaves the scalar members indeterminate; they start at 0 here. */
    constructor()
      ensures routingAreaLowerLeft == Point(0, 0) && routingAreaSize == Point(0, 0) && gcellSize == Point(0, 0)
      ensures chip1 == EmptyChip && chip2 == EmptyChip && gcells == [] && !faulted
    {
      routingAreaLowerLeft, routingAreaSize, gcellSize := Point(0, 0), Point(0, 0), Point(0, 0);
      chip1, chip2 := EmptyChip, EmptyChip;
      gcells := [];
      faulted := false;
    }

    function Placement(mode: EvalPlacement.Mode, chip1Loaded: bool): Rmp
      reads this
    {
      Rmp(mode, chip1Loaded, routingAreaLowerLeft, routingAreaSize, gcellSize, chip1, chip2)
    }

    /** One line of the read loop of `Router::loadGridMap`. */
    method PlacementStep(line: Line, mode0: EvalPlacement.Mode, chip1Loaded0: bool)
      returns (mode: EvalPlacement.Mode, chip1Loaded: bool)
      modifies this`routingAreaLowerLeft, this`routingAreaSize, this`gcellSize, this`chip1, this`chip2
      ensures Placement(mode, chip1Loaded) == Step(old(Placement(mode0, chip1Loaded0)), line)
    {
      mode, chip1Loaded := mode0, chip1Loaded0;
      if line != [] {
        var command := line[0].text;
        match mode
        case LoadingCommand =>
          if command == ".ra" {
            mode := EvalPlacement.LoadingRoutingArea;
          } else if command == ".g" {
            mode := EvalPlacement.LoadingGCellSize;
          } else if command == ".c" {
            if chip1Loaded {
              mode := EvalPlacement.LoadingChip2;
            } else {
              mode := EvalPlacement.LoadingChip1;
              chip1Loaded := true;
            }
          } else if command == ".b" {
            mode := EvalPlacement.LoadingBump;
          }
        case LoadingRoutingArea =>
          routingAreaLowerLeft := Point(Field(line, 1, routingAreaLowerLeft.x), Field(line, 2, routingAreaLowerLeft.y));
          routingAreaSize := Point(Field(line, 3, routingAreaSize.x), Field(line, 4, routingAreaSize.y));
          mode := EvalPlacement.LoadingCommand;
        case LoadingGCellSize =>
          gcellSize := Point(Field(line, 1, gcellSize.x), Field(line, 2, gcellSize.y));
          mode := EvalPlacement.LoadingCommand;
        case LoadingChip1 =>
          var x, y := Field(line, 1, 0), Field(line, 2, 0);
          chip1 := chip1.(size := Point(Field(line, 3, chip1.size.x), Field(line, 4, chip1.size.y)),
                          lowerLeft := Point(x + routingAreaLowerLeft.x, y + routingAreaLowerLeft.y));
          mode := EvalPlacement.LoadingCommand;
        case LoadingBump =>
          var bidx, bumpX, bumpY := Field(line, 1, 0), Field(line, 2, 0), Field(line, 3, 0);
          var bump := Bump(bidx, Point(bumpX + routingAreaLowerLeft.x, bumpY + routingAreaLowerLeft.y), None);
          if chip1Loaded {
            chip2 := chip2.(bumps := chip2.bumps + [bump]);
          } else {
            chip1 := chip1.(bumps := chip1.bumps + [bump]);
          }
        case LoadingChip2 =>
          var x, y := Field(line, 1, 0), Field(line, 2, 0);
          chip2 := chip2.(size := Point(Field(line, 3, chip2.size.x), Field(line, 4, chip2.size.y)),
                          lowerLeft := Point(x + routingAreaLowerLeft.x, y + routingAreaLowerLeft.y));
          mode := EvalPlacement.LoadingCommand;
      }
    }

    /** The read loop of `Router::loadGridMap`. */
    method ReadPlacement(lines: seq<Line>) returns (mode: EvalPlacement.Mode, chip1Loaded: bool)
      modifies this`routingAreaLowerLeft, this`routingAreaSize, this`gcellSize, this`chip1, this`chip2
      ensures Placement(mode, chip1Loaded) == Run(old(Placement(EvalPlacement.LoadingCommand, false)), lines)
    {
      mode := EvalPlacement.LoadingCommand;
      chip1Loaded := false;
      ghost var p0 := Placement(mode, chip1Loaded);
      var i := 0;
      while i < |lines|
        invariant 0 <= i <= |lines|
        invariant Run(Placement(mode, chip1Loaded), lines[i..]) == Run(p0, lines)
      {
        mode, chip1Loaded := PlacementStep(lines[i], mode, chip1Loaded);
        assert lines[i..][1..] == lines[i + 1..];
        i := i + 1;
      }
      assert lines[i..] == [];
    }

    /** `Router::loadGridMap`: the read loop, then the same grid build, links, sort and bump
        mapping as the evaluator's. */
    method LoadGridMap(lines: seq<Line>)
      modifies this
      ensures old(faulted) ==> faulted && unchanged(this)
      ensures !old(faulted) ==>
        var r := Run(old(Placement(EvalPlacement.LoadingCommand, false)), lines);
        routingAreaLowerLeft == r.origin && routingAreaSize == r.areaSize && gcellSize == r.gcellSize &&
        chip1.lowerLeft == r.chip1.lowerLeft && chip1.size == r.chip1.size &&
        chip2.lowerLeft == r.chip2.lowerLeft && chip2.size == r.chip2.size &&
        faulted == GridFault(r.origin, r.areaSize, r.gcellSize, r.chip1.bumps, r.chip2.bumps) &&
        (!faulted ==>
          GridRows(r.areaSize, r.gcellSize) >= 0 &&
          FreshGrid(gcells, GridRows(r.areaSize, r.gcellSize), ColsOrZero(r.areaSize, r.gcellSize), r.gcellSize, r.origin) &&
          Attached(chip1.bumps, r.chip1.bumps, gcells, r.origin, r.gcellSize) &&
          Attached(chip2.bumps, r.chip2.bumps, gcells, r.origin, r.gcellSize))
    {
      if faulted {
        return;
      }
      ghost var p0 := Placement(EvalPlacement.LoadingCommand, false);
      var mode, chip1Loaded := ReadPlacement(lines);
      assert Placement(mode, chip1Loaded) == Run(p0, lines);
      var ok, g, sorted1, sorted2 := FinishPlacement(routingAreaLowerLeft, routingAreaSize, gcellSize, chip1.bumps, chip2.bumps);
      if !ok {
        faulted := true;
        return;
      }
      gcells := g;
      chip1 := chip1.(bumps := sorted1);
      chip2 := chip2.(bumps := sorted2);
    }

    /** `Router::loadGCells`: as the evaluator's, with a record's fields after its first token. */
    method LoadGCells(lines: seq<Line>)
      modifies this`gcells, this`faulted
      ensures var r := Loaders.GclRun(Loaders.Gcl(Loaders.GclCommand, 0, old(gcells), old(faulted)), lines, 1);
        faulted == r.faulted && (!faulted ==> gcells == r.grid)
    {
      ghost var start := Loaders.Gcl(Loaders.GclCommand, 0, gcells, faulted);
      if faulted {
        Loaders.GclFaultedRun(start, lines, 1);
        return;
      }
      var mode := Loaders.GclCommand;
      var loadedGCellCount := 0;
      var i := 0;
      while i < |lines|
        invariant 0 <= i <= |lines| && !faulted
        invariant Loaders.GclRun(Loaders.Gcl(mode, loadedGCellCount, gcells, false), lines[i..], 1) ==
                  Loaders.GclRun(start, lines, 1)
      {
        var line := lines[i];
        ghost var before := Loaders.Gcl(mode, loadedGCellCount, gcells, false);
        assert lines[i..][1..] == lines[i + 1..];
        if line != [] {
          var command := line[0].text;
          if mode == Loaders.GclCommand {
            if command == ".ec" {
              mode := Loaders.GclLoading;
            }
          } else {
            var cols := if |gcells| == 0 then 0 else |gcells[0]|;
            if cols == 0 {
              faulted := true;
              Loaders.GclFaultedRun(Loaders.GclStep(before, line, 1), lines[i + 1..], 1);
              return;
            }
            var y, x := loadedGCellCount / cols, loadedGCellCount % cols;
            if y >= |gcells| || x >= |gcells[y]| {
              faulted := true;
              Loaders.GclFaultedRun(Loaders.GclStep(before, line, 1), lines[i + 1..], 1);
              return;
            }
            var leftEdgeCapacity, bottomEdgeCapacity := Field(line, 1, 0), Field(line, 2, 0);
            var gcell := gcells[y][x].(leftEdgeCapacity := ToUnsigned(leftEdgeCapacity),
                                       bottomEdgeCapacity := ToUnsigned(bottomEdgeCapacity));
            gcells := gcells[y := gcells[y][x := gcell]];
            loadedGCellCount := loadedGCellCount + 1;
          }
        }
        assert Loaders.Gcl(mode, loadedGCellCount, gcells, false) == Loaders.GclStep(before, line, 1);
        i := i + 1;
      }
      assert lines[i..] == [];
    }

    /** `Router::loadCost`, row and layer walk: layer values after the line's first token. */
    method LoadCost(lines: seq<Line>)
      modifies this`gcells, this`faulted
      ensures var r := Loaders.CstRun(Loaders.Cst(Loaders.CstCommand, 0, 0, old(gcells), old(faulted)), lines, Loaders.RouterCosts);
        faulted == r.faulted && (!faulted ==> gcells == r.grid)
    {
      ghost var start := Loaders.Cst(Loaders.CstCommand, 0, 0, gcells, faulted);
      if faulted {
        Loaders.CstFaultedRun(start, lines, Loaders.RouterCosts);
        return;
      }
      var mode := Loaders.CstCommand;
      var currentRow: nat := 0;
      var currentLayer: nat := 0;
      var i := 0;
      while i < |lines|
        invariant 0 <= i <= |lines| && !faulted
        invariant Loaders.CstRun(Loaders.Cst(mode, currentRow, currentLayer, gcells, false), lines[i..], Loaders.RouterCosts) ==
                  Loaders.CstRun(start, lines, Loaders.RouterCosts)
      {
        var line := lines[i];
        ghost var before := Loaders.Cst(mode, currentRow, currentLayer, gcells, false);
        assert lines[i..][1..] == lines[i + 1..];
        if line != [] {
          var command := line[0].text;
          match mode
          case CstCommand =>
            if command == ".l" {
              mode := Loaders.CstLayer;
            } else if command == ".v" {
              mode := Loaders.CstViaCost;
            }
          case CstViaCost =>
            mode := Loaders.CstCommand;
          case CstLayer =>
            if currentRow >= |gcells| {
              faulted := true;
              Loaders.CstFaultedRun(Loaders.CstStep(before, line, Loaders.RouterCosts), lines[i + 1..], Loaders.RouterCosts);
              return;
            }
            var row := Loaders.FillIntCostRow(gcells[currentRow], line, currentLayer);
            gcells := gcells[currentRow := row];
            currentRow := currentRow + 1;
            if currentRow == |gcells| {
              currentRow := 0;
              currentLayer := currentLayer + 1;
              mode := Loaders.CstCommand;
            }
        }
        assert Loaders.Cst(mode, currentRow, currentLayer, gcells, false) == Loaders.CstStep(before, line, Loaders.RouterCosts);
        i := i + 1;
      }
      assert lines[i..] == [];
    }
  }
}
