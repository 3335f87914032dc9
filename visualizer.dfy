/** The `Visualizer` object of visualizer/visualizer.py: attributes that the three loaders fill
    in place. Each loader pops lines off the front of a list and, in the bump and cost states,
    pushes a command line back for the command state to read; each is proved to end in the state
    the corresponding fold of `VisPlacement`, `VisCosts` or `VisRoutes` computes. */
module Visualizer {
  import opened Common
  import VisPlacement
  import VisCosts
  import VisRoutes

  class Visualizer {
    var routingAreaLowerLeft: Option<Point>
    var routingAreaSize: Option<Point>
    var gridSize: Option<Point>
    var chip1LowerLeft: Option<Point>
    var chip1WidthHeight: Option<Point>
    var chip2LowerLeft: Option<Point>
    var chip2WidthHeight: Option<Point>
    var chip1Bumps: seq<VisPlacement.VBump>
    var chip2Bumps: seq<VisPlacement.VBump>
    /** `costM1_map[y][x]`: each row as the tokens of its line. */
    var costM1Map: seq<Line>
    var costM2Map: seq<Line>
    var routes: map<int, seq<Point>>
    /** An exception was raised or `sys.exit` called: the program has stopped. */
    var failed: bool

    constructor ()
      ensures routingAreaLowerLeft.None? && routingAreaSize.None? && gridSize.None?
      ensures chip1LowerLeft.None? && chip1WidthHeight.None? && chip2LowerLeft.None? && chip2WidthHeight.None?
      ensures chip1Bumps == [] && chip2Bumps == [] && costM1Map == [] && costM2Map == []
      ensures routes == map[] && !failed
    {
      routingAreaLowerLeft := None;
      routingAreaSize := None;
      gridSize := None;
      chip1LowerLeft := None;
      chip1WidthHeight := None;
      chip2LowerLeft := None;
      chip2WidthHeight := None;
      chip1Bumps := [];
      chip2Bumps := [];
      costM1Map := [];
      costM2Map := [];
      routes := map[];
      failed := false;
    }

    /** The placement attributes together with `load_grid_map`'s loop variables. */
    function Placement(mode: VisPlacement.VMode, chip1Loaded: bool): VisPlacement.Vmp
      reads this
    {
      VisPlacement.Vmp(mode, chip1Loaded, routingAreaLowerLeft, routingAreaSize, gridSize,
                       chip1LowerLeft, chip1WidthHeight, chip2LowerLeft, chip2WidthHeight,
                       chip1Bumps, chip2Bumps, failed)
    }

    function Costs(mode: VisCosts.CMode, m1Loaded: bool): VisCosts.Vcst
      reads this
    {
      VisCosts.Vcst(mode, m1Loaded, costM1Map, costM2Map)
    }

    function Routing(mode: VisRoutes.RMode, routeIdx: int): VisRoutes.Vlg
      reads this
    {
      VisRoutes.Vlg(mode, routeIdx, routes, failed)
    }

    /** One non-blank line of `load_grid_map` in state `state`. A command line met in a bump
        state is left for the caller to push back (`pushBack`); every other line is read. */
    method PlacementLine(state: VisPlacement.VMode, chip1Loaded: bool, line: Line)
      returns (next: VisPlacement.VMode, loaded: bool, pushBack: bool)
      requires !failed && line != []
      modifies this
      ensures pushBack ==> VisPlacement.InBumps(state) && IsDotToken(line[0])
      ensures pushBack ==> next == VisPlacement.Command && Placement(next, loaded) == old(Placement(VisPlacement.Command, chip1Loaded))
      ensures !pushBack ==> Placement(next, loaded) == VisPlacement.Step(old(Placement(state, chip1Loaded)), line)
      ensures costM1Map == old(costM1Map) && costM2Map == old(costM2Map) && routes == old(routes)
    {
      if VisPlacement.InBumps(state) && IsDotToken(line[0]) {
        next, loaded, pushBack := VisPlacement.Command, chip1Loaded, true;
      } else if VisPlacement.InBumps(state) {
        next, loaded := BumpPlacementLine(state, chip1Loaded, line);
        pushBack := false;
      } else {
        next, loaded := HeaderPlacementLine(state, chip1Loaded, line);
        pushBack := false;
      }
    }

    /** A line read in a command, routing-area, grid-size or chip state. */
    method HeaderPlacementLine(state: VisPlacement.VMode, chip1Loaded: bool, line: Line)
      returns (next: VisPlacement.VMode, loaded: bool)
      requires !failed && line != [] && !VisPlacement.InBumps(state)
      modifies this`routingAreaLowerLeft, this`routingAreaSize, this`gridSize,
               this`chip1LowerLeft, this`chip1WidthHeight, this`chip2LowerLeft, this`chip2WidthHeight, this`failed
      ensures Placement(next, loaded) == VisPlacement.Step(old(Placement(state, chip1Loaded)), line)
    {
      next, loaded := state, chip1Loaded;
      if state == VisPlacement.Command {
        var t := line[0].text;
        if t == ".ra" {
          next := VisPlacement.RoutingArea;
        } else if t == ".g" {
          next := VisPlacement.GridSize;
        } else if t == ".c" {
          next := if chip1Loaded then VisPlacement.Chip2 else VisPlacement.Chip1;
        } else if t == ".b" {
          if !chip1Loaded {
            next := VisPlacement.Chip1Bumps;
            loaded := true;
          } else {
            next := VisPlacement.Chip2Bumps;
          }
        }
      } else if state == VisPlacement.RoutingArea {
        if |line| < 4 {
          failed := true;
          return;
        }
        routingAreaLowerLeft := Some(Point(line[0].num, line[1].num));
        routingAreaSize := Some(Point(line[2].num, line[3].num));
        next := VisPlacement.Command;
      } else if state == VisPlacement.GridSize {
        if |line| < 2 {
          failed := true;
          return;
        }
        gridSize := Some(Point(line[0].num, line[1].num));
        next := VisPlacement.Command;
      } else if state == VisPlacement.Chip1 || state == VisPlacement.Chip2 {
        if |line| < 4 || routingAreaLowerLeft.None? {
          failed := true;
          return;
        }
        var ll := VisPlacement.Corner(line, routingAreaLowerLeft.value);
        if state == VisPlacement.Chip1 {
          chip1LowerLeft := Some(ll);
          chip1WidthHeight := Some(Point(line[2].num, line[3].num));
        } else {
          chip2LowerLeft := Some(ll);
          chip2WidthHeight := Some(Point(line[2].num, line[3].num));
        }
        next := VisPlacement.Command;
      }
    }

    /** A line that is not a command, read in a bump state. */
    method BumpPlacementLine(state: VisPlacement.VMode, chip1Loaded: bool, line: Line)
      returns (next: VisPlacement.VMode, loaded: bool)
      requires !failed && line != [] && VisPlacement.InBumps(state) && !IsDotToken(line[0])
      modifies this`chip1Bumps, this`chip2Bumps, this`failed
      ensures Placement(next, loaded) == VisPlacement.Step(old(Placement(state, chip1Loaded)), line)
    {
      next, loaded := state, chip1Loaded;
      if state == VisPlacement.Chip1Bumps {
        if |line| < 3 || chip1LowerLeft.None? {
          failed := true;
          return;
        }
        chip1Bumps := chip1Bumps + [VisPlacement.BumpOf(line, chip1LowerLeft.value)];
      } else {
        if |line| < 3 || chip2LowerLeft.None? {
          failed := true;
          return;
        }
        chip2Bumps := chip2Bumps + [VisPlacement.BumpOf(line, chip2LowerLeft.value)];
      }
    }

    /** `load_grid_map`: the placement attributes become those of the fold over the file. */
    method LoadGridMap(input: seq<Line>)
      modifies this
      ensures var r := VisPlacement.Run(old(Placement(VisPlacement.Command, false)), input);
        failed == r.failed && (!failed ==> Placement(r.mode, r.chip1Loaded) == r)
      ensures costM1Map == old(costM1Map) && costM2Map == old(costM2Map) && routes == old(routes)
    {
      ghost var start := Placement(VisPlacement.Command, false);
      if failed {
        VisPlacement.FailedRun(start, input);
        return;
      }
      var lines := input;
      var state := VisPlacement.Command;
      var chip1Loaded := false;
      while lines != []
        invariant !failed
        invariant VisPlacement.Run(Placement(state, chip1Loaded), lines) == VisPlacement.Run(start, input)
        invariant costM1Map == old(costM1Map) && costM2Map == old(costM2Map) && routes == old(routes)
        decreases 2 * |lines| + (if VisPlacement.InBumps(state) then 1 else 0)
      {
        ghost var before := Placement(state, chip1Loaded);
        ghost var all := lines;
        var line := lines[0];
        lines := lines[1..];
        assert all[1..] == lines;
        if line != [] {
          var pushBack;
          state, chip1Loaded, pushBack := PlacementLine(state, chip1Loaded, line);
          if pushBack {
            // the command line goes back to the front and is read again in command state
            lines := [line] + lines;
            assert ([line] + all[1..])[1..] == all[1..];
            VisPlacement.PushedBackLine(before, line);
          } else if failed {
            VisPlacement.FailedRun(Placement(state, chip1Loaded), lines);
            return;
          }
        }
      }
    }

    /** `load_costs`: the two cost tables become those of the fold over the file. After an
        earlier loader has failed the script has stopped, and nothing is read. */
    method LoadCosts(input: seq<Line>)
      modifies this
      ensures var r := VisCosts.Run(old(Costs(VisCosts.Command, false)), input);
        !failed ==> costM1Map == r.costM1Map && costM2Map == r.costM2Map
      ensures failed ==> costM1Map == old(costM1Map) && costM2Map == old(costM2Map)
      ensures routingAreaLowerLeft == old(routingAreaLowerLeft) && chip1Bumps == old(chip1Bumps)
      ensures chip2Bumps == old(chip2Bumps) && routes == old(routes) && failed == old(failed)
    {
      if failed {
        return;
      }
      ghost var start := Costs(VisCosts.Command, false);
      var lines := input;
      var state := VisCosts.Command;
      var m1Loaded := false;
      while lines != []
        invariant VisCosts.Run(Costs(state, m1Loaded), lines) == VisCosts.Run(start, input)
        invariant routingAreaLowerLeft == old(routingAreaLowerLeft) && chip1Bumps == old(chip1Bumps)
        invariant chip2Bumps == old(chip2Bumps) && routes == old(routes) && failed == old(failed)
        decreases 2 * |lines| + (if state == VisCosts.CostM1 || state == VisCosts.CostM2 then 1 else 0)
      {
        ghost var before := Costs(state, m1Loaded);
        ghost var all := lines;
        var line := lines[0];
        lines := lines[1..];
        assert all[1..] == lines;
        if line != [] {
          if state == VisCosts.Command {
            var t := line[0].text;
            if t == ".v" {
              state := VisCosts.ViaCost;
            } else if t == ".l" {
              if !m1Loaded {
                state := VisCosts.CostM1;
                m1Loaded := true;
              } else {
                state := VisCosts.CostM2;
              }
            }
          } else if state == VisCosts.ViaCost {
            state := VisCosts.Command;
          } else if IsDotToken(line[0]) {
            lines := [line] + lines;
            state := VisCosts.Command;
            assert ([line] + all[1..])[1..] == all[1..];
          } else if state == VisCosts.CostM1 {
            costM1Map := costM1Map + [line];
          } else {
            costM2Map := costM2Map + [line];
          }
        }
        if lines == all {
          assert VisCosts.Step(before, line) == VisCosts.Step(Costs(state, m1Loaded), line);
        } else {
          assert Costs(state, m1Loaded) == VisCosts.Step(before, line);
        }
      }
    }

    /** `load_lg`: the routes are seeded from chip1's bumps and then extended by the fold over
        the file. */
    method LoadLg(input: seq<Line>)
      modifies this
      ensures var r := VisRoutes.Run(VisRoutes.Vlg(VisRoutes.Command, -1,
                                                   VisRoutes.Seed(old(routes), old(chip1Bumps)), old(failed)), input);
        failed == r.failed && (!failed ==> routes == r.routes)
      ensures chip1Bumps == old(chip1Bumps) && chip2Bumps == old(chip2Bumps)
      ensures costM1Map == old(costM1Map) && costM2Map == old(costM2Map)
    {
      var k := 0;
      while k < |chip1Bumps|
        invariant 0 <= k <= |chip1Bumps|
        invariant chip1Bumps == old(chip1Bumps) && chip2Bumps == old(chip2Bumps) && failed == old(failed)
        invariant costM1Map == old(costM1Map) && costM2Map == old(costM2Map)
        invariant routes == VisRoutes.Seed(old(routes), chip1Bumps[..k])
      {
        routes := routes[chip1Bumps[k].idx := [chip1Bumps[k].lowerLeft]];
        k := k + 1;
        assert chip1Bumps[..k][..k - 1] == chip1Bumps[..k - 1];
      }
      assert chip1Bumps[..k] == chip1Bumps;
      ghost var start := Routing(VisRoutes.Command, -1);
      if failed {
        VisRoutes.FailedRun(start, input);
        return;
      }
      var lines := input;
      var state := VisRoutes.Command;
      var routeIdx := -1;
      while lines != []
        invariant !failed
        invariant VisRoutes.Run(Routing(state, routeIdx), lines) == VisRoutes.Run(start, input)
        invariant chip1Bumps == old(chip1Bumps) && chip2Bumps == old(chip2Bumps)
        invariant costM1Map == old(costM1Map) && costM2Map == old(costM2Map)
      {
        ghost var before := Routing(state, routeIdx);
        var line := lines[0];
        lines := lines[1..];
        if line != [] {
          if state == VisRoutes.Command {
            if StartsWith(line[0].text, "n") {
              routeIdx := line[0].num;
              state := VisRoutes.Route;
            } else {
              failed := true;
              VisRoutes.FailedRun(Routing(state, routeIdx), lines);
              return;
            }
          } else if StartsWith(line[0].text, ".end") {
            state := VisRoutes.Command;
          } else if line[0].text != "via" {
            if routeIdx !in routes || |line| < 5 {
              failed := true;
              VisRoutes.FailedRun(Routing(state, routeIdx), lines);
              return;
            }
            routes := routes[routeIdx := routes[routeIdx] + [Point(line[3].num, line[4].num)]];
          }
        }
        assert Routing(state, routeIdx) == VisRoutes.Step(before, line);
      }
    }
  }
}
