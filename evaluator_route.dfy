/** The integer part of `Evaluator::loadLG` (src/evaluator.cpp) as a function of the lines
    read: net headers, `M1`/`M2` segments with their direction, length and alignment checks,
    vias and `.end`, the wirelength and via counters, the net's gcell path and the per-edge
    crossing counters with their overflow count. */
module EvalRoute {
  import opened Common
  import opened Grid
  import opened Edges

  /** The route errors the evaluator logs. Logging is the only effect; none of them is fatal. */
  datatype RouteError =
    | StartMismatch(net: int)
    | M1Horizontal(net: int)
    | M1ZeroLength(net: int)
    | M1Misaligned(net: int)
    | M2Vertical(net: int)
    | M2ZeroLength(net: int)
    | M2Misaligned(net: int)
    | EndMismatch(net: int)
    | LastNotM1(net: int)
    | UnknownCommand(command: string)

  /** `Net` of inc/evaluator.h without its floating-point costs; `path` is `net->gcells`. */
  datatype Net = Net(idx: int, wl: int, overflow: nat, viaCount: nat, path: seq<CellRef>)

  /** The locals of the inner read loop: the net's two bumps and the three flags. */
  datatype Ctx = Ctx(start: Bump, end: Option<Bump>, checkStart: bool, passVia: bool, lastM1: bool)

  /** What the route loader reads but does not change: the placement loaded before it. */
  datatype Env = Env(origin: Point, gcellSize: Point, bumps1: seq<Bump>, bumps2: seq<Bump>)

  /** `ctx` is `None` while the outer loop waits for a net header and `Some` inside a net,
      whose record is the last of `nets`. */
  datatype Lg = Lg(grid: Grid, nets: seq<Net>, errors: seq<RouteError>, ctx: Option<Ctx>, faulted: bool)

  /** The index of the first bump with index `idx` (the loops that set `startBump` and `endBump`). */
  function FirstWithIdx(bumps: seq<Bump>, idx: int): (r: Option<nat>)
    ensures r.Some? ==>
      r.value < |bumps| && bumps[r.value].idx == idx && forall k :: 0 <= k < r.value ==> bumps[k].idx != idx
    ensures r.None? ==> forall k :: 0 <= k < |bumps| ==> bumps[k].idx != idx
  {
    if bumps == [] then None
    else if bumps[0].idx == idx then Some(0)
    else match FirstWithIdx(bumps[1..], idx)
      case None => None
      case Some(k) => Some(k + 1)
  }

  function BumpAt(bumps: seq<Bump>, i: Option<nat>): Option<Bump> {
    if i.Some? && i.value < |bumps| then Some(bumps[i.value]) else None
  }

  /** `(v - base) % size == 0` in C++ arithmetic: `v` lies on a gcell boundary. */
  predicate OnBoundary(v: int, base: int, size: int)
    requires size != 0
  {
    TruncMod(v - base, size) == 0
  }

  /** A net header `n<idx>`: a new net record is pushed; its path starts at the gcell of the
      first chip1 bump with that index. No such bump is a null dereference. A bump without a
      gcell, which a completed placement never leaves, would put a null pointer on the path
      that the source dereferences only at a via or `.end` met before any segment; the model
      treats it as undefined behaviour at the header. */
  function Header(env: Env, s: Lg, line: Line): Lg
    requires line != []
  {
    var idx := line[0].num;
    var nets := s.nets + [Net(idx, 0, 0, 0, [])];
    var k := FirstWithIdx(env.bumps1, idx);
    if k.None? || env.bumps1[k.value].gcell.None? then s.(nets := nets, faulted := true)
    else
      var b := env.bumps1[k.value];
      s.(nets := s.nets + [Net(idx, 0, 0, 0, [b.gcell.value])],
         ctx := Some(Ctx(b, BumpAt(env.bumps2, FirstWithIdx(env.bumps2, idx)), true, false, true)))
  }

  /** Both ends of a segment lie on gcell corners. */
  predicate Aligned(env: Env, p1: Point, p2: Point)
    requires env.gcellSize.x != 0 && env.gcellSize.y != 0
  {
    var o, g := env.origin, env.gcellSize;
    OnBoundary(p1.x, o.x, g.x) && OnBoundary(p1.y, o.y, g.y) && OnBoundary(p2.x, o.x, g.x) && OnBoundary(p2.y, o.y, g.y)
  }

  /** Everything a segment record logs: the start-point check of the net's first segment,
      then the segment's own checks, in the order the source logs them. */
  function RecordErrors(ctx: Ctx, layer: Layer, idx: int, p1: Point, p2: Point, aligned: bool): seq<RouteError> {
    (if ctx.checkStart && ctx.start.position != p1 then [StartMismatch(idx)] else []) +
    SegmentErrors(layer, idx, p1, p2, aligned)
  }

  /** Each check of an M1 record logs its error exactly when its condition holds. */
  lemma RecordErrorsM1(ctx: Ctx, idx: int, p1: Point, p2: Point, aligned: bool)
    ensures var e := RecordErrors(ctx, M1, idx, p1, p2, aligned);
      (StartMismatch(idx) in e <==> ctx.checkStart && ctx.start.position != p1) &&
      (M1Horizontal(idx) in e <==> p2.x != p1.x) &&
      (M1ZeroLength(idx) in e <==> p2.y == p1.y) &&
      (M1Misaligned(idx) in e <==> !aligned) &&
      M2Vertical(idx) !in e && M2ZeroLength(idx) !in e && M2Misaligned(idx) !in e
  {
    var st: seq<RouteError> := if ctx.checkStart && ctx.start.position != p1 then [StartMismatch(idx)] else [];
    var a: seq<RouteError> := if p2.x != p1.x then [M1Horizontal(idx)] else [];
    var b: seq<RouteError> := if p2.y == p1.y then [M1ZeroLength(idx)] else [];
    var c: seq<RouteError> := if !aligned then [M1Misaligned(idx)] else [];
    var e := RecordErrors(ctx, M1, idx, p1, p2, aligned);
    assert e == st + (a + b + c);
    InParts(st, a, b, c);
  }

  /** Each check of an M2 record logs its error exactly when its condition holds. */
  lemma RecordErrorsM2(ctx: Ctx, idx: int, p1: Point, p2: Point, aligned: bool)
    ensures var e := RecordErrors(ctx, M2, idx, p1, p2, aligned);
      (StartMismatch(idx) in e <==> ctx.checkStart && ctx.start.position != p1) &&
      (M2Vertical(idx) in e <==> p2.y != p1.y) &&
      (M2ZeroLength(idx) in e <==> p2.x == p1.x) &&
      (M2Misaligned(idx) in e <==> !aligned) &&
      M1Horizontal(idx) !in e && M1ZeroLength(idx) !in e && M1Misaligned(idx) !in e
  {
    var st: seq<RouteError> := if ctx.checkStart && ctx.start.position != p1 then [StartMismatch(idx)] else [];
    var a: seq<RouteError> := if p2.y != p1.y then [M2Vertical(idx)] else [];
    var b: seq<RouteError> := if p2.x == p1.x then [M2ZeroLength(idx)] else [];
    var c: seq<RouteError> := if !aligned then [M2Misaligned(idx)] else [];
    var e := RecordErrors(ctx, M2, idx, p1, p2, aligned);
    assert e == st + (a + b + c);
    InParts(st, a, b, c);
  }

  lemma InParts(st: seq<RouteError>, a: seq<RouteError>, b: seq<RouteError>, c: seq<RouteError>)
    ensures forall err :: err in st + (a + b + c) <==> err in st || err in a || err in b || err in c
  {
  }

  function SegmentErrors(layer: Layer, idx: int, p1: Point, p2: Point, aligned: bool): seq<RouteError> {
    if layer == M1 then
      (if p2.x != p1.x then [M1Horizontal(idx)] else []) +
      (if p2.y == p1.y then [M1ZeroLength(idx)] else []) +
      (if !aligned then [M1Misaligned(idx)] else [])
    else
      (if p2.y != p1.y then [M2Vertical(idx)] else []) +
      (if p2.x == p1.x then [M2ZeroLength(idx)] else []) +
      (if !aligned then [M2Misaligned(idx)] else [])
  }

  /** The walk of a segment from p1 to p2: M1 walks column `x1g` from row `y1g` to `y2g`,
      upwards when `y2 > y1`; M2 walks row `y1g` from column `x1g` to `x2g`, rightwards
      when `x2 > x1`. */
  function SegmentSteps(layer: Layer, p1: Point, p2: Point, c1: CellRef, c2: CellRef): seq<Step> {
    if layer == M1 then
      (if p2.y > p1.y then ForwardSteps(M1, c1.x, c1.y, c2.y) else BackwardSteps(M1, c1.x, c1.y, c2.y))
    else
      (if p2.x > p1.x then ForwardSteps(M2, c1.y, c1.x, c2.x) else BackwardSteps(M2, c1.y, c1.x, c2.x))
  }

  function SegmentLength(layer: Layer, p1: Point, p2: Point): nat {
    if layer == M1 then Abs(p2.y - p1.y) else Abs(p2.x - p1.x)
  }

  /** The four integers of a segment record, after its command (0 when missing). */
  function SegmentEnds(line: Line): (Point, Point) {
    (Point(Field(line, 1, 0), Field(line, 2, 0)), Point(Field(line, 3, 0), Field(line, 4, 0)))
  }

  /** An `M1` or `M2` record. */
  function Segment(env: Env, s: Lg, layer: Layer, line: Line): Lg
    requires s.ctx.Some? && |s.nets| > 0
  {
    if env.gcellSize.x == 0 || env.gcellSize.y == 0 then s.(faulted := true)
    else SegmentFrom(env, s, layer, SegmentEnds(line).0, SegmentEnds(line).1)
  }

  /** A segment record once its end points are read. */
  function SegmentFrom(env: Env, s: Lg, layer: Layer, p1: Point, p2: Point): Lg
    requires s.ctx.Some? && |s.nets| > 0 && env.gcellSize.x != 0 && env.gcellSize.y != 0
  {
    var net := s.nets[|s.nets| - 1];
    var c1 := CellOf(p1, env.origin, env.gcellSize);
    var c2 := CellOf(p2, env.origin, env.gcellSize);
    SegmentResult(s, layer, p1, p2, c1,
      WalkAll(Walk(s.grid, net.path, net.overflow, true), layer, SegmentSteps(layer, p1, p2, c1, c2)),
      RecordErrors(s.ctx.value, layer, net.idx, p1, p2, Aligned(env, p1, p2)))
  }

  /** The outcome of a segment whose first gcell is `c1`, whose walk loop ends in `w` and
      whose checks log `errs`: reading the cost of `c1` outside the grid (unless a via came
      first) or a walk that leaves the grid is undefined behaviour. */
  function SegmentResult(s: Lg, layer: Layer, p1: Point, p2: Point, c1: CellRef, w: Walk, errs: seq<RouteError>): Lg
    requires s.ctx.Some? && |s.nets| > 0
  {
    var ctx := s.ctx.value;
    var net := s.nets[|s.nets| - 1];
    if !ctx.passVia && !InGrid(s.grid, c1) then s.(faulted := true)
    else if !w.ok then s.(faulted := true)
    else
      s.(grid := w.grid,
         nets := s.nets[|s.nets| - 1 := net.(wl := net.wl + SegmentLength(layer, p1, p2), overflow := w.overflow, path := w.path)],
         errors := s.errors + errs,
         ctx := Some(ctx.(checkStart := false, passVia := false, lastM1 := layer == M1)))
  }

  function Via(s: Lg): Lg
    requires s.ctx.Some? && |s.nets| > 0
  {
    var net := s.nets[|s.nets| - 1];
    s.(nets := s.nets[|s.nets| - 1 := net.(viaCount := net.viaCount + 1)],
       ctx := Some(s.ctx.value.(passVia := true)))
  }

  /** `.end`: the last gcell of the path must be the chip2 bump's position, and the route must
      end on M1 (after a via the layer has switched). No chip2 bump is a null dereference. */
  function End(s: Lg): Lg
    requires s.ctx.Some? && |s.nets| > 0
  {
    var ctx := s.ctx.value;
    var net := s.nets[|s.nets| - 1];
    if ctx.end.None? || net.path == [] || !InGrid(s.grid, net.path[|net.path| - 1]) then s.(faulted := true)
    else
      var last := net.path[|net.path| - 1];
      var errs := (if s.grid[last.y][last.x].lowerLeft != ctx.end.value.position then [EndMismatch(net.idx)] else []) +
                  (if ctx.passVia == ctx.lastM1 then [LastNotM1(net.idx)] else []);
      s.(errors := s.errors + errs, ctx := None)
  }

  /** One non-blank or blank line of the route file. */
  function Step(env: Env, s: Lg, line: Line): Lg {
    if line == [] || s.faulted then s
    else if s.ctx.None? then Header(env, s, line)
    else if |s.nets| == 0 then s.(faulted := true)
    else
      var cmd := line[0].text;
      if cmd == "M1" then Segment(env, s, M1, line)
      else if cmd == "M2" then Segment(env, s, M2, line)
      else if cmd == "via" then Via(s)
      else if cmd == ".end" then End(s)
      else s.(errors := s.errors + [UnknownCommand(cmd)])
  }

  function Run(env: Env, s: Lg, lines: seq<Line>): Lg
    decreases lines
  {
    if lines == [] then s else Run(env, Step(env, s, lines[0]), lines[1..])
  }

  // ---------------------------------------------------------------- properties

  /** A segment record logs exactly the errors of its checks, after the ones logged before. */
  lemma SegmentChecks(env: Env, s: Lg, layer: Layer, line: Line)
    requires s.ctx.Some? && |s.nets| > 0 && !s.faulted
    requires line != [] && line[0].text == (if layer == M1 then "M1" else "M2")
    requires !Step(env, s, line).faulted
    ensures env.gcellSize.x != 0 && env.gcellSize.y != 0
    ensures var r := Step(env, s, line);
      var (p1, p2) := SegmentEnds(line);
      r.errors == s.errors + RecordErrors(s.ctx.value, layer, s.nets[|s.nets| - 1].idx, p1, p2, Aligned(env, p1, p2)) &&
      r.ctx == Some(s.ctx.value.(checkStart := false, passVia := false, lastM1 := layer == M1))
  {
    var r := Step(env, s, line);
    assert r == Segment(env, s, layer, line);
    assert env.gcellSize.x != 0 && env.gcellSize.y != 0;
    var p1, p2 := SegmentEnds(line).0, SegmentEnds(line).1;
    assert r == SegmentFrom(env, s, layer, p1, p2);
    SegmentFromChecks(env, s, layer, p1, p2);
  }

  /** `SegmentChecks` for a record with end points `p1`, `p2`. */
  lemma SegmentFromChecks(env: Env, s: Lg, layer: Layer, p1: Point, p2: Point)
    requires s.ctx.Some? && |s.nets| > 0 && env.gcellSize.x != 0 && env.gcellSize.y != 0
    requires !SegmentFrom(env, s, layer, p1, p2).faulted
    ensures var r := SegmentFrom(env, s, layer, p1, p2);
      r.errors == s.errors + RecordErrors(s.ctx.value, layer, s.nets[|s.nets| - 1].idx, p1, p2, Aligned(env, p1, p2)) &&
      r.ctx == Some(s.ctx.value.(checkStart := false, passVia := false, lastM1 := layer == M1))
  {
  }

  /** A segment adds its length to the net's wirelength, appends the cells it enters to the
      net's path, and counts as overflow exactly the excess it adds to the grid's edges;
      the other nets are unchanged. */
  lemma SegmentTotals(env: Env, s: Lg, layer: Layer, line: Line)
    requires s.ctx.Some? && |s.nets| > 0 && !s.faulted
    requires line != [] && line[0].text == (if layer == M1 then "M1" else "M2")
    requires !Step(env, s, line).faulted
    ensures var r := Step(env, s, line);
      var n := |s.nets| - 1;
      var (p1, p2) := SegmentEnds(line);
      env.gcellSize.x != 0 && env.gcellSize.y != 0 &&
      var steps := SegmentSteps(layer, p1, p2, CellOf(p1, env.origin, env.gcellSize), CellOf(p2, env.origin, env.gcellSize));
      |r.nets| == |s.nets| && r.nets[..n] == s.nets[..n] &&
      r.nets[n].idx == s.nets[n].idx &&
      r.nets[n].wl == s.nets[n].wl + SegmentLength(layer, p1, p2) &&
      r.nets[n].viaCount == s.nets[n].viaCount &&
      r.nets[n].path == s.nets[n].path + Enters(steps) &&
      GridExcess(r.grid) + s.nets[n].overflow == GridExcess(s.grid) + r.nets[n].overflow
  {
    var r := Step(env, s, line);
    assert r == Segment(env, s, layer, line);
    assert env.gcellSize.x != 0 && env.gcellSize.y != 0;
    var p1, p2 := SegmentEnds(line).0, SegmentEnds(line).1;
    assert r == SegmentFrom(env, s, layer, p1, p2);
    var n := |s.nets| - 1;
    var net := s.nets[n];
    var c1, c2 := CellOf(p1, env.origin, env.gcellSize), CellOf(p2, env.origin, env.gcellSize);
    var steps := SegmentSteps(layer, p1, p2, c1, c2);
    var w0 := Walk(s.grid, net.path, net.overflow, true);
    var errs := RecordErrors(s.ctx.value, layer, net.idx, p1, p2, Aligned(env, p1, p2));
    assert r == SegmentResult(s, layer, p1, p2, c1, WalkAll(w0, layer, steps), errs);
    ResultTotals(s, layer, p1, p2, c1, w0, steps, errs);
  }

  /** `SegmentTotals` for the record's computed cells, walk and errors. */
  lemma ResultTotals(s: Lg, layer: Layer, p1: Point, p2: Point, c1: CellRef, w0: Walk, steps: seq<Step>, errs: seq<RouteError>)
    requires s.ctx.Some? && |s.nets| > 0
    requires w0 == Walk(s.grid, s.nets[|s.nets| - 1].path, s.nets[|s.nets| - 1].overflow, true)
    requires !SegmentResult(s, layer, p1, p2, c1, WalkAll(w0, layer, steps), errs).faulted
    ensures var r := SegmentResult(s, layer, p1, p2, c1, WalkAll(w0, layer, steps), errs);
      var n := |s.nets| - 1;
      |r.nets| == |s.nets| && r.nets[..n] == s.nets[..n] &&
      r.nets[n].idx == s.nets[n].idx &&
      r.nets[n].wl == s.nets[n].wl + SegmentLength(layer, p1, p2) &&
      r.nets[n].viaCount == s.nets[n].viaCount &&
      r.nets[n].path == s.nets[n].path + Enters(steps) &&
      GridExcess(r.grid) + s.nets[n].overflow == GridExcess(s.grid) + r.nets[n].overflow
  {
    var n := |s.nets| - 1;
    var net := s.nets[n];
    var w := WalkAll(w0, layer, steps);
    var r := SegmentResult(s, layer, p1, p2, c1, w, errs);
    assert w.ok && r.grid == w.grid;
    assert r.nets == s.nets[n := net.(wl := net.wl + SegmentLength(layer, p1, p2), overflow := w.overflow, path := w.path)];
    assert r.nets[..n] == s.nets[..n];
    WalkBalance(w0, layer, steps);
    WalkPath(w0, layer, steps);
  }

  /** A via adds one to the net's via count and changes nothing else but the `passVia` flag. */
  lemma ViaCount(env: Env, s: Lg, line: Line)
    requires s.ctx.Some? && |s.nets| > 0 && !s.faulted && line != [] && line[0].text == "via"
    ensures var r := Step(env, s, line);
      var n := |s.nets| - 1;
      |r.nets| == |s.nets| && r.nets[..n] == s.nets[..n] &&
      r.nets[n] == s.nets[n].(viaCount := s.nets[n].viaCount + 1) &&
      r.grid == s.grid && r.errors == s.errors && !r.faulted &&
      r.ctx == Some(s.ctx.value.(passVia := true))
  {
  }

  /** `.end` logs an end-point mismatch exactly when the path's last gcell does not sit at the
      chip2 bump, logs "last routing is not M1" exactly when `passVia == lastM1`, and returns
      to reading net headers. */
  lemma EndChecks(env: Env, s: Lg, line: Line)
    requires s.ctx.Some? && |s.nets| > 0 && !s.faulted && line != [] && line[0].text == ".end"
    requires !Step(env, s, line).faulted
    ensures var r := Step(env, s, line);
      var ctx, net := s.ctx.value, s.nets[|s.nets| - 1];
      ctx.end.Some? && net.path != [] && InGrid(s.grid, net.path[|net.path| - 1]) &&
      var last := net.path[|net.path| - 1];
      r.ctx.None? && r.nets == s.nets && r.grid == s.grid &&
      |r.errors| >= |s.errors| && r.errors[..|s.errors|] == s.errors &&
      var e := r.errors[|s.errors|..];
      (EndMismatch(net.idx) in e <==> s.grid[last.y][last.x].lowerLeft != ctx.end.value.position) &&
      (LastNotM1(net.idx) in e <==> ctx.passVia == ctx.lastM1)
  {
    var r := Step(env, s, line);
    assert r == End(s);
    assert r.errors[..|s.errors|] == s.errors;
  }

  /** A header line opens a new net: its counters are 0 and its path is the gcell of the first
      chip1 bump with the header's index; the start check is armed. */
  lemma HeaderOpensNet(env: Env, s: Lg, line: Line)
    requires s.ctx.None? && !s.faulted && line != []
    ensures var r := Step(env, s, line);
      var k := FirstWithIdx(env.bumps1, line[0].num);
      |r.nets| == |s.nets| + 1 && r.nets[..|s.nets|] == s.nets &&
      (r.faulted <==> k.None? || env.bumps1[k.value].gcell.None?) &&
      (!r.faulted ==>
        r.nets[|s.nets|] == Net(line[0].num, 0, 0, 0, [env.bumps1[k.value].gcell.value]) &&
        r.ctx.Some? && r.ctx.value.start == env.bumps1[k.value] && r.ctx.value.checkStart &&
        r.grid == s.grid && r.errors == s.errors)
  {
    assert (s.nets + [Net(line[0].num, 0, 0, 0, [])])[..|s.nets|] == s.nets;
  }

  // ---------------------------------------------------------------- totals

  function SumWL(nets: seq<Net>): int {
    if nets == [] then 0 else SumWL(nets[..|nets| - 1]) + nets[|nets| - 1].wl
  }

  function SumOverflow(nets: seq<Net>): nat {
    if nets == [] then 0 else SumOverflow(nets[..|nets| - 1]) + nets[|nets| - 1].overflow
  }

  function SumVia(nets: seq<Net>): nat {
    if nets == [] then 0 else SumVia(nets[..|nets| - 1]) + nets[|nets| - 1].viaCount
  }

  lemma SumOverflowReplaceLast(nets: seq<Net>, x: Net)
    requires nets != []
    ensures SumOverflow(nets[|nets| - 1 := x]) + nets[|nets| - 1].overflow == SumOverflow(nets) + x.overflow
  {
    assert nets[|nets| - 1 := x][..|nets| - 1] == nets[..|nets| - 1];
  }

  lemma SumOverflowAppend(nets: seq<Net>, x: Net)
    ensures SumOverflow(nets + [x]) == SumOverflow(nets) + x.overflow
  {
    assert (nets + [x])[..|nets|] == nets;
  }

  /** The invariant kept by every line: the grid's total edge excess grows exactly by the
      overflow the nets count. */
  lemma {:induction false} StepBalance(env: Env, s: Lg, line: Line)
    ensures var r := Step(env, s, line);
      GridExcess(r.grid) + SumOverflow(s.nets) == GridExcess(s.grid) + SumOverflow(r.nets)
  {
    if line == [] || s.faulted {
    } else if s.ctx.None? {
      HeaderBalance(env, s, line);
    } else if |s.nets| == 0 {
    } else {
      var cmd := line[0].text;
      if cmd == "M1" {
        SegmentBalance(env, s, M1, line);
      } else if cmd == "M2" {
        SegmentBalance(env, s, M2, line);
      } else if cmd == "via" {
        SumOverflowReplaceLast(s.nets, Via(s).nets[|s.nets| - 1]);
      }
    }
  }

  lemma HeaderBalance(env: Env, s: Lg, line: Line)
    requires line != []
    ensures var r := Header(env, s, line);
      r.grid == s.grid && SumOverflow(r.nets) == SumOverflow(s.nets)
  {
    var idx := line[0].num;
    SumOverflowAppend(s.nets, Net(idx, 0, 0, 0, []));
    var k := FirstWithIdx(env.bumps1, idx);
    if !(k.None? || env.bumps1[k.value].gcell.None?) {
      SumOverflowAppend(s.nets, Net(idx, 0, 0, 0, [env.bumps1[k.value].gcell.value]));
    }
  }

  lemma SegmentBalance(env: Env, s: Lg, layer: Layer, line: Line)
    requires s.ctx.Some? && |s.nets| > 0 && !s.faulted
    requires line != [] && line[0].text == (if layer == M1 then "M1" else "M2")
    ensures var r := Step(env, s, line);
      GridExcess(r.grid) + SumOverflow(s.nets) == GridExcess(s.grid) + SumOverflow(r.nets)
  {
    var r := Step(env, s, line);
    if !r.faulted {
      var n := |s.nets| - 1;
      SegmentTotals(env, s, layer, line);
      SumOverflowReplaceLast(s.nets, r.nets[n]);
      assert r.nets == s.nets[n := r.nets[n]];
    }
  }

  lemma {:induction false} RunBalance(env: Env, s: Lg, lines: seq<Line>)
    ensures var r := Run(env, s, lines);
      GridExcess(r.grid) + SumOverflow(s.nets) == GridExcess(s.grid) + SumOverflow(r.nets)
    decreases lines
  {
    if lines != [] {
      StepBalance(env, s, lines[0]);
      RunBalance(env, Step(env, s, lines[0]), lines[1..]);
    }
  }

  /** Since edge counters start at 0, the overflow summed over all nets equals the sum over
      every gcell edge of `max(0, count - capacity)` once the route file is read. */
  lemma OverflowIsExcess(env: Env, g: Grid, lines: seq<Line>)
    requires Uncrossed(g)
    ensures var r := Run(env, Lg(g, [], [], None, false), lines);
      SumOverflow(r.nets) == GridExcess(r.grid)
  {
    RunBalance(env, Lg(g, [], [], None, false), lines);
    UncrossedHasNoExcess(g);
  }

  /** After undefined behaviour the model stops: later lines change nothing. */
  lemma {:induction false} FaultedRun(env: Env, s: Lg, lines: seq<Line>)
    requires s.faulted
    ensures Run(env, s, lines) == s
    decreases lines
  {
    if lines != [] {
      FaultedRun(env, s, lines[1..]);
    }
  }
}
