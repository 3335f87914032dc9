/** `Visualizer.load_grid_map` (visualizer/visualizer.py) as a function of the lines read. The
    source pushes a `.`-line met in a bump state back onto the list and re-reads it in command
    state; this fold reads such a line as a command straight away, which the loop in
    `Visualizer.Visualizer.LoadGridMap` is proved to agree with. A Python exception (a line with
    too few tokens, an attribute of a `None` corner) sets `failed`, after which nothing changes. */
module VisPlacement {
  import opened Common

  datatype VMode = Command | RoutingArea | GridSize | Chip1 | Chip2 | Chip1Bumps | Chip2Bumps

  /** `Bump` of visualizer.py: an index and an absolute position. */
  datatype VBump = VBump(idx: int, lowerLeft: Point)

  /** The loop's `state` and `chip1_loaded`, and the attributes it sets (`None` until set). */
  datatype Vmp = Vmp(mode: VMode, chip1Loaded: bool,
                     routingAreaLowerLeft: Option<Point>, routingAreaSize: Option<Point>, gridSize: Option<Point>,
                     chip1LowerLeft: Option<Point>, chip1WidthHeight: Option<Point>,
                     chip2LowerLeft: Option<Point>, chip2WidthHeight: Option<Point>,
                     chip1Bumps: seq<VBump>, chip2Bumps: seq<VBump>, failed: bool)

  predicate InBumps(m: VMode) {
    m == Chip1Bumps || m == Chip2Bumps
  }

  /** The command state's dispatch on the first token. `.c` loads chip1 until the first `.b`
      and chip2 after it; `.b` sets `chip1_loaded`. Any other token is ignored. */
  function CommandStep(s: Vmp, t: Token): (r: Vmp)
    ensures r.chip1Bumps == s.chip1Bumps && r.chip2Bumps == s.chip2Bumps && r.failed == s.failed
  {
    if t.text == ".ra" then s.(mode := RoutingArea)
    else if t.text == ".g" then s.(mode := GridSize)
    else if t.text == ".c" then s.(mode := if s.chip1Loaded then Chip2 else Chip1)
    else if t.text == ".b" then
      (if s.chip1Loaded then s.(mode := Chip2Bumps) else s.(mode := Chip1Bumps, chip1Loaded := true))
    else s
  }

  /** A chip corner: the line's offset plus the routing-area corner. */
  function Corner(line: Line, ra: Point): Point
    requires |line| >= 2
  {
    Point(line[0].num + ra.x, line[1].num + ra.y)
  }

  /** A bump line: index, and offset plus the chip's corner. */
  function BumpOf(line: Line, ll: Point): VBump
    requires |line| >= 3
  {
    VBump(line[0].num, Point(line[1].num + ll.x, line[2].num + ll.y))
  }

  /** One line of the file, with a `.`-line in a bump state read as a command. */
  function Step(s: Vmp, line: Line): Vmp {
    if line == [] || s.failed then s
    else match s.mode
      case Command => CommandStep(s, line[0])
      case RoutingArea =>
        if |line| < 4 then s.(failed := true)
        else s.(routingAreaLowerLeft := Some(Point(line[0].num, line[1].num)),
                routingAreaSize := Some(Point(line[2].num, line[3].num)), mode := Command)
      case GridSize =>
        if |line| < 2 then s.(failed := true)
        else s.(gridSize := Some(Point(line[0].num, line[1].num)), mode := Command)
      case Chip1 =>
        if |line| < 4 || s.routingAreaLowerLeft.None? then s.(failed := true)
        else s.(chip1LowerLeft := Some(Corner(line, s.routingAreaLowerLeft.value)),
                chip1WidthHeight := Some(Point(line[2].num, line[3].num)), mode := Command)
      case Chip2 =>
        if |line| < 4 || s.routingAreaLowerLeft.None? then s.(failed := true)
        else s.(chip2LowerLeft := Some(Corner(line, s.routingAreaLowerLeft.value)),
                chip2WidthHeight := Some(Point(line[2].num, line[3].num)), mode := Command)
      case Chip1Bumps =>
        if IsDotToken(line[0]) then CommandStep(s.(mode := Command), line[0])
        else if |line| < 3 || s.chip1LowerLeft.None? then s.(failed := true)
        else s.(chip1Bumps := s.chip1Bumps + [BumpOf(line, s.chip1LowerLeft.value)])
      case Chip2Bumps =>
        if IsDotToken(line[0]) then CommandStep(s.(mode := Command), line[0])
        else if |line| < 3 || s.chip2LowerLeft.None? then s.(failed := true)
        else s.(chip2Bumps := s.chip2Bumps + [BumpOf(line, s.chip2LowerLeft.value)])
  }

  function Run(s: Vmp, lines: seq<Line>): Vmp
    decreases lines
  {
    if lines == [] then s else Run(Step(s, lines[0]), lines[1..])
  }

  lemma {:induction false} RunConcat(s: Vmp, a: seq<Line>, b: seq<Line>)
    ensures Run(s, a + b) == Run(Run(s, a), b)
    decreases a
  {
    if a != [] {
      assert (a + b)[1..] == a[1..] + b;
      RunConcat(Step(s, a[0]), a[1..], b);
    } else {
      assert a + b == b;
    }
  }

  lemma {:induction false} FailedRun(s: Vmp, lines: seq<Line>)
    requires s.failed
    ensures Run(s, lines) == s
    decreases lines
  {
    if lines != [] {
      FailedRun(Step(s, lines[0]), lines[1..]);
    }
  }

  // ---------------------------------------------------------------- properties

  /** `load_grid_map` skips a blank line before dispatching on the state (visualizer.py:54-56),
      so blank lines, wherever they are, change nothing: reading the file is reading it without them. */
  lemma {:induction false} BlankLinesIgnored(s: Vmp, lines: seq<Line>)
    ensures Run(s, lines) == Run(s, DropBlank(lines))
    decreases lines
  {
    if lines != [] {
      BlankLinesIgnored(Step(s, lines[0]), lines[1..]);
      if lines[0] != [] {
        assert DropBlank(lines)[1..] == DropBlank(lines[1..]);
      }
    }
  }

  /** A `.`-line met in a bump state is not stored: it is read exactly as in command state. */
  lemma PushedBackLine(s: Vmp, line: Line)
    requires InBumps(s.mode) && !s.failed && line != [] && IsDotToken(line[0])
    ensures Step(s, line) == Step(s.(mode := Command), line)
    ensures Step(s, line).chip1Bumps == s.chip1Bumps && Step(s, line).chip2Bumps == s.chip2Bumps
  {
  }

  /** An unrecognised command is silently ignored. */
  lemma UnknownCommandIgnored(s: Vmp, line: Line)
    requires s.mode == Command && line != [] && !s.failed
    requires line[0].text !in {".ra", ".g", ".c", ".b"}
    ensures Step(s, line) == s
  {
  }

  /** `chip1_loaded` changes only by a `.b` read while it is false, and then becomes true. */
  lemma Chip1LoadedOnlyByB(s: Vmp, line: Line)
    ensures Step(s, line).chip1Loaded != s.chip1Loaded ==>
      !s.chip1Loaded && Step(s, line).chip1Loaded && line != [] && line[0].text == ".b"
  {
  }

  /** A `.c` block: before the first `.b` it sets chip1's corner and size, after it chip2's;
      the corner is the file offset plus the routing-area corner. */
  lemma ChipBlock(s: Vmp, c: Line, data: Line, rest: seq<Line>)
    requires s.mode == Command && !s.failed && c != [] && c[0].text == ".c"
    requires |data| >= 4 && s.routingAreaLowerLeft.Some?
    ensures var ll := Point(data[0].num + s.routingAreaLowerLeft.value.x, data[1].num + s.routingAreaLowerLeft.value.y);
      var wh := Point(data[2].num, data[3].num);
      Run(s, [c, data] + rest) ==
      Run(if s.chip1Loaded then s.(chip2LowerLeft := Some(ll), chip2WidthHeight := Some(wh))
          else s.(chip1LowerLeft := Some(ll), chip1WidthHeight := Some(wh)), rest)
  {
    assert ([c, data] + rest)[1..] == [data] + rest;
    assert ([data] + rest)[1..] == rest;
  }

  /** Bump lines: non-blank, not a command, at least three tokens. */
  predicate BumpRows(rows: seq<Line>) {
    forall k :: 0 <= k < |rows| ==> |rows[k]| >= 3 && !IsDotToken(rows[k][0])
  }

  function BumpsOf(rows: seq<Line>, ll: Point): (r: seq<VBump>)
    requires BumpRows(rows)
    ensures |r| == |rows| && forall k :: 0 <= k < |r| ==> r[k] == BumpOf(rows[k], ll)
  {
    if rows == [] then [] else BumpsOf(rows[..|rows| - 1], ll) + [BumpOf(rows[|rows| - 1], ll)]
  }

  lemma {:induction false} ReadBumps(s: Vmp, rows: seq<Line>)
    requires s.mode == Chip1Bumps && !s.failed && s.chip1LowerLeft.Some? && BumpRows(rows)
    ensures Run(s, rows) == s.(chip1Bumps := s.chip1Bumps + BumpsOf(rows, s.chip1LowerLeft.value))
  {
    if rows != [] {
      var n := |rows| - 1;
      ReadBumps(s, rows[..n]);
      RunConcat(s, rows[..n], [rows[n]]);
      assert rows[..n] + [rows[n]] == rows;
      assert BumpsOf(rows, s.chip1LowerLeft.value) == BumpsOf(rows[..n], s.chip1LowerLeft.value) + [BumpOf(rows[n], s.chip1LowerLeft.value)];
    } else {
      assert BumpsOf(rows, s.chip1LowerLeft.value) == [];
    }
  }

  lemma {:induction false} ReadBumps2(s: Vmp, rows: seq<Line>)
    requires s.mode == Chip2Bumps && !s.failed && s.chip2LowerLeft.Some? && BumpRows(rows)
    ensures Run(s, rows) == s.(chip2Bumps := s.chip2Bumps + BumpsOf(rows, s.chip2LowerLeft.value))
  {
    if rows != [] {
      var n := |rows| - 1;
      ReadBumps2(s, rows[..n]);
      RunConcat(s, rows[..n], [rows[n]]);
      assert rows[..n] + [rows[n]] == rows;
      assert BumpsOf(rows, s.chip2LowerLeft.value) == BumpsOf(rows[..n], s.chip2LowerLeft.value) + [BumpOf(rows[n], s.chip2LowerLeft.value)];
    } else {
      assert BumpsOf(rows, s.chip2LowerLeft.value) == [];
    }
  }

  /** A `.b` block ended by a command line: the first block goes to chip1 and sets
      `chip1_loaded`, every later one to chip2; each bump is its offset plus its own chip's
      corner, in file order; the closing command line is then read as a command. */
  lemma BumpBlock(s: Vmp, b: Line, rows: seq<Line>, cmd: Line, rest: seq<Line>)
    requires s.mode == Command && !s.failed && b != [] && b[0].text == ".b" && BumpRows(rows)
    requires cmd != [] && IsDotToken(cmd[0])
    requires if s.chip1Loaded then s.chip2LowerLeft.Some? else s.chip1LowerLeft.Some?
    ensures var t := if s.chip1Loaded then s.(chip2Bumps := s.chip2Bumps + BumpsOf(rows, s.chip2LowerLeft.value))
                     else s.(chip1Bumps := s.chip1Bumps + BumpsOf(rows, s.chip1LowerLeft.value), chip1Loaded := true);
      Run(s, [b] + rows + [cmd] + rest) == Run(CommandStep(t, cmd[0]), rest)
  {
    var s1 := Step(s, b);
    RunConcat(s, [b], rows + [cmd] + rest);
    assert [b] + rows + [cmd] + rest == [b] + (rows + [cmd] + rest);
    assert Run(s, [b]) == s1;
    RunConcat(s1, rows, [cmd] + rest);
    assert rows + [cmd] + rest == rows + ([cmd] + rest);
    if s.chip1Loaded {
      ReadBumps2(s1, rows);
    } else {
      ReadBumps(s1, rows);
    }
    var s2 := Run(s1, rows);
    assert ([cmd] + rest)[1..] == rest;
    assert Step(s2, cmd) == CommandStep(s2.(mode := Command), cmd[0]);
  }
}
