/** The read loop of `Evaluator::loadGridMap` (src/evaluator.cpp) as a function of the
    lines read: a state machine over `.ra`, `.g`, `.c` and `.b` commands in which a blank
    line ends a bump block and successive `.c` commands alternate chip1 and chip2. */
module EvalPlacement {
  import opened Common
  import opened Grid

  datatype Mode = LoadingCommand | LoadingRoutingArea | LoadingGCellSize | LoadingChip1 | LoadingBump | LoadingChip2

  /** The loop's local `state` and `loadingChip1`, and the members it writes. */
  datatype Gmp = Gmp(mode: Mode, loadingChip1: bool, origin: Point, areaSize: Point,
                     gcellSize: Point, chip1: Chip, chip2: Chip)

  /** A chip block's data line: the offset is read into locals (0 when missing), the size
      into the chip's members (kept when missing); the corner is offset plus routing-area corner. */
  function LoadChip(c: Chip, line: Line, origin: Point): (r: Chip)
    ensures r.bumps == c.bumps
    ensures r.lowerLeft == Point(Field(line, 0, 0) + origin.x, Field(line, 1, 0) + origin.y)
    ensures r.size == Point(Field(line, 2, c.size.x), Field(line, 3, c.size.y))
  {
    c.(lowerLeft := Point(Field(line, 0, 0) + origin.x, Field(line, 1, 0) + origin.y),
       size := Point(Field(line, 2, c.size.x), Field(line, 3, c.size.y)))
  }

  /** The bump a bump line describes, relative to the chip corner `ll`. */
  function BumpOf(line: Line, ll: Point): Bump {
    Bump(Field(line, 0, 0), Point(Field(line, 1, 0) + ll.x, Field(line, 2, 0) + ll.y), None)
  }

  /** The bumps a block of bump lines appends, in file order. */
  function BumpsOf(rows: seq<Line>, ll: Point): (r: seq<Bump>)
    ensures |r| == |rows| && forall k :: 0 <= k < |r| ==> r[k] == BumpOf(rows[k], ll)
  {
    if rows == [] then [] else BumpsOf(rows[..|rows| - 1], ll) + [BumpOf(rows[|rows| - 1], ll)]
  }

  function Command(s: Gmp, cmd: string): Gmp {
    if cmd == ".ra" then s.(mode := LoadingRoutingArea)
    else if cmd == ".g" then s.(mode := LoadingGCellSize)
    else if cmd == ".c" then
      (if s.loadingChip1 then s.(mode := LoadingChip2, loadingChip1 := false)
       else s.(mode := LoadingChip1, loadingChip1 := true))
    else if cmd == ".b" then s.(mode := LoadingBump)
    else s
  }

  /** One iteration of the read loop. */
  function Step(s: Gmp, line: Line): Gmp {
    if line == [] then
      (if s.mode == LoadingBump then s.(mode := LoadingCommand) else s)
    else match s.mode
      case LoadingCommand => Command(s, line[0].text)
      case LoadingRoutingArea =>
        s.(origin := Point(Field(line, 0, s.origin.x), Field(line, 1, s.origin.y)),
           areaSize := Point(Field(line, 2, s.areaSize.x), Field(line, 3, s.areaSize.y)),
           mode := LoadingCommand)
      case LoadingGCellSize =>
        s.(gcellSize := Point(Field(line, 0, s.gcellSize.x), Field(line, 1, s.gcellSize.y)),
           mode := LoadingCommand)
      case LoadingChip1 => s.(chip1 := LoadChip(s.chip1, line, s.origin), mode := LoadingCommand)
      case LoadingChip2 => s.(chip2 := LoadChip(s.chip2, line, s.origin), mode := LoadingCommand)
      case LoadingBump =>
        if s.loadingChip1 then s.(chip1 := s.chip1.(bumps := s.chip1.bumps + [BumpOf(line, s.chip1.lowerLeft)]))
        else s.(chip2 := s.chip2.(bumps := s.chip2.bumps + [BumpOf(line, s.chip2.lowerLeft)]))
  }

  function Run(s: Gmp, lines: seq<Line>): Gmp
    decreases lines
  {
    if lines == [] then s else Run(Step(s, lines[0]), lines[1..])
  }

  lemma {:induction false} RunConcat(s: Gmp, a: seq<Line>, b: seq<Line>)
    ensures Run(s, a + b) == Run(Run(s, a), b)
    decreases a
  {
    if a != [] {
      assert (a + b)[1..] == a[1..] + b;
      RunConcat(Step(s, a[0]), a[1..], b);
    } else {
      assert a + b == b;
    }
  }

  /** A blank line ends a bump block and is skipped, with no change at all, in every other state. */
  lemma BlankLine(s: Gmp, rest: seq<Line>)
    ensures Run(s, [[]] + rest) == Run(if s.mode == LoadingBump then s.(mode := LoadingCommand) else s, rest)
    ensures s.mode != LoadingBump ==> Run(s, [[]] + rest) == Run(s, rest)
  {
    assert ([[]] + rest)[1..] == rest;
  }

  /** Successive `.c` commands alternate: a `.c` flips `loadingChip1`, and the next data line
      is stored in chip1 when the flag was false and in chip2 when it was true, at the file
      offset plus the routing-area corner. */
  lemma ChipBlock(s: Gmp, c: Line, data: Line, rest: seq<Line>)
    requires s.mode == LoadingCommand && c != [] && c[0].text == ".c" && data != []
    ensures Run(s, [c, data] + rest) ==
      Run(if s.loadingChip1 then s.(chip2 := LoadChip(s.chip2, data, s.origin), loadingChip1 := false)
          else s.(chip1 := LoadChip(s.chip1, data, s.origin), loadingChip1 := true), rest)
  {
    assert ([c, data] + rest)[1..] == [data] + rest;
    assert ([data] + rest)[1..] == rest;
  }

  predicate NonBlank(rows: seq<Line>) {
    forall k :: 0 <= k < |rows| ==> rows[k] != []
  }

  /** The chip that `loadingChip1` selects receives one bump per line of the block. */
  function AddBumps(s: Gmp, rows: seq<Line>): Gmp {
    if s.loadingChip1 then s.(chip1 := s.chip1.(bumps := s.chip1.bumps + BumpsOf(rows, s.chip1.lowerLeft)))
    else s.(chip2 := s.chip2.(bumps := s.chip2.bumps + BumpsOf(rows, s.chip2.lowerLeft)))
  }

  lemma {:induction false} BumpRows(s: Gmp, rows: seq<Line>)
    requires s.mode == LoadingBump && NonBlank(rows)
    ensures Run(s, rows) == AddBumps(s, rows)
  {
    if rows != [] {
      var n := |rows| - 1;
      RunConcat(s, rows[..n], [rows[n]]);
      assert rows[..n] + [rows[n]] == rows;
      BumpRows(s, rows[..n]);
      var p := Run(s, rows[..n]);
      assert Run(p, [rows[n]]) == Step(p, rows[n]);
      BumpRow(s, rows, n);
    } else {
      assert BumpsOf(rows, s.chip1.lowerLeft) == [];
      assert BumpsOf(rows, s.chip2.lowerLeft) == [];
    }
  }

  /** The last line of a bump block appends the last bump. */
  lemma BumpRow(s: Gmp, rows: seq<Line>, n: nat)
    requires s.mode == LoadingBump && n + 1 == |rows| && rows[n] != []
    ensures Step(AddBumps(s, rows[..n]), rows[n]) == AddBumps(s, rows)
  {
    assert BumpsOf(rows, s.chip1.lowerLeft) == BumpsOf(rows[..n], s.chip1.lowerLeft) + [BumpOf(rows[n], s.chip1.lowerLeft)];
    assert BumpsOf(rows, s.chip2.lowerLeft) == BumpsOf(rows[..n], s.chip2.lowerLeft) + [BumpOf(rows[n], s.chip2.lowerLeft)];
  }

  /** A `.b` block closed by a blank line appends its bumps, in file order, to the chip that
      `loadingChip1` selects, each at its offset plus that chip's corner, and returns to
      command state. */
  lemma BumpBlock(s: Gmp, b: Line, rows: seq<Line>, rest: seq<Line>)
    requires s.mode == LoadingCommand && b != [] && b[0].text == ".b" && NonBlank(rows)
    ensures Run(s, [b] + rows + [[]] + rest) == Run(AddBumps(s, rows).(mode := LoadingCommand), rest)
  {
    var s1 := s.(mode := LoadingBump);
    assert Step(s, b) == s1;
    RunConcat(s, [b], rows + [[]] + rest);
    assert [b] + rows + [[]] + rest == [b] + (rows + [[]] + rest);
    RunConcat(s1, rows, [[]] + rest);
    assert rows + [[]] + rest == rows + ([[]] + rest);
    BumpRows(s1, rows);
    BlankLine(AddBumps(s1, rows), rest);
  }
}
