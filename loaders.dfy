/** The capacity (`.gcl`) and cost (`.cst`) read loops of the C++ evaluator and router.
    Both programs run the same machines. In the capacity loop they differ only in where a
    data line's fields start (`first`): the evaluator reads a data line from its first
    token, the router has already consumed the first token as a command and reads from the
    second. In the cost loop they also differ in the type read (`CostReader`): the
    evaluator extracts `double`s, the router `int`s. */
module Loaders {
  import opened Common
  import opened Grid

  // ---------------------------------------------------------------- capacities

  datatype GclMode = GclCommand | GclLoading

  /** The loop's `state`, `loadedGCellCount`, the grid it writes, and whether it has
      indexed outside the grid (undefined behaviour in the source). */
  datatype Gcl = Gcl(mode: GclMode, count: nat, grid: Grid, faulted: bool)

  /** Where capacity record `k` goes in a grid with `cols` columns: row `k / cols`, column `k % cols`. */
  function RecordCell(k: nat, cols: nat): (c: CellRef)
    requires cols > 0
    ensures c.y * cols + c.x == k && 0 <= c.x < cols && 0 <= c.y
  {
    CellRef(k % cols, k / cols)
  }

  /** The cell with both capacities set; an `int` stored in an `unsigned int` member. */
  function WithCapacity(c: GCell, left: int, bottom: int): (d: GCell)
    ensures d.leftEdgeCapacity == ToUnsigned(left) && d.bottomEdgeCapacity == ToUnsigned(bottom)
    ensures d.(leftEdgeCapacity := c.leftEdgeCapacity, bottomEdgeCapacity := c.bottomEdgeCapacity) == c
  {
    c.(leftEdgeCapacity := ToUnsigned(left), bottomEdgeCapacity := ToUnsigned(bottom))
  }

  /** One data line: the record's two fields (0 when missing) go to the next cell in row-major order. */
  function Record(s: Gcl, line: Line, first: nat): Gcl {
    var cols := if |s.grid| == 0 then 0 else |s.grid[0]|;
    if cols == 0 then s.(faulted := true)
    else
      var c := RecordCell(s.count, cols);
      if !InGrid(s.grid, c) then s.(faulted := true)
      else
        s.(grid := s.grid[c.y := s.grid[c.y][c.x := WithCapacity(s.grid[c.y][c.x], Field(line, first, 0), Field(line, first + 1, 0))]],
           count := s.count + 1)
  }

  /** One iteration of the capacity read loop. `.ec` starts the records; nothing leaves that state. */
  function GclStep(s: Gcl, line: Line, first: nat): Gcl {
    if line == [] || s.faulted then s
    else match s.mode
      case GclCommand => if line[0].text == ".ec" then s.(mode := GclLoading) else s
      case GclLoading => Record(s, line, first)
  }

  function GclRun(s: Gcl, lines: seq<Line>, first: nat): Gcl
    decreases lines
  {
    if lines == [] then s else GclRun(GclStep(s, lines[0], first), lines[1..], first)
  }

  /** The k-th record sets the left and bottom capacity of `gcells[k / cols][k % cols]` and
      changes nothing else; a record beyond the last cell is undefined behaviour. */
  lemma CapacityRecord(s: Gcl, line: Line, first: nat, rows: nat, cols: nat)
    requires IsRect(s.grid, rows, cols) && rows > 0 && cols > 0
    requires !s.faulted && s.mode == GclLoading && line != []
    ensures var r := GclStep(s, line, first);
      var y, x := s.count / cols, s.count % cols;
      if y >= rows then r.faulted
      else
        !r.faulted && r.count == s.count + 1 && r.mode == GclLoading && IsRect(r.grid, rows, cols) &&
        r.grid[y][x] == WithCapacity(s.grid[y][x], Field(line, first, 0), Field(line, first + 1, 0)) &&
        forall yy, xx :: 0 <= yy < rows && 0 <= xx < cols && (yy, xx) != (y, x) ==> r.grid[yy][xx] == s.grid[yy][xx]
  {
  }

  /** Row-major index of cell (x, y) in a grid with `cols` columns, `y * cols + x`
      (written recursively so that proofs about it stay linear). */
  function RowMajor(y: nat, x: nat, cols: nat): nat {
    if y == 0 then x else RowMajor(y - 1, x, cols) + cols
  }

  lemma {:induction false} RowMajorValue(y: nat, x: nat, cols: nat)
    ensures RowMajor(y, x, cols) == y * cols + x
  {
    if y > 0 {
      RowMajorValue(y - 1, x, cols);
    }
  }

  /** Record `k` lands in the cell whose row-major index is `k`. */
  lemma RecordCellIndex(k: nat, cols: nat)
    requires cols > 0
    ensures RowMajor(RecordCell(k, cols).y, RecordCell(k, cols).x, cols) == k
  {
    RowMajorValue(RecordCell(k, cols).y, RecordCell(k, cols).x, cols);
  }

  /** Distinct cells have distinct row-major indices. */
  lemma RowMajorInjective(y: nat, x: nat, y0: nat, x0: nat, cols: nat)
    requires x < cols && x0 < cols && (y, x) != (y0, x0)
    ensures RowMajor(y, x, cols) != RowMajor(y0, x0, cols)
  {
    RowMajorValue(y, x, cols);
    RowMajorValue(y0, x0, cols);
    if y < y0 {
      MulMono(y + 1, y0, cols);
    } else if y > y0 {
      MulMono(y0 + 1, y, cols);
    }
  }

  /** The indices of a `rows` x `cols` grid are exactly `0 .. rows * cols - 1`. */
  lemma RowMajorBound(y: nat, x: nat, rows: nat, cols: nat)
    requires y < rows && x < cols
    ensures RowMajor(y, x, cols) < RowMajor(rows, 0, cols)
  {
    RowMajorValue(y, x, cols);
    RowMajorValue(rows, 0, cols);
    MulMono(y + 1, rows, cols);
  }

  lemma RecordCellInRows(k: nat, rows: nat, cols: nat)
    requires cols > 0 && k < RowMajor(rows, 0, cols)
    ensures RecordCell(k, cols).y < rows
  {
    RowMajorValue(rows, 0, cols);
    var c := RecordCell(k, cols);
    if c.y >= rows {
      MulMono(rows, c.y, cols);
    }
  }

  lemma MulMono(a: nat, b: nat, c: nat)
    requires a <= b
    ensures a * c <= b * c
  {
  }

  /** The capacities after records `0 .. n-1`: each cell with row-major index below `n`
      carries that record, every other cell its old capacities. */
  predicate LoadedUpTo(g: Grid, g0: Grid, recs: seq<Line>, first: nat, rows: nat, cols: nat, n: nat)
    requires IsRect(g, rows, cols) && IsRect(g0, rows, cols) && n <= |recs|
  {
    forall y, x :: 0 <= y < rows && 0 <= x < cols ==>
      g[y][x] == (if RowMajor(y, x, cols) < n
                  then WithCapacity(g0[y][x], Field(recs[RowMajor(y, x, cols)], first, 0), Field(recs[RowMajor(y, x, cols)], first + 1, 0))
                  else g0[y][x])
  }

  lemma {:induction false} RecordsLoaded(s: Gcl, recs: seq<Line>, first: nat, rows: nat, cols: nat, n: nat)
    requires IsRect(s.grid, rows, cols) && rows > 0 && cols > 0
    requires !s.faulted && s.mode == GclLoading && s.count == 0
    requires n <= |recs| && n <= RowMajor(rows, 0, cols) && NonBlankLines(recs)
    ensures var r := GclRun(s, recs[..n], first);
      !r.faulted && r.count == n && r.mode == GclLoading && IsRect(r.grid, rows, cols) &&
      LoadedUpTo(r.grid, s.grid, recs, first, rows, cols, n)
  {
    if n == 0 {
      forall y, x | 0 <= y < rows && 0 <= x < cols ensures !(RowMajor(y, x, cols) < 0) { }
    } else {
      var k := n - 1;
      RecordsLoaded(s, recs, first, rows, cols, k);
      var p := GclRun(s, recs[..k], first);
      GclRunConcat(s, recs[..k], [recs[k]], first);
      assert recs[..k] + [recs[k]] == recs[..n];
      assert GclRun(p, [recs[k]], first) == GclStep(p, recs[k], first);
      var c := RecordCell(k, cols);
      RecordCellInRows(k, rows, cols);
      RecordCellIndex(k, cols);
      CapacityRecord(p, recs[k], first, rows, cols);
      var r := GclStep(p, recs[k], first);
      forall y, x | 0 <= y < rows && 0 <= x < cols
        ensures r.grid[y][x] == (if RowMajor(y, x, cols) < n
                  then WithCapacity(s.grid[y][x], Field(recs[RowMajor(y, x, cols)], first, 0), Field(recs[RowMajor(y, x, cols)], first + 1, 0))
                  else s.grid[y][x])
      {
        if (y, x) != (c.y, c.x) {
          RowMajorInjective(y, x, c.y, c.x, cols);
        }
      }
    }
  }

  predicate NonBlankLines(lines: seq<Line>) {
    forall k :: 0 <= k < |lines| ==> lines[k] != []
  }

  lemma {:induction false} GclRunConcat(s: Gcl, a: seq<Line>, b: seq<Line>, first: nat)
    ensures GclRun(s, a + b, first) == GclRun(GclRun(s, a, first), b, first)
    decreases a
  {
    if a != [] {
      assert (a + b)[1..] == a[1..] + b;
      GclRunConcat(GclStep(s, a[0], first), a[1..], b, first);
    } else {
      assert a + b == b;
    }
  }

  /** A capacity file of `.ec` and one record per cell gives the cell with row-major index
      `k` the capacities of record `k`, and nothing else of the grid changes. */
  lemma CapacityFile(g: Grid, rows: nat, cols: nat, ec: Line, recs: seq<Line>, first: nat)
    requires IsRect(g, rows, cols) && rows > 0 && cols > 0
    requires ec != [] && ec[0].text == ".ec" && |recs| == RowMajor(rows, 0, cols) && NonBlankLines(recs)
    ensures var r := GclRun(Gcl(GclCommand, 0, g, false), [ec] + recs, first);
      !r.faulted && IsRect(r.grid, rows, cols) &&
      forall y, x :: 0 <= y < rows && 0 <= x < cols ==>
        (RowMajor(y, x, cols) < |recs| &&
         r.grid[y][x] == WithCapacity(g[y][x], Field(recs[RowMajor(y, x, cols)], first, 0), Field(recs[RowMajor(y, x, cols)], first + 1, 0)))
  {
    var s := Gcl(GclLoading, 0, g, false);
    assert GclStep(Gcl(GclCommand, 0, g, false), ec, first) == s;
    assert ([ec] + recs)[1..] == recs;
    assert GclRun(Gcl(GclCommand, 0, g, false), [ec] + recs, first) == GclRun(s, recs, first);
    assert recs[..|recs|] == recs;
    RecordsLoaded(s, recs, first, rows, cols, |recs|);
    var r := GclRun(s, recs, first);
    forall y, x | 0 <= y < rows && 0 <= x < cols
      ensures RowMajor(y, x, cols) < |recs|
    {
      RowMajorBound(y, x, rows, cols);
    }
  }

  // ---------------------------------------------------------------- costs

  datatype CstMode = CstCommand | CstViaCost | CstLayer

  /** The loop's `state`, `currentRow`, `currentLayer` and the grid whose costs it writes. */
  datatype Cst = Cst(mode: CstMode, row: nat, layer: nat, grid: Grid, faulted: bool)

  /** How a layer line's values are read. The evaluator extracts a `double` per column from
      the line's first token on; the router has already taken the first token as a command
      and extracts an `int` per column from the second token on. */
  datatype CostReader = EvaluatorCosts | RouterCosts

  /** The value the evaluator's `iss >> cost` leaves for column `x` of a layer line: the
      token at `x`; past the end of the line the extraction fails and `cost` keeps the line's
      last value (indeterminate, here `Missing`, when the line had no value at all). */
  function CostAt(line: Line, x: nat): (t: Token)
    ensures x < |line| ==> t == line[x]
    ensures x >= |line| && 0 < |line| ==> t == line[|line| - 1]
    ensures line == [] ==> t == Missing
  {
    if x < |line| then line[x]
    else if 0 < |line| then line[|line| - 1]
    else Missing
  }

  // ------------------------------------------------------ `int` stream extraction

  const IntMin: int := -0x8000_0000
  const IntMax: int := 0x7fff_ffff

  /** The number of decimal digits at the front of `s`. */
  function DigitRun(s: string): (n: nat)
    ensures n <= |s|
  {
    if s == [] || !IsDigit(s[0]) then 0 else 1 + DigitRun(s[1..])
  }

  /** `DigitRun` counts exactly the run: all of it digits, and the next character not one. */
  lemma {:induction false} DigitRunShape(s: string)
    ensures forall k :: 0 <= k < DigitRun(s) ==> IsDigit(s[k])
    ensures DigitRun(s) < |s| ==> !IsDigit(s[DigitRun(s)])
  {
    if s != [] && IsDigit(s[0]) {
      DigitRunShape(s[1..]);
    }
  }

  /** The length of the integer an `int` extraction accepts at the front of `s`: an optional
      sign followed by at least one digit; 0 when `s` does not start with one. */
  function IntPrefix(s: string): (n: nat)
    ensures n <= |s|
  {
    var sign := if |s| > 0 && (s[0] == '+' || s[0] == '-') then 1 else 0;
    var d := DigitRun(s[sign..]);
    if d == 0 then 0 else sign + d
  }

  /** The integer an `int` extraction accepts ends on a digit and before any further digit,
      and nothing is accepted from a string that starts with neither a sign nor a digit. */
  lemma IntPrefixShape(s: string)
    ensures var n := IntPrefix(s);
      (n > 0 ==> IsDigit(s[n - 1]) && (n == |s| || !IsDigit(s[n]))) &&
      (|s| > 0 && !IsDigit(s[0]) && s[0] != '+' && s[0] != '-' ==> n == 0)
  {
    var sign := if |s| > 0 && (s[0] == '+' || s[0] == '-') then 1 else 0;
    DigitRunShape(s[sign..]);
  }

  /** The value of the integer at the front of `s`, with its sign; 0 when there is none. */
  function PrefixValue(s: string): int {
    var n := IntPrefix(s);
    if n == 0 then 0
    else if s[0] == '-' then -(DigitsValue(s[1..n]) as int)
    else if s[0] == '+' then DigitsValue(s[1..n])
    else DigitsValue(s[..n])
  }

  predicate InIntRange(v: int) {
    IntMin <= v <= IntMax
  }

  /** The value an `int` extraction stores for `v`: `v` itself, or the nearest bound. */
  function Clamp(v: int): (c: int)
    ensures InIntRange(c)
    ensures InIntRange(v) ==> c == v
  {
    if v > IntMax then IntMax else if v < IntMin then IntMin else v
  }

  /** A line's stream between two `int` extractions: the tokens from `next` on are untouched,
      `rest` is the unread tail of a token the last extraction stopped inside, `ok` is whether
      the stream is still good, and `cost` is the variable's value. */
  datatype IntStream = IntStream(next: nat, rest: string, ok: bool, cost: int)

  /** An extraction from `text`, with `next` the first untouched token after it: it reads
      the integer `text` starts with and stops in front of the first character that cannot
      continue it. With no integer there it stores 0 and fails; beyond the `int` range it
      stores the nearest bound and fails. */
  function ReadInt(text: string, next: nat): (r: IntStream)
    ensures r.ok <==> IntPrefix(text) > 0 && InIntRange(PrefixValue(text))
    ensures r.rest == text[IntPrefix(text)..] && r.next == next
  {
    var n := IntPrefix(text);
    IntStream(next, text[n..], n > 0 && InIntRange(PrefixValue(text)), Clamp(PrefixValue(text)))
  }

  /** One `iss >> cost` into an `int`. A stream that has failed, or has nothing left, leaves
      `cost` as it was and is failed; otherwise the extraction reads from the unread tail of
      the current token, or else from the next token. */
  function Extract(line: Line, s: IntStream): (r: IntStream)
    ensures !s.ok ==> r == s
    ensures r.ok ==> InIntRange(r.cost)
    ensures r.cost != s.cost ==> s.ok
  {
    if !s.ok then s
    else if s.rest == [] && s.next >= |line| then s.(ok := false)
    else if s.rest != [] then ReadInt(s.rest, s.next)
    else ReadInt(line[s.next].text, s.next + 1)
  }

  /** The router's stream once `iss >> command` has taken the first token; `cost` is
      indeterminate (0 here). */
  const AfterCommand: IntStream := IntStream(1, "", true, 0)

  /** The stream after `n` extractions; the one for column `x` is the `x + 1`-th. */
  function StreamAfter(line: Line, n: nat): IntStream {
    if n == 0 then AfterCommand else Extract(line, StreamAfter(line, n - 1))
  }

  /** The `double` the router stores from its `int`: a token carrying only the value. */
  function IntCost(v: int): (t: Token)
    ensures t.num == v
  {
    Token("", v)
  }

  /** The value the router's `iss >> cost` leaves for column `x`. */
  function IntCostAt(line: Line, x: nat): Token {
    IntCost(StreamAfter(line, x + 1).cost)
  }

  /** A string the `int` extraction reads whole. */
  predicate IsIntText(t: string) {
    0 < IntPrefix(t) == |t| && InIntRange(PrefixValue(t))
  }

  /** A token the `int` extraction reads whole, as the integer it carries. */
  predicate IsIntToken(t: Token) {
    IsIntText(t.text) && PrefixValue(t.text) == t.num
  }

  /** A token whose integer part is followed by a `.`, as in `47.20`. */
  predicate StopsAtPoint(t: string) {
    var n := IntPrefix(t);
    0 < n < |t| && t[n] == '.' && InIntRange(PrefixValue(t))
  }

  /** An extraction from the start of a whole-integer token reads all of it. */
  lemma ExtractWhole(line: Line, k: nat, c: int)
    requires k < |line| && IsIntToken(line[k])
    ensures Extract(line, IntStream(k, "", true, c)) == IntStream(k + 1, "", true, line[k].num)
  {
    var t := line[k].text;
    assert t[|t|..] == "";
  }

  /** The digits of a string of digits are all read. */
  lemma {:induction false} AllDigits(s: string)
    requires forall k :: 0 <= k < |s| ==> IsDigit(s[k])
    ensures DigitRun(s) == |s|
  {
    if s != [] {
      AllDigits(s[1..]);
    }
  }

  /** An integer the generator writes (`NatToString`) is a token the `int` extraction reads
      whole, with its own value. */
  lemma WrittenIntReadsWhole(n: nat)
    requires n <= IntMax
    ensures IsIntToken(NumToken(n))
  {
    NatToStringReadsBack(n);
    DigitsReadWhole(NatToString(n));
  }

  /** A non-empty string of digits is read whole, as its decimal value. */
  lemma DigitsReadWhole(s: string)
    requires |s| > 0 && forall k :: 0 <= k < |s| ==> IsDigit(s[k])
    ensures IntPrefix(s) == |s| && PrefixValue(s) == DigitsValue(s)
  {
    AllDigits(s);
    assert s[0..] == s && s[..|s|] == s;
  }

  /** A row of whole integers after the command token. */
  predicate IntegerRow(line: Line) {
    |line| > 1 && forall k :: 1 <= k < |line| ==> WholeAt(line, k)
  }

  /** Token `k` of the line is read whole. */
  predicate WholeAt(line: Line, k: nat)
    requires k < |line|
  {
    IsIntToken(line[k])
  }

  /** The `n`-th extraction starts at the front of token `n`, after `n - 1` whole tokens,
      and reads it whole. */
  lemma WholeStep(line: Line, n: nat, c: int)
    requires 0 < n < |line| && WholeAt(line, n)
    requires StreamAfter(line, n - 1) == IntStream(n, "", true, c)
    ensures StreamAfter(line, n) == IntStream(n + 1, "", true, line[n].num)
  {
    ExtractWhole(line, n, c);
  }

  /** On such a row, the `n`-th extraction (the one for column `n - 1`) reads token `n` whole. */
  lemma {:induction false} IntegerRowStream(line: Line, n: nat)
    requires IntegerRow(line) && 0 < n < |line|
    ensures StreamAfter(line, n) == IntStream(n + 1, "", true, line[n].num)
  {
    assert WholeAt(line, n);
    if n == 1 {
      WholeStep(line, 1, 0);
    } else {
      IntegerRowStream(line, n - 1);
      WholeStep(line, n, line[n - 1].num);
    }
  }

  /** An extraction at the end of the line fails and keeps `cost`. */
  lemma EndStep(line: Line, n: nat)
    requires n > 0 && StreamAfter(line, n - 1).rest == "" && StreamAfter(line, n - 1).next >= |line|
    ensures StreamAfter(line, n) == StreamAfter(line, n - 1).(ok := false)
  {
  }

  /** An extraction from a failed stream changes nothing. */
  lemma FailedStep(line: Line, n: nat)
    requires n > 0 && !StreamAfter(line, n - 1).ok
    ensures StreamAfter(line, n) == StreamAfter(line, n - 1)
  {
  }

  /** Past the row's last token the stream has failed and `cost` keeps the last value. */
  lemma {:induction false} IntegerRowPastEnd(line: Line, n: nat)
    requires IntegerRow(line) && n >= |line|
    ensures StreamAfter(line, n) == IntStream(|line|, "", false, line[|line| - 1].num)
  {
    if n == |line| {
      IntegerRowStream(line, n - 1);
      EndStep(line, n);
    } else {
      IntegerRowPastEnd(line, n - 1);
      FailedStep(line, n);
    }
  }

  /** A row of whole integers: column `x` gets the token at `x + 1`, and once the line runs
      out every later column keeps the last one. */
  lemma IntegerRowCosts(line: Line, x: nat)
    requires IntegerRow(line)
    ensures x + 1 < |line| ==> IntCostAt(line, x).num == line[x + 1].num
    ensures x + 1 >= |line| ==> IntCostAt(line, x).num == line[|line| - 1].num
  {
    if x + 1 < |line| {
      IntegerRowStream(line, x + 1);
    } else {
      IntegerRowPastEnd(line, x + 1);
    }
  }

  /** The first extraction of such a row stops at the `.`, and the second fails there. */
  lemma PointStops(line: Line)
    requires |line| > 1 && StopsAtPoint(line[1].text)
    ensures var t := line[1].text; var n := IntPrefix(t);
      StreamAfter(line, 1) == IntStream(2, t[n..], true, PrefixValue(t)) &&
      StreamAfter(line, 2) == IntStream(2, t[n..], false, 0)
  {
    var t := line[1].text;
    var n := IntPrefix(t);
    assert StreamAfter(line, 1) == Extract(line, AfterCommand);
    var s1 := IntStream(2, t[n..], true, PrefixValue(t));
    assert Extract(line, AfterCommand) == s1;
    assert t[n..][0] == '.';
    assert IntPrefix(t[n..]) == 0;
    assert StreamAfter(line, 2) == Extract(line, s1);
  }

  /** Once failed at the `.`, the stream stays so: every later extraction changes nothing. */
  lemma {:induction false} PointStaysFailed(line: Line, n: nat)
    requires |line| > 1 && StopsAtPoint(line[1].text) && n > 1
    ensures var t := line[1].text;
      StreamAfter(line, n) == IntStream(2, t[IntPrefix(t)..], false, 0)
  {
    if n == 2 {
      PointStops(line);
    } else {
      PointStaysFailed(line, n - 1);
      FailedStep(line, n);
    }
  }

  /** A row written with fractional values, as the generator writes its costs: column 0 gets
      the integer part of the value after the command token and every later column 0, since
      the next extraction stops at the `.` and fails. */
  lemma FractionalRowCosts(line: Line, x: nat)
    requires |line| > 1 && StopsAtPoint(line[1].text)
    ensures x == 0 ==> IntCostAt(line, x).num == PrefixValue(line[1].text)
    ensures x > 0 ==> IntCostAt(line, x).num == 0 && !StreamAfter(line, x + 1).ok
  {
    if x == 0 {
      PointStops(line);
    } else {
      PointStaysFailed(line, x + 1);
    }
  }

  /** The generated layer line `12.50 47.20 3.10`: the router stores 47, 0 and 0. */
  lemma FractionalRowExample(line: Line)
    requires line == [Token("12.50", 12), Token("47.20", 47), Token("3.10", 3)]
    ensures IntCostAt(line, 0).num == 47 && IntCostAt(line, 1).num == 0 && IntCostAt(line, 2).num == 0
  {
    var t := line[1].text;
    assert DigitRun(t) == 2 by {
      assert t[0] == '4' && t[1] == '7' && t[2] == '.';
      assert DigitRun(t[2..]) == 0;
      assert t[1..][1..] == t[2..];
    }
    assert IntPrefix(t) == 2;
    assert t[..2] == "47";
    assert DigitsValue("47") == 47 by {
      assert "47"[..1] == "4";
      assert "4"[..0] == "";
    }
    FractionalRowCosts(line, 0);
    FractionalRowCosts(line, 1);
    FractionalRowCosts(line, 2);
  }

  /** The value a column of a layer line gets. */
  function ColumnCost(line: Line, rd: CostReader, x: nat): Token {
    match rd
    case EvaluatorCosts => CostAt(line, x)
    case RouterCosts => IntCostAt(line, x)
  }

  /** The cost of a cell on layer `layer`: layer 0 is M1, every later layer M2. */
  function WithCost(c: GCell, layer: nat, t: Token): GCell {
    if layer == 0 then c.(costM1 := t) else c.(costM2 := t)
  }

  function CostRow(row: seq<GCell>, line: Line, rd: CostReader, layer: nat): (r: seq<GCell>)
    ensures |r| == |row|
    ensures forall x {:trigger r[x]} :: 0 <= x < |r| ==> r[x] == WithCost(row[x], layer, ColumnCost(line, rd, x))
  {
    seq(|row|, x requires 0 <= x < |row| => WithCost(row[x], layer, ColumnCost(line, rd, x)))
  }

  /** One iteration of the cost read loop. `.alpha`, `.beta`, `.gamma`, `.delta` are read on
      their own line, `.v` makes the next line the via cost; after `.l` each line is a row of
      the current layer, and after the last row the row counter wraps to 0, the layer
      advances and the loop returns to command state. */
  function CstStep(s: Cst, line: Line, rd: CostReader): Cst {
    if line == [] || s.faulted then s
    else match s.mode
      case CstCommand =>
        if line[0].text == ".l" then s.(mode := CstLayer)
        else if line[0].text == ".v" then s.(mode := CstViaCost)
        else s
      case CstViaCost => s.(mode := CstCommand)
      case CstLayer =>
        if s.row >= |s.grid| then s.(faulted := true)
        else
          var g := s.grid[s.row := CostRow(s.grid[s.row], line, rd, s.layer)];
          if s.row + 1 == |s.grid| then s.(grid := g, row := 0, layer := s.layer + 1, mode := CstCommand)
          else s.(grid := g, row := s.row + 1)
  }

  function CstRun(s: Cst, lines: seq<Line>, rd: CostReader): Cst
    decreases lines
  {
    if lines == [] then s else CstRun(CstStep(s, lines[0], rd), lines[1..], rd)
  }

  lemma {:induction false} CstRunConcat(s: Cst, a: seq<Line>, b: seq<Line>, rd: CostReader)
    ensures CstRun(s, a + b, rd) == CstRun(CstRun(s, a, rd), b, rd)
    decreases a
  {
    if a != [] {
      assert (a + b)[1..] == a[1..] + b;
      CstRunConcat(CstStep(s, a[0], rd), a[1..], b, rd);
    } else {
      assert a + b == b;
    }
  }

  /** The row counter stays inside the grid, and outside a layer block it is 0. */
  predicate RowInRange(s: Cst) {
    (s.mode != CstLayer ==> s.row == 0) && (|s.grid| > 0 ==> s.row < |s.grid|)
  }

  lemma {:induction false} RowStaysInRange(s: Cst, lines: seq<Line>, rd: CostReader)
    requires RowInRange(s)
    ensures RowInRange(CstRun(s, lines, rd))
    ensures |CstRun(s, lines, rd).grid| == |s.grid|
    ensures |s.grid| > 0 && !s.faulted ==> !CstRun(s, lines, rd).faulted
    decreases lines
  {
    if lines != [] {
      RowStaysInRange(CstStep(s, lines[0], rd), lines[1..], rd);
    }
  }

  /** The layer's rows after `n` lines of a block: rows below `n` hold their line's costs. */
  lemma {:induction false} LayerRows(s: Cst, rows: seq<Line>, rd: CostReader, n: nat)
    requires s.mode == CstLayer && s.row == 0 && !s.faulted && n <= |rows| < |s.grid| + 1 && NonBlankLines(rows)
    requires n < |s.grid|
    ensures var r := CstRun(s, rows[..n], rd);
      !r.faulted && r.mode == CstLayer && r.row == n && r.layer == s.layer && |r.grid| == |s.grid| &&
      forall y :: 0 <= y < |s.grid| ==>
        r.grid[y] == if y < n then CostRow(s.grid[y], rows[y], rd, s.layer) else s.grid[y]
  {
    if n > 0 {
      LayerRows(s, rows, rd, n - 1);
      CstRunConcat(s, rows[..n - 1], [rows[n - 1]], rd);
      assert rows[..n - 1] + [rows[n - 1]] == rows[..n];
      var p := CstRun(s, rows[..n - 1], rd);
      assert CstRun(p, [rows[n - 1]], rd) == CstStep(p, rows[n - 1], rd);
      assert rows[n - 1] != [];
      InnerLayerRow(p, rows[n - 1], rd);
    }
  }

  /** A line of a layer block before its last fills the current row and moves to the next. */
  lemma InnerLayerRow(p: Cst, line: Line, rd: CostReader)
    requires p.mode == CstLayer && !p.faulted && line != [] && p.row + 1 < |p.grid|
    ensures CstStep(p, line, rd) ==
      p.(grid := p.grid[p.row := CostRow(p.grid[p.row], line, rd, p.layer)], row := p.row + 1)
  {
  }

  /** A `.l` line read in command state opens a layer block. */
  lemma OpenLayer(s: Cst, l: Line, rows: seq<Line>, rd: CostReader)
    requires s.mode == CstCommand && !s.faulted && l != [] && l[0].text == ".l"
    ensures CstRun(s, [l] + rows, rd) == CstRun(s.(mode := CstLayer), rows, rd)
  {
    assert CstStep(s, l, rd) == s.(mode := CstLayer);
    assert ([l] + rows)[1..] == rows;
  }

  /** The `rows` lines of a layer block fill the layer's rows and close the block. */
  lemma BlockRows(s1: Cst, rows: seq<Line>, rd: CostReader)
    requires s1.mode == CstLayer && s1.row == 0 && !s1.faulted && |s1.grid| > 0
    requires |rows| == |s1.grid| && NonBlankLines(rows)
    ensures var r := CstRun(s1, rows, rd);
      r.mode == CstCommand && r.row == 0 && r.layer == s1.layer + 1 && !r.faulted && |r.grid| == |s1.grid| &&
      forall y :: 0 <= y < |s1.grid| ==> r.grid[y] == CostRow(s1.grid[y], rows[y], rd, s1.layer)
  {
    var n := |rows| - 1;
    LayerRows(s1, rows, rd, n);
    CstRunConcat(s1, rows[..n], [rows[n]], rd);
    assert rows[..n] + [rows[n]] == rows;
    var p := CstRun(s1, rows[..n], rd);
    assert CstRun(p, [rows[n]], rd) == CstStep(p, rows[n], rd);
    LastLayerRow(p, rows[n], rd);
  }

  /** A `.l` block of exactly `rows` lines, read from command state, gives row y of the grid
      the costs of line y on the current layer (M1 for the first block, M2 after), and leaves
      the loop in command state with the row counter back at 0 and the layer advanced. */
  lemma LayerBlock(s: Cst, l: Line, rows: seq<Line>, rd: CostReader)
    requires s.mode == CstCommand && s.row == 0 && !s.faulted && |s.grid| > 0
    requires l != [] && l[0].text == ".l" && |rows| == |s.grid| && NonBlankLines(rows)
    ensures var r := CstRun(s, [l] + rows, rd);
      r.mode == CstCommand && r.row == 0 && r.layer == s.layer + 1 && !r.faulted && |r.grid| == |s.grid| &&
      forall y :: 0 <= y < |s.grid| ==> r.grid[y] == CostRow(s.grid[y], rows[y], rd, s.layer)
  {
    OpenLayer(s, l, rows, rd);
    BlockRows(s.(mode := CstLayer), rows, rd);
  }

  /** The block's last line fills the last row and wraps the counter. */
  lemma LastLayerRow(p: Cst, line: Line, rd: CostReader)
    requires p.mode == CstLayer && !p.faulted && line != [] && p.row + 1 == |p.grid|
    ensures CstStep(p, line, rd) ==
      p.(grid := p.grid[p.row := CostRow(p.grid[p.row], line, rd, p.layer)], row := 0, layer := p.layer + 1, mode := CstCommand)
  {
  }

  /** The evaluator's column loop of a layer line: `iss >> cost` for every cell of the row,
      each cell of the current layer taking the value the extraction leaves in `cost`. */
  method FillCostRow(row: seq<GCell>, line: Line, layer: nat) returns (r: seq<GCell>)
    ensures r == CostRow(row, line, EvaluatorCosts, layer)
  {
    r := row;
    var cost := Missing;
    var x := 0;
    while x < |row|
      invariant 0 <= x <= |row| && |r| == |row|
      invariant forall k :: 0 <= k < x ==> r[k] == WithCost(row[k], layer, CostAt(line, k))
      invariant forall k :: x <= k < |row| ==> r[k] == row[k]
      invariant cost == if x == 0 then Missing else CostAt(line, x - 1)
    {
      if x < |line| {
        cost := line[x];
      }
      r := r[x := WithCost(r[x], layer, cost)];
      x := x + 1;
    }
    var spec := CostRow(row, line, EvaluatorCosts, layer);
    assert |spec| == |r|;
    assert forall k :: 0 <= k < |r| ==> r[k] == spec[k];
  }

  /** The router's column loop of a layer line: one `int` extraction per cell of the row,
      each cell of the current layer taking the value the extraction leaves in `cost`. */
  method FillIntCostRow(row: seq<GCell>, line: Line, layer: nat) returns (r: seq<GCell>)
    ensures r == CostRow(row, line, RouterCosts, layer)
  {
    r := row;
    var stream := AfterCommand;
    var x := 0;
    while x < |row|
      invariant 0 <= x <= |row| && |r| == |row|
      invariant forall k :: 0 <= k < x ==> r[k] == WithCost(row[k], layer, IntCostAt(line, k))
      invariant forall k :: x <= k < |row| ==> r[k] == row[k]
      invariant stream == StreamAfter(line, x)
    {
      stream := Extract(line, stream);
      assert IntCost(stream.cost) == IntCostAt(line, x);
      r := r[x := WithCost(r[x], layer, IntCost(stream.cost))];
      x := x + 1;
    }
    var spec := CostRow(row, line, RouterCosts, layer);
    assert |spec| == |r|;
    assert forall k :: 0 <= k < |r| ==> r[k] == spec[k];
  }

  /** The edge counters of every cell. */
  predicate SameCounts(g: Grid, h: Grid) {
    |g| == |h| &&
    forall y :: 0 <= y < |g| ==>
      |g[y]| == |h[y]| &&
      forall x :: 0 <= x < |g[y]| ==>
        g[y][x].bottomEdgeCount == h[y][x].bottomEdgeCount && g[y][x].leftEdgeCount == h[y][x].leftEdgeCount
  }

  /** Loading capacities touches no edge counter. */
  lemma {:induction false} GclKeepsCounts(s: Gcl, lines: seq<Line>, first: nat)
    ensures SameCounts(GclRun(s, lines, first).grid, s.grid)
    decreases lines
  {
    if lines != [] {
      GclKeepsCounts(GclStep(s, lines[0], first), lines[1..], first);
    }
  }

  /** Loading costs touches no edge counter. */
  lemma {:induction false} CstKeepsCounts(s: Cst, lines: seq<Line>, rd: CostReader)
    ensures SameCounts(CstRun(s, lines, rd).grid, s.grid)
    decreases lines
  {
    if lines != [] {
      CstKeepsCounts(CstStep(s, lines[0], rd), lines[1..], rd);
    }
  }

  lemma {:induction false} GclFaultedRun(s: Gcl, lines: seq<Line>, first: nat)
    requires s.faulted
    ensures GclRun(s, lines, first) == s
    decreases lines
  {
    if lines != [] {
      GclFaultedRun(s, lines[1..], first);
    }
  }

  lemma {:induction false} CstFaultedRun(s: Cst, lines: seq<Line>, rd: CostReader)
    requires s.faulted
    ensures CstRun(s, lines, rd) == s
    decreases lines
  {
    if lines != [] {
      CstFaultedRun(s, lines[1..], rd);
    }
  }
}
