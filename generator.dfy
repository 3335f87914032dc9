/** testcase/generator.py: the test-case constants, the rectilinear distance from a point to a
    chip, and the three writers. A file is produced as its lines of tokens; the random draws
    (`random.randint`) are parameters constrained to their ranges, and a cost file is reduced
    to the integer base of each entry (the written value is that base times a uniform draw). */
module Generator {
  import opened Common

  const RoutingAreaLowerLeft: Point := Point(0, 0)
  const RoutingAreaSize: Point := Point(15000, 10000)
  const NumNets: nat := 500
  const GCellSize: Point := Point(10, 10)
  /** `ROUTING_AREA_WIDTH_HEIGHT // GCELL_WIDTH_HEIGHT`, 1500 by 1000. */
  const GridWidth: nat := 15000 / 10
  const GridHeight: nat := 10000 / 10
  const Chip1LowerLeft: Point := Point(400, 400)
  const Chip1Size: Point := Point(1000, 1000)
  const Chip2LowerLeft: Point := Point(13600, 8600)
  const Chip2Size: Point := Point(1000, 1000)
  const OnChip: int := 50
  const EdgeCapacityMin: nat := 1
  const EdgeCapacityMax: nat := 3

  // ---------------------------------------------------------------- distance to a chip

  /** The closed rectangle `[ll.x, ll.x + size.x] x [ll.y, ll.y + size.y]`. */
  predicate OnRect(x: int, y: int, ll: Point, size: Point) {
    ll.x <= x <= ll.x + size.x && ll.y <= y <= ll.y + size.y
  }

  /** `diff_from_chip1`/`diff_from_chip2` for a chip at `ll` of size `size`, branch for branch. */
  function DiffFromChip(x: int, y: int, ll: Point, size: Point): int {
    var x1, y1 := ll.x, ll.y;
    var x2, y2 := x1 + size.x, y1 + size.y;
    if x < x1 then
      if y < y1 then Abs(x - x1) + Abs(y - y1)
      else if y > y2 then Abs(x - x1) + Abs(y - y2)
      else x1 - x
    else if x > x2 then
      if y < y1 then Abs(x - x2) + Abs(y - y1)
      else if y > y2 then Abs(x - x2) + Abs(y - y2)
      else x - x2
    else
      if y < y1 then y1 - y
      else if y > y2 then y - y2
      else 0
  }

  function DiffFromChip1(x: int, y: int): int {
    DiffFromChip(x, y, Chip1LowerLeft, Chip1Size)
  }

  function DiffFromChip2(x: int, y: int): int {
    DiffFromChip(x, y, Chip2LowerLeft, Chip2Size)
  }

  /** How far `v` lies outside `[lo, hi]` on one axis. */
  function Overshoot(v: int, lo: int, hi: int): nat {
    if v < lo then lo - v else if v > hi then v - hi else 0
  }

  /** The distance is never negative, and it is zero exactly on the closed rectangle. */
  lemma DiffZeroIffOnChip(x: int, y: int, ll: Point, size: Point)
    ensures DiffFromChip(x, y, ll, size) >= 0
    ensures DiffFromChip(x, y, ll, size) == 0 <==> OnRect(x, y, ll, size)
  {
  }

  /** Outside on both axes (a corner region) the distance is the sum of both overshoots;
      outside on one axis only (an edge region) it is that axis's overshoot alone. */
  lemma DiffRegions(x: int, y: int, ll: Point, size: Point)
    ensures var ox := Overshoot(x, ll.x, ll.x + size.x);
      var oy := Overshoot(y, ll.y, ll.y + size.y);
      DiffFromChip(x, y, ll, size) == ox + oy &&
      (ox > 0 && oy > 0 ==> DiffFromChip(x, y, ll, size) > ox && DiffFromChip(x, y, ll, size) > oy) &&
      (oy == 0 ==> DiffFromChip(x, y, ll, size) == ox) &&
      (ox == 0 ==> DiffFromChip(x, y, ll, size) == oy)
  {
  }

  /** The nearest point of `[lo, hi]` to `v`. */
  function Clamp(v: int, lo: int, hi: int): (c: int)
    requires lo <= hi
    ensures lo <= c <= hi
  {
    if v < lo then lo else if v > hi then hi else v
  }

  /** For a chip of non-negative size the result is the Manhattan distance from (x, y) to
      the nearest point of the chip: no point of the chip is closer, and the clamped point
      is that close. */
  lemma DiffIsNearestDistance(x: int, y: int, ll: Point, size: Point)
    requires size.x >= 0 && size.y >= 0
    ensures forall px, py :: OnRect(px, py, ll, size) ==> Abs(x - px) + Abs(y - py) >= DiffFromChip(x, y, ll, size)
    ensures var cx, cy := Clamp(x, ll.x, ll.x + size.x), Clamp(y, ll.y, ll.y + size.y);
      OnRect(cx, cy, ll, size) && Abs(x - cx) + Abs(y - cy) == DiffFromChip(x, y, ll, size)
  {
    DiffRegions(x, y, ll, size);
  }

  // ---------------------------------------------------------------- capacity file

  function Cmd(t: string): Line {
    [Token(t, 0)]
  }

  /** A record of two drawn capacities, `left bottom`. */
  function CapacityLine(d: (nat, nat)): Line {
    [NumToken(d.0), NumToken(d.1)]
  }

  predicate CapacityDraws(draws: seq<(nat, nat)>) {
    |draws| == GridWidth * GridHeight &&
    forall k :: 0 <= k < |draws| ==>
      EdgeCapacityMin <= draws[k].0 <= EdgeCapacityMax && EdgeCapacityMin <= draws[k].1 <= EdgeCapacityMax
  }

  /** `.ec` and then one record per draw, in order. */
  predicate IsGclFile(lines: seq<Line>, draws: seq<(nat, nat)>) {
    |lines| == 1 + |draws| && lines[0] == Cmd(".ec") &&
    forall k :: 0 <= k < |draws| ==> lines[k + 1] == CapacityLine(draws[k])
  }

  /** `generate_gcl`: `.ec` and then one record per cell, rows of `GridWidth` cells from the
      bottom; `draws[i * GridWidth + j]` is the pair drawn for cell (j, i). */
  method GenerateGcl(draws: seq<(nat, nat)>) returns (lines: seq<Line>)
    requires CapacityDraws(draws)
    ensures |lines| == 1 + GridWidth * GridHeight && IsGclFile(lines, draws)
  {
    assert GridWidth == 1500 && GridHeight == 1000;
    lines := [Cmd(".ec")];
    var i := 0;
    while i < GridHeight
      invariant 0 <= i <= GridHeight
      invariant |lines| == 1 + i * GridWidth && lines[0] == Cmd(".ec")
      invariant forall k :: 0 <= k < i * GridWidth ==> lines[k + 1] == CapacityLine(draws[k])
    {
      var j := 0;
      while j < GridWidth
        invariant 0 <= j <= GridWidth
        invariant |lines| == 1 + i * GridWidth + j && lines[0] == Cmd(".ec")
        invariant forall k :: 0 <= k < i * GridWidth + j ==> lines[k + 1] == CapacityLine(draws[k])
      {
        lines := lines + [CapacityLine(draws[i * GridWidth + j])];
        j := j + 1;
      }
      i := i + 1;
    }
  }

  /** Every record of a generated capacity file is two integers in
      `[EdgeCapacityMin, EdgeCapacityMax]`. */
  lemma CapacityLinesInRange(draws: seq<(nat, nat)>, k: nat)
    requires CapacityDraws(draws) && k < |draws|
    ensures |CapacityLine(draws[k])| == 2
    ensures forall t :: 0 <= t < 2 ==> EdgeCapacityMin <= CapacityLine(draws[k])[t].num <= EdgeCapacityMax
  {
  }

  // ---------------------------------------------------------------- placement file

  function NumLine(ns: seq<nat>): (l: Line)
    ensures |l| == |ns| && forall k :: 0 <= k < |ns| ==> l[k] == NumToken(ns[k])
  {
    if ns == [] then [] else NumLine(ns[..|ns| - 1]) + [NumToken(ns[|ns| - 1])]
  }

  /** The bump line written at step `i`: the index and the drawn multiples of the gcell size. */
  function BumpLine(i: nat, d: (nat, nat)): Line {
    [NumToken(i), NumToken(d.0 * 10), NumToken(d.1 * 10)]
  }

  function BumpLines(draws: seq<(nat, nat)>): (r: seq<Line>)
    ensures |r| == |draws| && forall k :: 0 <= k < |draws| ==> r[k] == BumpLine(k + 1, draws[k])
  {
    if draws == [] then [] else BumpLines(draws[..|draws| - 1]) + [BumpLine(|draws|, draws[|draws| - 1])]
  }

  /** `randint(0, w)` and `randint(0, h)` with `w`, `h` chip1's size in gcells, for each net. */
  predicate OffsetDraws(draws: seq<(nat, nat)>) {
    |draws| == NumNets &&
    forall k :: 0 <= k < |draws| ==> draws[k].0 <= Chip1Size.x / GCellSize.x && draws[k].1 <= Chip1Size.y / GCellSize.y
  }

  /** The placement file as `generate_gmp` lays it out. */
  function GmpFile(draws1: seq<(nat, nat)>, draws2: seq<(nat, nat)>): seq<Line> {
    [Cmd(".ra"), NumLine([0, 0, 15000, 10000]), Cmd(".g"), NumLine([10, 10]),
     Cmd(".c"), NumLine([400, 400, 1000, 1000]), Cmd(".b")]
    + BumpLines(draws1) + [[]]
    + [Cmd(".c"), NumLine([13600, 8600, 1000, 1000]), Cmd(".b")]
    + BumpLines(draws2)
  }

  method WriteBumps(draws: seq<(nat, nat)>) returns (lines: seq<Line>)
    requires OffsetDraws(draws)
    ensures lines == BumpLines(draws)
  {
    lines := [];
    var i := 1;
    while i < NumNets + 1
      invariant 1 <= i <= NumNets + 1
      invariant lines == BumpLines(draws[..i - 1])
    {
      assert draws[..i][..i - 1] == draws[..i - 1];
      lines := lines + [BumpLine(i, draws[i - 1])];
      i := i + 1;
    }
    assert draws[..NumNets] == draws;
  }

  /** `generate_gmp`. */
  method GenerateGmp(draws1: seq<(nat, nat)>, draws2: seq<(nat, nat)>) returns (lines: seq<Line>)
    requires OffsetDraws(draws1) && OffsetDraws(draws2)
    ensures lines == GmpFile(draws1, draws2)
  {
    lines := [Cmd(".ra"), NumLine([0, 0, 15000, 10000]), Cmd(".g"), NumLine([10, 10]),
              Cmd(".c"), NumLine([400, 400, 1000, 1000]), Cmd(".b")];
    var bumps1 := WriteBumps(draws1);
    lines := lines + bumps1 + [[]];
    lines := lines + [Cmd(".c"), NumLine([13600, 8600, 1000, 1000]), Cmd(".b")];
    var bumps2 := WriteBumps(draws2);
    lines := lines + bumps2;
  }

  /** Bump indices run 1, 2, ..., NumNets in increasing order, and every offset is a multiple
      of the gcell size between 0 and the chip's size inclusive. */
  lemma BumpLinesShape(draws: seq<(nat, nat)>)
    requires OffsetDraws(draws)
    ensures var r := BumpLines(draws);
      |r| == NumNets &&
      (forall k :: 0 <= k < |r| ==> |r[k]| == 3 && r[k][0].num == k + 1) &&
      (forall k, m :: 0 <= k < m < |r| ==> r[k][0].num < r[m][0].num) &&
      (forall k :: 0 <= k < |r| ==>
         r[k][1].num % GCellSize.x == 0 && 0 <= r[k][1].num <= Chip1Size.x &&
         r[k][2].num % GCellSize.y == 0 && 0 <= r[k][2].num <= Chip1Size.y)
  {
    var r: seq<Line> := BumpLines(draws);
    forall k: int | 0 <= k < |r|
      ensures r[k][1].num % GCellSize.x == 0 && 0 <= r[k][1].num <= Chip1Size.x
      ensures r[k][2].num % GCellSize.y == 0 && 0 <= r[k][2].num <= Chip1Size.y
    {
      assert r[k] == BumpLine(k + 1, draws[k]);
      GCellMultiple(draws[k].0);
      GCellMultiple(draws[k].1);
    }
  }

  /** `randint(0, 100) * 10` is a multiple of the gcell side on the chip. */
  lemma GCellMultiple(n: nat)
    requires n <= 1000 / 10
    ensures (n * 10) % 10 == 0 && n * 10 <= 1000
  {
  }

  // ---------------------------------------------------------------- cost file

  function Max(a: int, b: int): int {
    if a >= b then a else b
  }

  /** The base of the cost written for grid cell (j, i) on layer 1 or 2 (the value written is
      this base times `uniform(0.9, 1.1)` on a chip and `uniform(0.5, 2)` elsewhere). The
      distances are taken at the grid indices themselves. */
  function CostBase(j: int, i: int, layer: nat): int
    requires layer == 1 || layer == 2
  {
    var d1 := DiffFromChip1(j, i);
    var d2 := DiffFromChip2(j, i);
    if d1 == 0 then OnChip
    else if d2 == 0 then OnChip
    else Max(1, OnChip - (if layer == 1 then d1 else d2))
  }

  /** On either chip the base is `OnChip` on both layers; elsewhere it falls with the
      distance to chip1 on layer 1 and to chip2 on layer 2, never below 1. */
  lemma CostBaseBounds(j: int, i: int, layer: nat)
    requires layer == 1 || layer == 2
    ensures 1 <= CostBase(j, i, layer) <= OnChip
    ensures OnRect(j, i, Chip1LowerLeft, Chip1Size) || OnRect(j, i, Chip2LowerLeft, Chip2Size) ==> CostBase(j, i, layer) == OnChip
    ensures !OnRect(j, i, Chip1LowerLeft, Chip1Size) && !OnRect(j, i, Chip2LowerLeft, Chip2Size) ==>
      CostBase(j, i, layer) == Max(1, OnChip - (if layer == 1 then DiffFromChip1(j, i) else DiffFromChip2(j, i)))
  {
    DiffZeroIffOnChip(j, i, Chip1LowerLeft, Chip1Size);
    DiffZeroIffOnChip(j, i, Chip2LowerLeft, Chip2Size);
  }

  /** One layer block: `GridHeight` rows of `GridWidth` bases, row `i` from the bottom. */
  method CostLayer(layer: nat) returns (rows: seq<seq<int>>)
    requires layer == 1 || layer == 2
    ensures |rows| == GridHeight
    ensures forall i :: 0 <= i < GridHeight ==>
      |rows[i]| == GridWidth && forall j :: 0 <= j < GridWidth ==> rows[i][j] == CostBase(j, i, layer)
  {
    rows := [];
    var i := 0;
    while i < GridHeight
      invariant 0 <= i <= GridHeight && |rows| == i
      invariant forall y :: 0 <= y < i ==>
        |rows[y]| == GridWidth && forall x :: 0 <= x < GridWidth ==> rows[y][x] == CostBase(x, y, layer)
    {
      var row := [];
      var j := 0;
      while j < GridWidth
        invariant 0 <= j <= GridWidth && |row| == j
        invariant forall x :: 0 <= x < j ==> row[x] == CostBase(x, i, layer)
      {
        row := row + [CostBase(j, i, layer)];
        j := j + 1;
      }
      rows := rows + [row];
      i := i + 1;
    }
  }

  /** `generate_cst`: the layer-1 block and then the layer-2 block, as bases. */
  method GenerateCst() returns (m1: seq<seq<int>>, m2: seq<seq<int>>)
    ensures |m1| == GridHeight && |m2| == GridHeight
    ensures forall i :: 0 <= i < GridHeight ==>
      |m1[i]| == GridWidth && |m2[i]| == GridWidth &&
      forall j :: 0 <= j < GridWidth ==> m1[i][j] == CostBase(j, i, 1) && m2[i][j] == CostBase(j, i, 2)
  {
    m1 := CostLayer(1);
    m2 := CostLayer(2);
  }

  /** As written, grid cell (40, 40), whose lower-left corner (400, 400) is chip1's corner,
      gets the off-chip base 1; and no cell of the grid ever counts as on chip2. */
  lemma GridIndexCostMissesChips()
    ensures OnRect(40 * GCellSize.x, 40 * GCellSize.y, Chip1LowerLeft, Chip1Size)
    ensures CostBase(40, 40, 1) == 1
    ensures forall j, i :: 0 <= j < GridWidth && 0 <= i < GridHeight ==> DiffFromChip2(j, i) > 0
  {
    assert DiffFromChip1(40, 40) == 720;
    assert DiffFromChip2(40, 40) > 0;
    forall j, i | 0 <= j < GridWidth && 0 <= i < GridHeight
      ensures DiffFromChip2(j, i) > 0
    {
      DiffZeroIffOnChip(j, i, Chip2LowerLeft, Chip2Size);
    }
  }

  /** The base with the distances taken at the cell's lower-left corner in the chips' own
      coordinates. */
  function CellCostBase(j: int, i: int, layer: nat): int
    requires layer == 1 || layer == 2
  {
    CostBase(j * GCellSize.x, i * GCellSize.y, layer)
  }

  /** With that, every cell whose corner lies on a chip gets the on-chip base: cell (40, 40) at
      chip1's corner and cell (1360, 860) at chip2's among them. */
  lemma CellCostBaseOnChip(j: int, i: int, layer: nat)
    requires layer == 1 || layer == 2
    ensures (OnRect(j * GCellSize.x, i * GCellSize.y, Chip1LowerLeft, Chip1Size) ||
             OnRect(j * GCellSize.x, i * GCellSize.y, Chip2LowerLeft, Chip2Size)) ==>
      CellCostBase(j, i, layer) == OnChip
    ensures CellCostBase(40, 40, layer) == OnChip && CellCostBase(1360, 860, layer) == OnChip
  {
    CostBaseBounds(j * GCellSize.x, i * GCellSize.y, layer);
    CostBaseBounds(400, 400, layer);
    CostBaseBounds(13600, 8600, layer);
  }
}
