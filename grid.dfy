/** The records of inc/gcell.h and inc/chip.h, and the work both C++ placement loaders do
    after reading the file: building and linking the gcell grid, sorting the bumps of each
    chip and attaching each bump to its gcell. A `GCell*` is modelled as a grid index. */
module Grid {
  import opened Common

  /** The index of `gcells[y][x]`; stands for a `GCell*`. */
  datatype CellRef = CellRef(x: int, y: int)

  datatype GCell = GCell(
    lowerLeft: Point,
    costM1: Token,
    costM2: Token,
    leftEdgeCapacity: nat,
    bottomEdgeCapacity: nat,
    leftEdgeCount: nat,
    bottomEdgeCount: nat,
    left: Option<CellRef>,
    bottom: Option<CellRef>,
    right: Option<CellRef>,
    top: Option<CellRef>)

  datatype Bump = Bump(idx: int, position: Point, gcell: Option<CellRef>)

  datatype Chip = Chip(lowerLeft: Point, size: Point, bumps: seq<Bump>)

  const EmptyChip: Chip := Chip(Point(0, 0), Point(0, 0), [])

  /** `gcells[y][x]`, row `y` first. */
  type Grid = seq<seq<GCell>>

  /** A gcell as `new GCell()` leaves it: both edge counts 0, no neighbour yet. The
      capacities and costs are indeterminate in the source; they start at 0 and `Missing` here. */
  function NewCell(lowerLeft: Point): GCell {
    GCell(lowerLeft, Missing, Missing, 0, 0, 0, 0, None, None, None, None)
  }

  /** The cell without its four neighbour links. */
  function Unlinked(c: GCell): GCell {
    c.(left := None, bottom := None, right := None, top := None)
  }

  predicate InGrid(g: Grid, c: CellRef) {
    0 <= c.y < |g| && 0 <= c.x < |g[c.y]|
  }

  predicate IsRect(g: Grid, rows: nat, cols: nat) {
    |g| == rows && forall y :: 0 <= y < rows ==> |g[y]| == cols
  }

  /** Number of grid rows and columns: C++ integer division of the area by the gcell size. */
  function GridRows(areaSize: Point, gcellSize: Point): int
    requires gcellSize.y != 0
  {
    TruncDiv(areaSize.y, gcellSize.y)
  }

  function GridCols(areaSize: Point, gcellSize: Point): int
    requires gcellSize.x != 0
  {
    TruncDiv(areaSize.x, gcellSize.x)
  }

  /** Lower-left corner of cell (x, y). */
  function CellLowerLeft(x: int, y: int, gcellSize: Point, origin: Point): Point {
    Point(x * gcellSize.x + origin.x, y * gcellSize.y + origin.y)
  }

  /** The four links of cell `c` at (x, y): null exactly on the matching border of the grid. */
  predicate LinkedAt(c: GCell, rows: nat, cols: nat, x: nat, y: nat) {
    c.left == (if x == 0 then None else Some(CellRef(x - 1, y))) &&
    c.bottom == (if y == 0 then None else Some(CellRef(x, y - 1))) &&
    c.right == (if x == cols - 1 then None else Some(CellRef(x + 1, y))) &&
    c.top == (if y == rows - 1 then None else Some(CellRef(x, y + 1)))
  }

  predicate Linked(g: Grid, rows: nat, cols: nat)
    requires IsRect(g, rows, cols)
  {
    forall y: nat, x: nat :: y < rows && x < cols ==> LinkedAt(g[y][x], rows, cols, x, y)
  }

  /** The grid a placement load builds: `rows` x `cols` fresh cells, each at its
      lower-left corner, linked to its neighbours. */
  predicate FreshGrid(g: Grid, rows: nat, cols: nat, gcellSize: Point, origin: Point) {
    IsRect(g, rows, cols) && Linked(g, rows, cols) &&
    forall y: nat, x: nat :: y < rows && x < cols ==>
      Unlinked(g[y][x]) == NewCell(CellLowerLeft(x, y, gcellSize, origin))
  }

  /** First nested loop of the grid construction: allocate every cell at its corner. */
  method PlaceCells(rows: nat, cols: nat, gcellSize: Point, origin: Point) returns (g: Grid)
    ensures IsRect(g, rows, cols)
    ensures forall y: nat, x: nat :: y < rows && x < cols ==>
      g[y][x] == NewCell(CellLowerLeft(x, y, gcellSize, origin))
  {
    g := [];
    var y := 0;
    while y < rows
      invariant 0 <= y <= rows
      invariant IsRect(g, y, cols)
      invariant forall yy: nat, x: nat :: yy < y && x < cols ==>
        g[yy][x] == NewCell(CellLowerLeft(x, yy, gcellSize, origin))
    {
      var row: seq<GCell> := [];
      var x := 0;
      while x < cols
        invariant 0 <= x <= cols && |row| == x
        invariant forall xx: nat :: xx < x ==> row[xx] == NewCell(CellLowerLeft(xx, y, gcellSize, origin))
      {
        row := row + [NewCell(CellLowerLeft(x, y, gcellSize, origin))];
        x := x + 1;
      }
      g := g + [row];
      y := y + 1;
    }
  }

  /** Second nested loop: set left/bottom/right/top of every cell; nothing else changes. */
  method LinkNeighbours(g0: Grid, rows: nat, cols: nat) returns (g: Grid)
    requires IsRect(g0, rows, cols)
    ensures IsRect(g, rows, cols) && Linked(g, rows, cols)
    ensures forall y: nat, x: nat :: y < rows && x < cols ==> Unlinked(g[y][x]) == Unlinked(g0[y][x])
  {
    g := g0;
    var y := 0;
    while y < rows
      invariant 0 <= y <= rows
      invariant IsRect(g, rows, cols)
      invariant forall yy: nat, x: nat :: yy < rows && x < cols ==> Unlinked(g[yy][x]) == Unlinked(g0[yy][x])
      invariant forall yy: nat, x: nat :: yy < y && x < cols ==> LinkedAt(g[yy][x], rows, cols, x, yy)
    {
      var x := 0;
      while x < cols
        invariant 0 <= x <= cols
        invariant IsRect(g, rows, cols)
        invariant forall yy: nat, xx: nat :: yy < rows && xx < cols ==> Unlinked(g[yy][xx]) == Unlinked(g0[yy][xx])
        invariant forall yy: nat, xx: nat :: yy < y && xx < cols ==> LinkedAt(g[yy][xx], rows, cols, xx, yy)
        invariant forall xx: nat :: xx < x ==> LinkedAt(g[y][xx], rows, cols, xx, y)
      {
        var c := g[y][x];
        c := c.(left := if x > 0 then Some(CellRef(x - 1, y)) else None);
        c := c.(bottom := if y > 0 then Some(CellRef(x, y - 1)) else None);
        c := c.(right := if x < cols - 1 then Some(CellRef(x + 1, y)) else None);
        c := c.(top := if y < rows - 1 then Some(CellRef(x, y + 1)) else None);
        g := g[y := g[y][x := c]];
        x := x + 1;
      }
      y := y + 1;
    }
  }

  /** Every link of a linked grid points into the grid, and links come in pairs:
      the right neighbour's left link points back, and so on for all four directions. */
  lemma LinksAreMutual(g: Grid, rows: nat, cols: nat, x: nat, y: nat)
    requires IsRect(g, rows, cols) && Linked(g, rows, cols) && y < rows && x < cols
    ensures g[y][x].right.Some? ==> var c := g[y][x].right.value;
      InGrid(g, c) && g[c.y][c.x].left == Some(CellRef(x, y))
    ensures g[y][x].left.Some? ==> var c := g[y][x].left.value;
      InGrid(g, c) && g[c.y][c.x].right == Some(CellRef(x, y))
    ensures g[y][x].top.Some? ==> var c := g[y][x].top.value;
      InGrid(g, c) && g[c.y][c.x].bottom == Some(CellRef(x, y))
    ensures g[y][x].bottom.Some? ==> var c := g[y][x].bottom.value;
      InGrid(g, c) && g[c.y][c.x].top == Some(CellRef(x, y))
  {
    assert LinkedAt(g[y][x], rows, cols, x, y);
    if x + 1 < cols { assert LinkedAt(g[y][x + 1], rows, cols, x + 1, y); }
    if x > 0 { assert LinkedAt(g[y][x - 1], rows, cols, x - 1, y); }
    if y + 1 < rows { assert LinkedAt(g[y + 1][x], rows, cols, x, y + 1); }
    if y > 0 { assert LinkedAt(g[y - 1][x], rows, cols, x, y - 1); }
  }

  /** Column and row of the cell that holds `p`: `(p - origin) / gcellSize`, C++ division. */
  function CellOf(p: Point, origin: Point, gcellSize: Point): CellRef
    requires gcellSize.x != 0 && gcellSize.y != 0
  {
    CellRef(TruncDiv(p.x - origin.x, gcellSize.x), TruncDiv(p.y - origin.y, gcellSize.y))
  }

  /** Inside the routing area, `CellOf` finds the cell whose square contains the point. */
  lemma CellOfContains(p: Point, origin: Point, gcellSize: Point)
    requires gcellSize.x > 0 && gcellSize.y > 0
    requires p.x >= origin.x && p.y >= origin.y
    ensures var c := CellOf(p, origin, gcellSize);
      var ll := CellLowerLeft(c.x, c.y, gcellSize, origin);
      c.x >= 0 && c.y >= 0 &&
      ll.x <= p.x < ll.x + gcellSize.x && ll.y <= p.y < ll.y + gcellSize.y
  {
    TruncDivNonNegative(p.x - origin.x, gcellSize.x);
    TruncDivNonNegative(p.y - origin.y, gcellSize.y);
  }

  /** `CellOf` undoes `CellLowerLeft`: a cell's own corner maps back to that cell. */
  lemma CellOfLowerLeft(x: nat, y: nat, origin: Point, gcellSize: Point)
    requires gcellSize.x > 0 && gcellSize.y > 0
    ensures CellOf(CellLowerLeft(x, y, gcellSize, origin), origin, gcellSize) == CellRef(x, y)
  {
    var ll := CellLowerLeft(x, y, gcellSize, origin);
    TruncDivNonNegative(ll.x - origin.x, gcellSize.x);
    TruncDivNonNegative(ll.y - origin.y, gcellSize.y);
    MulDivCancel(x, gcellSize.x);
    MulDivCancel(y, gcellSize.y);
  }

  lemma MulDivCancel(k: nat, d: int)
    requires d > 0
    ensures (k * d) / d == k
  {
    QuotientUnique(k * d, d, k, 0);
  }

  /** Division has one quotient: `a == q * d + r` with `0 <= r < d` fixes `a / d == q`. */
  lemma QuotientUnique(a: int, d: int, q: int, r: int)
    requires d > 0 && 0 <= r < d && a == q * d + r
    ensures a / d == q
  {
    var q', r' := a / d, a % d;
    assert q' * d + r' == q * d + r;
    if q' > q {
      MulAtLeast(q' - q, d);
    } else if q' < q {
      MulAtLeast(q - q', d);
    }
  }

  lemma {:induction false} MulAtLeast(a: int, d: int)
    requires a >= 1 && d > 0
    ensures a * d >= d
  {
    if a > 1 {
      MulAtLeast(a - 1, d);
      assert a * d == (a - 1) * d + d;
    }
  }

  /** The bump with its gcell set to the cell holding its position. */
  function Locate(b: Bump, origin: Point, gcellSize: Point): Bump
    requires gcellSize.x != 0 && gcellSize.y != 0
  {
    b.(gcell := Some(CellOf(b.position, origin, gcellSize)))
  }

  function LocateAll(bumps: seq<Bump>, origin: Point, gcellSize: Point): (r: seq<Bump>)
    requires gcellSize.x != 0 && gcellSize.y != 0
    ensures |r| == |bumps|
    ensures forall i :: 0 <= i < |r| ==> r[i] == Locate(bumps[i], origin, gcellSize)
  {
    if bumps == [] then [] else [Locate(bumps[0], origin, gcellSize)] + LocateAll(bumps[1..], origin, gcellSize)
  }

  lemma {:induction false} LocateAllConcat(a: seq<Bump>, b: seq<Bump>, origin: Point, gcellSize: Point)
    requires gcellSize.x != 0 && gcellSize.y != 0
    ensures LocateAll(a + b, origin, gcellSize) == LocateAll(a, origin, gcellSize) + LocateAll(b, origin, gcellSize)
  {
    if a != [] {
      assert (a + b)[1..] == a[1..] + b;
      LocateAllConcat(a[1..], b, origin, gcellSize);
    } else {
      assert a + b == b;
    }
  }

  /** Locating every bump of two permutations of one another gives permutations again. */
  lemma {:induction false} LocatePermutation(a: seq<Bump>, b: seq<Bump>, origin: Point, gcellSize: Point)
    requires gcellSize.x != 0 && gcellSize.y != 0
    requires multiset(a) == multiset(b)
    ensures multiset(LocateAll(a, origin, gcellSize)) == multiset(LocateAll(b, origin, gcellSize))
  {
    if a == [] {
      assert |b| == |multiset(b)| == 0;
      assert b == [];
    } else {
      var x := a[0];
      assert x in multiset(b);
      var j :| 0 <= j < |b| && b[j] == x;
      var b' := b[..j] + b[j + 1..];
      RemoveAt(b, j);
      assert a == [x] + a[1..];
      assert multiset(a[1..]) == multiset(a) - multiset{x};
      LocatePermutation(a[1..], b', origin, gcellSize);
      LocateAllRemove(b, j, origin, gcellSize);
      var la := LocateAll(a[1..], origin, gcellSize);
      assert LocateAll(a, origin, gcellSize) == [Locate(x, origin, gcellSize)] + la;
      assert multiset(LocateAll(a, origin, gcellSize)) == multiset{Locate(x, origin, gcellSize)} + multiset(la);
      assert multiset(la) == multiset(LocateAll(b', origin, gcellSize));
    }
  }

  /** Taking out the element at `j` takes it out of the multiset. */
  lemma RemoveAt<T>(b: seq<T>, j: nat)
    requires j < |b|
    ensures multiset(b[..j] + b[j + 1..]) == multiset(b) - multiset{b[j]}
  {
    assert b == b[..j] + [b[j]] + b[j + 1..];
  }

  /** Locating all of `b` locates the element at `j` and the rest. */
  lemma LocateAllRemove(b: seq<Bump>, j: nat, origin: Point, gcellSize: Point)
    requires gcellSize.x != 0 && gcellSize.y != 0 && j < |b|
    ensures multiset(LocateAll(b, origin, gcellSize)) ==
      multiset{Locate(b[j], origin, gcellSize)} + multiset(LocateAll(b[..j] + b[j + 1..], origin, gcellSize))
  {
    assert b == b[..j] + [b[j]] + b[j + 1..];
    LocateAllConcat(b[..j] + [b[j]], b[j + 1..], origin, gcellSize);
    LocateAllConcat(b[..j], [b[j]], origin, gcellSize);
    LocateAllConcat(b[..j], b[j + 1..], origin, gcellSize);
  }

  /** The placement loader's bump-to-gcell loop. */
  method LocateBumps(bumps: seq<Bump>, origin: Point, gcellSize: Point) returns (r: seq<Bump>)
    requires gcellSize.x != 0 && gcellSize.y != 0
    ensures r == LocateAll(bumps, origin, gcellSize)
  {
    r := [];
    var i := 0;
    while i < |bumps|
      invariant 0 <= i <= |bumps| && |r| == i
      invariant forall k :: 0 <= k < i ==> r[k] == Locate(bumps[k], origin, gcellSize)
    {
      var b := bumps[i];
      var x := TruncDiv(b.position.x - origin.x, gcellSize.x);
      var y := TruncDiv(b.position.y - origin.y, gcellSize.y);
      r := r + [b.(gcell := Some(CellRef(x, y)))];
      i := i + 1;
    }
  }

  predicate SortedByIdx(s: seq<Bump>) {
    forall i, j :: 0 <= i < j < |s| ==> s[i].idx <= s[j].idx
  }

  /** `std::sort` of a chip's bumps by `idx`: sorted and a permutation of the input
      (the source's sort is not stable, so the order among equal indices is not fixed). */
  method SortBumps(s: seq<Bump>) returns (r: seq<Bump>)
    ensures SortedByIdx(r) && multiset(r) == multiset(s)
  {
    r := s;
    var i := 0;
    while i < |r|
      invariant 0 <= i <= |r| == |s|
      invariant forall p, q :: 0 <= p < q < i ==> r[p].idx <= r[q].idx
      invariant multiset(r) == multiset(s)
    {
      r := SinkBump(r, i);
      i := i + 1;
    }
  }

  /** One insertion step: bump `i` is swapped towards the front until the prefix up to `i`
      is sorted. */
  method SinkBump(r0: seq<Bump>, i: nat) returns (r: seq<Bump>)
    requires i < |r0|
    requires forall p, q :: 0 <= p < q < i ==> r0[p].idx <= r0[q].idx
    ensures |r| == |r0| && multiset(r) == multiset(r0)
    ensures forall p, q :: 0 <= p < q <= i ==> r[p].idx <= r[q].idx
  {
    r := r0;
    var j := i;
    while j > 0 && r[j - 1].idx > r[j].idx
      invariant 0 <= j <= i < |r| == |r0|
      invariant multiset(r) == multiset(r0)
      invariant forall p, q :: 0 <= p < q <= i && p != j && q != j ==> r[p].idx <= r[q].idx
      invariant forall q :: j < q <= i ==> r[j].idx <= r[q].idx
    {
      SwapKeepsMultiset(r, j);
      SwapKeepsOrder(r, i, j);
      r := r[j - 1 := r[j]][j := r[j - 1]];
      j := j - 1;
    }
  }

  /** Swapping bump `j` with a predecessor of larger `idx` moves the hole in the order to `j - 1`. */
  lemma SwapKeepsOrder(r: seq<Bump>, i: nat, j: nat)
    requires 0 < j <= i < |r| && r[j - 1].idx > r[j].idx
    requires forall p, q :: 0 <= p < q <= i && p != j && q != j ==> r[p].idx <= r[q].idx
    requires forall q :: j < q <= i ==> r[j].idx <= r[q].idx
    ensures var t := r[j - 1 := r[j]][j := r[j - 1]];
      (forall p, q :: 0 <= p < q <= i && p != j - 1 && q != j - 1 ==> t[p].idx <= t[q].idx) &&
      (forall q :: j - 1 < q <= i ==> t[j - 1].idx <= t[q].idx)
  {
  }

  lemma SwapKeepsMultiset(r: seq<Bump>, j: nat)
    requires 0 < j < |r|
    ensures multiset(r[j - 1 := r[j]][j := r[j - 1]]) == multiset(r)
  {
  }

  /** The bump lies in a cell of a `rows` x `cols` grid. */
  predicate Fits(b: Bump, rows: nat, cols: nat, origin: Point, gcellSize: Point)
    requires gcellSize.x != 0 && gcellSize.y != 0
  {
    var c := CellOf(b.position, origin, gcellSize);
    0 <= c.x < cols && 0 <= c.y < rows
  }

  /** Columns each row is resized to; with no width there is no column (and, in a grid
      that does not fault, no row whose resize would divide by it). */
  function ColsOrZero(areaSize: Point, gcellSize: Point): nat {
    if gcellSize.x == 0 then 0
    else
      var c := GridCols(areaSize, gcellSize);
      if c < 0 then 0 else c
  }

  /** The source has undefined behaviour after reading a placement file when the gcell height
      is zero (the row count divides by it), when the gcell width is zero and some row is
      resized or some bump is located (both divide by it), when the grid has a negative
      number of rows, or of columns while there is a row (`resize` throws), or when a bump
      lies outside the grid (`gcells[y][x]` out of range). */
  predicate GridFault(origin: Point, areaSize: Point, gcellSize: Point, bumps1: seq<Bump>, bumps2: seq<Bump>) {
    gcellSize.y == 0 ||
    GridRows(areaSize, gcellSize) < 0 ||
    (gcellSize.x == 0 && (GridRows(areaSize, gcellSize) > 0 || bumps1 + bumps2 != [])) ||
    (gcellSize.x != 0 && GridRows(areaSize, gcellSize) > 0 && GridCols(areaSize, gcellSize) < 0) ||
    (gcellSize.x != 0 &&
      exists b :: b in bumps1 + bumps2 &&
        !Fits(b, GridRows(areaSize, gcellSize), ColsOrZero(areaSize, gcellSize), origin, gcellSize))
  }

  /** A zero gcell width is harmless while the grid has no row: then the placement faults
      exactly when there is a bump to locate. */
  lemma ZeroWidthWithoutRows(origin: Point, areaSize: Point, gcellSize: Point, bumps1: seq<Bump>, bumps2: seq<Bump>)
    requires gcellSize.x == 0 && gcellSize.y != 0 && GridRows(areaSize, gcellSize) == 0
    ensures GridFault(origin, areaSize, gcellSize, bumps1, bumps2) <==> bumps1 + bumps2 != []
  {
  }

  /** The placement `.ra 0 0 100 5`, `.g 0 10` with no bumps builds an empty grid without fault. */
  lemma ZeroWidthExample()
    ensures GridRows(Point(100, 5), Point(0, 10)) == 0
    ensures !GridFault(Point(0, 0), Point(100, 5), Point(0, 10), [], [])
    ensures ColsOrZero(Point(100, 5), Point(0, 10)) == 0
  {
  }

  /** A chip's bumps after loading: sorted by index, a permutation of the bumps read, and each
      attached to the in-grid cell `CellOf` gives for its position. Since the division truncates,
      that cell contains the position only when it is right of and above the routing-area
      corner (`CellOfContains`); a bump less than one gcell left of or below it gets column
      or row 0. With a zero gcell side there is no bump: locating one would divide by zero. */
  predicate Attached(r: seq<Bump>, read: seq<Bump>, g: Grid, origin: Point, gcellSize: Point) {
    if gcellSize.x == 0 || gcellSize.y == 0 then r == [] && read == []
    else
      SortedByIdx(r) &&
      multiset(r) == multiset(LocateAll(read, origin, gcellSize)) &&
      forall b :: b in r ==> b.gcell == Some(CellOf(b.position, origin, gcellSize)) && InGrid(g, b.gcell.value)
  }

  /** Everything the placement loaders do after the read loop: build and link the grid,
      sort both bump lists and attach every bump to its gcell. `ok` is false exactly when
      the source would have undefined behaviour. */
  method FinishPlacement(origin: Point, areaSize: Point, gcellSize: Point, bumps1: seq<Bump>, bumps2: seq<Bump>)
    returns (ok: bool, g: Grid, sorted1: seq<Bump>, sorted2: seq<Bump>)
    ensures ok == !GridFault(origin, areaSize, gcellSize, bumps1, bumps2)
    ensures ok ==>
      var rows := GridRows(areaSize, gcellSize);
      var cols := ColsOrZero(areaSize, gcellSize);
      rows >= 0 && (gcellSize.x == 0 ==> rows == 0 && cols == 0) &&
      FreshGrid(g, rows, cols, gcellSize, origin) &&
      Attached(sorted1, bumps1, g, origin, gcellSize) &&
      Attached(sorted2, bumps2, g, origin, gcellSize)
  {
    ok := !GridFault(origin, areaSize, gcellSize, bumps1, bumps2);
    if !ok {
      g, sorted1, sorted2 := [], bumps1, bumps2;
      return;
    }
    var rows: nat := GridRows(areaSize, gcellSize);
    var cols := ColsOrZero(areaSize, gcellSize);
    g := PlaceCells(rows, cols, gcellSize, origin);
    ghost var placed := g;
    g := LinkNeighbours(g, rows, cols);
    assert forall y: nat, x: nat :: y < rows && x < cols ==>
      Unlinked(g[y][x]) == NewCell(CellLowerLeft(x, y, gcellSize, origin)) by {
      forall y: nat, x: nat | y < rows && x < cols
        ensures Unlinked(g[y][x]) == NewCell(CellLowerLeft(x, y, gcellSize, origin))
      {
        assert Unlinked(g[y][x]) == Unlinked(placed[y][x]);
      }
    }
    var s1 := SortBumps(bumps1);
    var s2 := SortBumps(bumps2);
    if gcellSize.x == 0 {
      // no row and no bump, so the mapping loops do not run
      assert bumps1 == [] && bumps2 == [];
      sorted1, sorted2 := s1, s2;
      return;
    }
    sorted1 := LocateBumps(s1, origin, gcellSize);
    sorted2 := LocateBumps(s2, origin, gcellSize);
    AttachedAfterSort(s1, bumps1, bumps1 + bumps2, g, rows, cols, origin, gcellSize, sorted1);
    AttachedAfterSort(s2, bumps2, bumps1 + bumps2, g, rows, cols, origin, gcellSize, sorted2);
  }

  lemma AttachedAfterSort(s: seq<Bump>, read: seq<Bump>, all: seq<Bump>, g: Grid, rows: nat, cols: nat,
                          origin: Point, gcellSize: Point, r: seq<Bump>)
    requires gcellSize.x != 0 && gcellSize.y != 0
    requires IsRect(g, rows, cols)
    requires SortedByIdx(s) && multiset(s) == multiset(read)
    requires forall b :: b in read ==> b in all
    requires forall b :: b in all ==> Fits(b, rows, cols, origin, gcellSize)
    requires r == LocateAll(s, origin, gcellSize)
    ensures Attached(r, read, g, origin, gcellSize)
  {
    LocatePermutation(s, read, origin, gcellSize);
    assert SortedByIdx(r) by {
      forall i, j | 0 <= i < j < |r| ensures r[i].idx <= r[j].idx {
        assert r[i].idx == s[i].idx && r[j].idx == s[j].idx;
      }
    }
    forall b | b in r
      ensures b.gcell == Some(CellOf(b.position, origin, gcellSize)) && InGrid(g, b.gcell.value)
    {
      var i :| 0 <= i < |r| && r[i] == b;
      assert b == Locate(s[i], origin, gcellSize);
      assert s[i] in multiset(read);
      assert s[i] in all;
      assert Fits(s[i], rows, cols, origin, gcellSize);
    }
  }
}
