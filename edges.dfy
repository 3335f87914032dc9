/** The gcell walk of one routed segment in the evaluator: every step enters the next
    cell of the segment, appends it to the net's path and raises the crossing counter of
    one gcell edge, counting an overflow when that counter was already at capacity. */
module Edges {
  import opened Common
  import opened Grid

  /** M1 segments run vertically and cross bottom edges; M2 segments run horizontally
      and cross left edges. */
  datatype Layer = M1 | M2

  /** One iteration of a walk loop: the cell entered and the cell whose edge is crossed. */
  datatype Step = Step(enter: CellRef, edge: CellRef)

  /** The cell at position `v` along a segment of `layer` lying in column/row `fixed`. */
  function At(layer: Layer, fixed: int, v: int): CellRef {
    if layer == M1 then CellRef(fixed, v) else CellRef(v, fixed)
  }

  /** A walk towards larger coordinates (`goUP` / `goRIGHT`): cells `lo+1 .. hi` are entered,
      each crossing its own bottom (left) edge. */
  function ForwardSteps(layer: Layer, fixed: int, lo: int, hi: int): (s: seq<Step>)
    decreases hi - lo
    ensures |s| == if hi > lo then hi - lo else 0
    ensures forall k :: 0 <= k < |s| ==>
      s[k] == Step(At(layer, fixed, lo + 1 + k), At(layer, fixed, lo + 1 + k))
  {
    if hi <= lo then [] else ForwardSteps(layer, fixed, lo, hi - 1) + [Step(At(layer, fixed, hi), At(layer, fixed, hi))]
  }

  /** A walk towards smaller coordinates: cells `start-1` down to `lo` are entered, each
      crossing the bottom (left) edge of the cell it leaves. */
  function BackwardSteps(layer: Layer, fixed: int, start: int, lo: int): (s: seq<Step>)
    decreases start - lo
    ensures |s| == if start > lo then start - lo else 0
    ensures forall k :: 0 <= k < |s| ==>
      s[k] == Step(At(layer, fixed, start - 1 - k), At(layer, fixed, start - k))
  {
    if lo >= start then []
    else BackwardSteps(layer, fixed, start, lo + 1) + [Step(At(layer, fixed, lo), At(layer, fixed, lo + 1))]
  }

  /** The counter a crossing on `layer` raises, and its capacity. */
  function EdgeCount(c: GCell, layer: Layer): nat {
    if layer == M1 then c.bottomEdgeCount else c.leftEdgeCount
  }

  function EdgeCapacity(c: GCell, layer: Layer): nat {
    if layer == M1 then c.bottomEdgeCapacity else c.leftEdgeCapacity
  }

  /** The test that counts an overflow: the counter is already at or above capacity. */
  predicate Full(c: GCell, layer: Layer) {
    EdgeCount(c, layer) >= EdgeCapacity(c, layer)
  }

  /** The cell after one crossing: its counter for `layer` is one higher, nothing else changes. */
  function Crossed(c: GCell, layer: Layer): (d: GCell)
    ensures EdgeCount(d, layer) == EdgeCount(c, layer) + 1
    ensures layer == M1 ==> d == c.(bottomEdgeCount := c.bottomEdgeCount + 1)
    ensures layer == M2 ==> d == c.(leftEdgeCount := c.leftEdgeCount + 1)
  {
    if layer == M1 then c.(bottomEdgeCount := c.bottomEdgeCount + 1)
    else c.(leftEdgeCount := c.leftEdgeCount + 1)
  }

  /** `max(0, count - capacity)`. */
  function Over(count: nat, capacity: nat): nat {
    if count > capacity then count - capacity else 0
  }

  function CellExcess(c: GCell): nat {
    Over(c.bottomEdgeCount, c.bottomEdgeCapacity) + Over(c.leftEdgeCount, c.leftEdgeCapacity)
  }

  function RowExcess(r: seq<GCell>): nat {
    if r == [] then 0 else RowExcess(r[..|r| - 1]) + CellExcess(r[|r| - 1])
  }

  /** Sum over every edge of the grid of `max(0, count - capacity)`. */
  function GridExcess(g: Grid): nat {
    if g == [] then 0 else GridExcess(g[..|g| - 1]) + RowExcess(g[|g| - 1])
  }

  /** A crossing raises the edge's excess by one exactly when the counter was already full. */
  lemma CrossedExcess(c: GCell, layer: Layer)
    ensures CellExcess(Crossed(c, layer)) == CellExcess(c) + (if Full(c, layer) then 1 else 0)
  {
  }

  lemma {:induction false} RowExcessUpdate(r: seq<GCell>, x: nat, c: GCell)
    requires x < |r|
    ensures RowExcess(r[x := c]) + CellExcess(r[x]) == RowExcess(r) + CellExcess(c)
  {
    var n := |r| - 1;
    if x < n {
      assert r[x := c][..n] == r[..n][x := c];
      RowExcessUpdate(r[..n], x, c);
    } else {
      assert r[x := c][..n] == r[..n];
    }
  }

  /** Replacing one cell changes the grid's excess by the difference of the two cells' excess. */
  lemma {:induction false} GridExcessUpdate(g: Grid, y: nat, x: nat, c: GCell)
    requires y < |g| && x < |g[y]|
    ensures GridExcess(g[y := g[y][x := c]]) + CellExcess(g[y][x]) == GridExcess(g) + CellExcess(c)
  {
    var n := |g| - 1;
    if y < n {
      assert g[y := g[y][x := c]][..n] == g[..n][y := g[y][x := c]];
      GridExcessUpdate(g[..n], y, x, c);
    } else {
      assert g[y := g[y][x := c]][..n] == g[..n];
      RowExcessUpdate(g[y], x, c);
    }
  }

  /** No edge has been crossed yet. */
  predicate Uncrossed(g: Grid) {
    forall y, x :: 0 <= y < |g| && 0 <= x < |g[y]| ==> g[y][x].bottomEdgeCount == 0 && g[y][x].leftEdgeCount == 0
  }

  lemma {:induction false} UncrossedRowHasNoExcess(r: seq<GCell>)
    requires forall x :: 0 <= x < |r| ==> r[x].bottomEdgeCount == 0 && r[x].leftEdgeCount == 0
    ensures RowExcess(r) == 0
  {
    if r != [] {
      UncrossedRowHasNoExcess(r[..|r| - 1]);
    }
  }

  /** With every counter at 0 (as `inc/gcell.h` initialises them) there is no excess. */
  lemma {:induction false} UncrossedHasNoExcess(g: Grid)
    requires Uncrossed(g)
    ensures GridExcess(g) == 0
  {
    if g != [] {
      UncrossedHasNoExcess(g[..|g| - 1]);
      UncrossedRowHasNoExcess(g[|g| - 1]);
    }
  }

  /** The part of the evaluator's state a walk loop changes: the grid, the net's path and
      its overflow. `ok` turns false when a step indexes outside the grid (undefined
      behaviour in the source); the walk then stops changing anything. */
  datatype Walk = Walk(grid: Grid, path: seq<CellRef>, overflow: nat, ok: bool)

  /** One loop iteration. */
  function Take(w: Walk, layer: Layer, s: Step): Walk {
    if !w.ok then w
    else if !InGrid(w.grid, s.enter) || !InGrid(w.grid, s.edge) then w.(ok := false)
    else
      var c := w.grid[s.edge.y][s.edge.x];
      Walk(w.grid[s.edge.y := w.grid[s.edge.y][s.edge.x := Crossed(c, layer)]],
           w.path + [s.enter],
           w.overflow + (if Full(c, layer) then 1 else 0),
           true)
  }

  /** The whole walk loop over `steps`, in order. */
  function WalkAll(w: Walk, layer: Layer, steps: seq<Step>): Walk {
    if steps == [] then w else Take(WalkAll(w, layer, steps[..|steps| - 1]), layer, steps[|steps| - 1])
  }

  /** One step appends exactly the entered cell, raises exactly one counter (of the crossed
      edge's cell) by one, and counts an overflow exactly when that counter was full. */
  lemma TakeEffect(w: Walk, layer: Layer, s: Step)
    requires w.ok && InGrid(w.grid, s.enter) && InGrid(w.grid, s.edge)
    ensures var w' := Take(w, layer, s);
      var c := w.grid[s.edge.y][s.edge.x];
      w'.ok && w'.path == w.path + [s.enter] &&
      |w'.grid| == |w.grid| &&
      (forall y :: 0 <= y < |w.grid| ==> |w'.grid[y]| == |w.grid[y]|) &&
      w'.grid[s.edge.y][s.edge.x] == Crossed(c, layer) &&
      (forall y, x :: 0 <= y < |w.grid| && 0 <= x < |w.grid[y]| && CellRef(x, y) != s.edge ==>
        w'.grid[y][x] == w.grid[y][x]) &&
      w'.overflow == w.overflow + (if Full(c, layer) then 1 else 0)
  {
  }

  /** The overflow a walk counts is exactly the excess it adds to the grid. */
  lemma {:induction false} WalkBalance(w: Walk, layer: Layer, steps: seq<Step>)
    ensures GridExcess(WalkAll(w, layer, steps).grid) + w.overflow == GridExcess(w.grid) + WalkAll(w, layer, steps).overflow
  {
    if steps != [] {
      var n := |steps| - 1;
      WalkBalance(w, layer, steps[..n]);
      var v := WalkAll(w, layer, steps[..n]);
      var s := steps[n];
      if v.ok && InGrid(v.grid, s.enter) && InGrid(v.grid, s.edge) {
        var c := v.grid[s.edge.y][s.edge.x];
        GridExcessUpdate(v.grid, s.edge.y, s.edge.x, Crossed(c, layer));
        CrossedExcess(c, layer);
      }
    }
  }

  /** A walk that stays inside the grid appends the entered cells, in order. */
  lemma {:induction false} WalkPath(w: Walk, layer: Layer, steps: seq<Step>)
    requires WalkAll(w, layer, steps).ok
    ensures w.ok
    ensures WalkAll(w, layer, steps).path == w.path + Enters(steps)
  {
    if steps != [] {
      var n := |steps| - 1;
      assert WalkAll(w, layer, steps[..n]).ok;
      WalkPath(w, layer, steps[..n]);
      assert Enters(steps) == Enters(steps[..n]) + [steps[n].enter];
    }
  }

  function Enters(steps: seq<Step>): (r: seq<CellRef>)
    ensures |r| == |steps| && forall k :: 0 <= k < |r| ==> r[k] == steps[k].enter
  {
    if steps == [] then [] else Enters(steps[..|steps| - 1]) + [steps[|steps| - 1].enter]
  }

  /** A walk keeps the grid's shape. */
  lemma {:induction false} WalkKeepsShape(w: Walk, layer: Layer, steps: seq<Step>, rows: nat, cols: nat)
    requires IsRect(w.grid, rows, cols)
    ensures IsRect(WalkAll(w, layer, steps).grid, rows, cols)
  {
    if steps != [] {
      WalkKeepsShape(w, layer, steps[..|steps| - 1], rows, cols);
    }
  }

  /** The walk over one more step of `steps` is one more `Take`. */
  lemma WalkAllPrefix(w: Walk, layer: Layer, steps: seq<Step>, k: nat)
    requires k < |steps|
    ensures WalkAll(w, layer, steps[..k + 1]) == Take(WalkAll(w, layer, steps[..k]), layer, steps[k])
  {
    assert steps[..k + 1][..k] == steps[..k];
  }

  /** Once a step indexes outside the grid the walk has failed for good. */
  lemma {:induction false} WalkFailStays(w: Walk, layer: Layer, steps: seq<Step>, k: nat)
    requires k <= |steps| && !WalkAll(w, layer, steps[..k]).ok
    ensures !WalkAll(w, layer, steps).ok
    decreases |steps| - k
  {
    if k < |steps| {
      assert steps[..k + 1][..k] == steps[..k];
      WalkFailStays(w, layer, steps, k + 1);
    } else {
      assert steps[..k] == steps;
    }
  }
}
