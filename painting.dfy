/** Painting a set of cells, the shape shared by `applyBrush`
    (src/simulation/engine.ts:19-39) and `fillRect`
    (src/simulation/presets.ts:10-20): both walk a box of coordinates row by
    row, left to right, and store one id into every in-bounds cell the shape
    selects.  A selection is a predicate on (column, row). */
module Painting {
  import opened Types
  import opened Cells

  /** The column and row of index `j` in a grid `W` cells wide. */
  function Col(W: nat, j: int): int
    requires W > 0
  {
    j % W
  }

  function Row(W: nat, j: int): int
    requires W > 0
  {
    j / W
  }

  /** Every index of a `W * H` grid is the index of an in-bounds cell. */
  lemma CellOfIndex(W: nat, H: nat, j: int)
    requires 0 <= j < W * H
    ensures W > 0 && InBounds(Col(W, j), Row(W, j), W, H) && Idx(W, H, Col(W, j), Row(W, j)) == j
  {
    if j / W >= H {
      MulMonotone(H, j / W, W);
      assert false;
    }
  }

  /** ... and the cell of an index is the cell it was computed from. */
  lemma IndexOfCell(W: nat, H: nat, x: int, y: int)
    requires InBounds(x, y, W, H)
    ensures Col(W, Idx(W, H, x, y)) == x && Row(W, Idx(W, H, x, y)) == y
  {
    IdxCoords(W, x, y);
  }

  /** `g` with every cell that `sel` picks set to `id`. */
  function Paint(g: seq<byte>, W: nat, sel: (int, int) -> bool, id: byte): (r: seq<byte>)
    ensures |r| == |g|
  {
    seq(|g|, j requires 0 <= j < |g| => if W > 0 && sel(Col(W, j), Row(W, j)) then id else g[j])
  }

  /** Cell by cell: a picked in-bounds cell holds `id`, every other cell
      keeps its value, so nothing outside the grid or across a row edge is
      touched. */
  lemma PaintAt(g: seq<byte>, W: nat, H: nat, sel: (int, int) -> bool, id: byte, x: int, y: int)
    requires |g| == W * H && InBounds(x, y, W, H)
    ensures Paint(g, W, sel, id)[Idx(W, H, x, y)] == if sel(x, y) then id else g[Idx(W, H, x, y)]
  {
    IndexOfCell(W, H, x, y);
  }

  /** Painting the same selection twice is painting it once. */
  lemma PaintIdempotent(g: seq<byte>, W: nat, sel: (int, int) -> bool, id: byte)
    ensures Paint(Paint(g, W, sel, id), W, sel, id) == Paint(g, W, sel, id)
  {
  }

  /** Only the cells a selection picks matter, not how it is written. */
  lemma PaintSame(g: seq<byte>, W: nat, sel1: (int, int) -> bool, sel2: (int, int) -> bool, id: byte)
    requires forall cx, cy :: sel1(cx, cy) == sel2(cx, cy)
    ensures Paint(g, W, sel1, id) == Paint(g, W, sel2, id)
  {
  }

  /** A selection that picks nothing leaves the grid as it is. */
  lemma PaintNothing(g: seq<byte>, W: nat, sel: (int, int) -> bool, id: byte)
    requires forall cx, cy :: !sel(cx, cy)
    ensures Paint(g, W, sel, id) == g
  {
  }

  // ----- walking a box row by row -----

  /** (cx, cy) comes before (x, y) in a top-to-bottom, left-to-right walk. */
  predicate Before(cx: int, cy: int, x: int, y: int)
  {
    cy < y || (cy == y && cx < x)
  }

  /** The part of `sel` a walk standing at (x, y) has already covered. */
  function Upto(sel: (int, int) -> bool, x: int, y: int): (int, int) -> bool
  {
    (cx, cy) => sel(cx, cy) && Before(cx, cy, x, y)
  }

  /** `sel` picks only cells of the box [x0, x1] x [y0, y1]. */
  ghost predicate Confined(sel: (int, int) -> bool, x0: int, y0: int, x1: int, y1: int)
  {
    forall cx, cy :: sel(cx, cy) ==> x0 <= cx <= x1 && y0 <= cy <= y1
  }

  lemma WalkStart(g: seq<byte>, W: nat, sel: (int, int) -> bool, id: byte, x0: int, y0: int, x1: int, y1: int)
    requires Confined(sel, x0, y0, x1, y1)
    ensures Paint(g, W, Upto(sel, x0, y0), id) == g
  {
    PaintNothing(g, W, Upto(sel, x0, y0), id);
  }

  /** Visiting (x, y) stores `id` there exactly when the cell is in bounds
      and picked. */
  lemma WalkVisit(g: seq<byte>, W: nat, H: nat, sel: (int, int) -> bool, id: byte, x: int, y: int)
    requires |g| == W * H
    ensures InBounds(x, y, W, H) && sel(x, y) ==>
              Paint(g, W, Upto(sel, x + 1, y), id) == Paint(g, W, Upto(sel, x, y), id)[Idx(W, H, x, y) := id]
    ensures !(InBounds(x, y, W, H) && sel(x, y)) ==>
              Paint(g, W, Upto(sel, x + 1, y), id) == Paint(g, W, Upto(sel, x, y), id)
  {
    var a := Paint(g, W, Upto(sel, x, y), id);
    var b := Paint(g, W, Upto(sel, x + 1, y), id);
    forall j | 0 <= j < |g|
      ensures b[j] == (if InBounds(x, y, W, H) && sel(x, y) && j == Idx(W, H, x, y) then id else a[j])
    {
      CellOfIndex(W, H, j);
      var c, r := Col(W, j), Row(W, j);
      assert a[j] == if sel(c, r) && Before(c, r, x, y) then id else g[j];
      assert b[j] == if sel(c, r) && Before(c, r, x + 1, y) then id else g[j];
      if c == x && r == y {
        assert j == Idx(W, H, x, y);
      } else if InBounds(x, y, W, H) {
        IndexOfCell(W, H, x, y);
        assert j != Idx(W, H, x, y);
      }
    }
  }

  /** Past the right edge of the box, the walk moves on to the next row. */
  lemma WalkNextRow(g: seq<byte>, W: nat, sel: (int, int) -> bool, id: byte, x0: int, y0: int, x1: int, y1: int, x: int, y: int)
    requires Confined(sel, x0, y0, x1, y1) && x > x1
    ensures Paint(g, W, Upto(sel, x, y), id) == Paint(g, W, Upto(sel, x0, y + 1), id)
  {
    PaintSame(g, W, Upto(sel, x, y), Upto(sel, x0, y + 1), id);
  }

  /** Below the box, the walk has covered the whole selection. */
  lemma WalkEnd(g: seq<byte>, W: nat, sel: (int, int) -> bool, id: byte, x0: int, y0: int, x1: int, y1: int, y: int)
    requires Confined(sel, x0, y0, x1, y1) && y > y1
    ensures Paint(g, W, Upto(sel, x0, y), id) == Paint(g, W, sel, id)
  {
    PaintSame(g, W, Upto(sel, x0, y), sel, id);
  }
}
