/** The disc brush `applyBrush` (src/simulation/engine.ts:19-39): every
    in-bounds cell within distance `max(1, brush)` of (x, y) gets the id. */
module Brush {
  import opened Types
  import opened Cells
  import opened Painting

  /** `Math.max(1, brush)`. */
  function Radius(brush: int): (r: int)
    ensures r >= 1 && r >= brush
    ensures r == 1 || r == brush
  {
    if brush > 1 then brush else 1
  }

  /** The offsets the two loops visit and the distance test they apply. */
  predicate InDisc(x: int, y: int, r: int, cx: int, cy: int)
  {
    x - r <= cx <= x + r && y - r <= cy <= y + r
    && (cx - x) * (cx - x) + (cy - y) * (cy - y) <= r * r
  }

  function Disc(x: int, y: int, r: int): (int, int) -> bool
  {
    (cx, cy) => InDisc(x, y, r, cx, cy)
  }

  /** The grid `applyBrush` leaves behind. */
  function Brushed(g: seq<byte>, W: nat, x: int, y: int, brush: int, id: byte): (r: seq<byte>)
    ensures |r| == |g|
  {
    Paint(g, W, Disc(x, y, Radius(brush)), id)
  }

  method ApplyBrush(grid: array<byte>, W: nat, H: nat, x: int, y: int, brush: int, id: byte)
    requires grid.Length == W * H
    modifies grid
    ensures grid[..] == Brushed(old(grid[..]), W, x, y, brush, id)
  {
    ghost var g := grid[..];
    var radius := if brush > 1 then brush else 1;
    ghost var sel := Disc(x, y, radius);
    WalkStart(g, W, sel, id, x - radius, y - radius, x + radius, y + radius);
    var dy := -radius;
    while dy <= radius
      invariant -radius <= dy <= radius + 1
      invariant grid[..] == Paint(g, W, Upto(sel, x - radius, y + dy), id)
    {
      BrushRow(grid, W, H, x, y, radius, dy, id, g);
      dy := dy + 1;
    }
    WalkEnd(g, W, sel, id, x - radius, y - radius, x + radius, y + radius, y + dy);
  }

  /** One pass of the inner loop: the row at offset `dy`. */
  method BrushRow(grid: array<byte>, W: nat, H: nat, x: int, y: int, radius: int, dy: int, id: byte, ghost g: seq<byte>)
    requires grid.Length == W * H && |g| == W * H && -radius <= dy <= radius
    requires grid[..] == Paint(g, W, Upto(Disc(x, y, radius), x - radius, y + dy), id)
    modifies grid
    ensures grid[..] == Paint(g, W, Upto(Disc(x, y, radius), x - radius, y + dy + 1), id)
  {
    ghost var sel := Disc(x, y, radius);
    var dx := -radius;
    while dx <= radius
      invariant -radius <= dx <= radius + 1
      invariant grid[..] == Paint(g, W, Upto(sel, x + dx, y + dy), id)
    {
      var nx := x + dx;
      var ny := y + dy;
      WalkVisit(g, W, H, sel, id, nx, ny);
      DiscOffset(x, y, radius, dx, dy);
      if !InBounds(nx, ny, W, H) {
      } else if dx * dx + dy * dy <= radius * radius {
        grid[Idx(W, H, nx, ny)] := id;
      }
      dx := dx + 1;
    }
    WalkNextRow(g, W, sel, id, x - radius, y - radius, x + radius, y + radius, x + dx, y + dy);
  }

  lemma DiscOffset(x: int, y: int, r: int, dx: int, dy: int)
    requires -r <= dx <= r && -r <= dy <= r
    ensures Disc(x, y, r)(x + dx, y + dy) <==> dx * dx + dy * dy <= r * r
  {
  }

  /** A square no larger than `r * r` has a root between `-r` and `r`. */
  lemma SquareBound(d: int, r: int)
    requires r >= 0 && d * d <= r * r
    ensures -r <= d <= r
  {
    if d > r {
      MulMonotone(r + 1, d, d);
      MulMonotone(r, d, r);
      assert false;
    } else if d < -r {
      MulMonotone(r + 1, -d, -d);
      MulMonotone(r, -d, r);
      assert false;
    }
  }

  /** The box bounds of the loops add nothing to the distance test. */
  lemma DiscIsDistance(x: int, y: int, r: int, cx: int, cy: int)
    requires r >= 0
    ensures InDisc(x, y, r, cx, cy) <==> (cx - x) * (cx - x) + (cy - y) * (cy - y) <= r * r
  {
    var dx, dy := cx - x, cy - y;
    var a, b := dx * dx, dy * dy;
    if a + b <= r * r {
      assert a >= 0 && b >= 0;
      SquareBound(dx, r);
      SquareBound(dy, r);
    }
  }

  /** The brush paints exactly the in-bounds cells whose offset from the
      centre satisfies dx² + dy² <= max(1, brush)²; every other cell keeps
      its value. */
  lemma BrushExact(g: seq<byte>, W: nat, H: nat, x: int, y: int, brush: int, id: byte, cx: int, cy: int)
    requires |g| == W * H && InBounds(cx, cy, W, H)
    ensures Brushed(g, W, x, y, brush, id)[Idx(W, H, cx, cy)]
         == if (cx - x) * (cx - x) + (cy - y) * (cy - y) <= Radius(brush) * Radius(brush) then id
            else g[Idx(W, H, cx, cy)]
  {
    var r := Radius(brush);
    PaintAt(g, W, H, Disc(x, y, r), id, cx, cy);
    DiscIsDistance(x, y, r, cx, cy);
  }

  /** Brushing twice with the same arguments is brushing once. */
  lemma BrushIdempotent(g: seq<byte>, W: nat, x: int, y: int, brush: int, id: byte)
    ensures Brushed(Brushed(g, W, x, y, brush, id), W, x, y, brush, id) == Brushed(g, W, x, y, brush, id)
  {
    PaintIdempotent(g, W, Disc(x, y, Radius(brush)), id);
  }

  /** A brush of size 1 or less paints the centre and its four orthogonal
      neighbours, never a diagonal. */
  lemma SmallBrushIsPlus(x: int, y: int, brush: int, cx: int, cy: int)
    requires brush <= 1
    ensures Disc(x, y, Radius(brush))(cx, cy)
        <==> (cx, cy) in {(x, y), (x - 1, y), (x + 1, y), (x, y - 1), (x, y + 1)}
  {
    var dx, dy := cx - x, cy - y;
    if -1 <= dx <= 1 && -1 <= dy <= 1 {
      assert dx * dx + dy * dy <= 1 <==> dx == 0 || dy == 0;
    }
  }
}
