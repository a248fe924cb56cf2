/** The grid helpers the scene presets are built from
    (src/simulation/presets.ts): `fillRect`, `bandFill`, `sprinkle` and the
    blank slate.  A grid is `width` cells wide and `height` rows tall, where
    the source writes `grid.length / width` for the height. */
module Presets {
  import opened Types
  import opened Cells
  import opened Painting

  function Min(a: int, b: int): (m: int)
    ensures m <= a && m <= b && (m == a || m == b)
  {
    if a < b then a else b
  }

  function Max(a: int, b: int): (m: int)
    ensures m >= a && m >= b && (m == a || m == b)
  {
    if a < b then b else a
  }

  // ----- fillRect -----

  /** The cells of the box [sx, ex] x [sy, ey]. */
  function Rect(sx: int, sy: int, ex: int, ey: int): (int, int) -> bool
  {
    (cx, cy) => sx <= cx <= ex && sy <= cy <= ey
  }

  /** The clamped box `fillRect` walks. */
  function FillBox(width: nat, height: nat, x0: int, y0: int, x1: int, y1: int): (int, int) -> bool
  {
    Rect(Max(0, Min(x0, x1)), Max(0, Min(y0, y1)), Min(width - 1, Max(x0, x1)), Min(height - 1, Max(y0, y1)))
  }

  /** The grid `fillRect` leaves behind. */
  function Filled(g: seq<byte>, width: nat, height: nat, x0: int, y0: int, x1: int, y1: int, id: byte): (r: seq<byte>)
    ensures |r| == |g|
  {
    Paint(g, width, FillBox(width, height, x0, y0, x1, y1), id)
  }

  method FillRect(grid: array<byte>, width: nat, height: nat, x0: int, y0: int, x1: int, y1: int, id: byte)
    requires grid.Length == width * height
    modifies grid
    ensures grid[..] == Filled(old(grid[..]), width, height, x0, y0, x1, y1, id)
  {
    ghost var g := grid[..];
    var startX := Max(0, Min(x0, x1));
    var endX := Min(width - 1, Max(x0, x1));
    var startY := Max(0, Min(y0, y1));
    var endY := Min(height - 1, Max(y0, y1));
    ghost var sel := Rect(startX, startY, endX, endY);
    WalkStart(g, width, sel, id, startX, startY, endX, endY);
    var y := startY;
    while y <= endY
      invariant startY <= y && (startY <= endY ==> y <= endY + 1)
      invariant grid[..] == Paint(g, width, Upto(sel, startX, y), id)
    {
      FillRow(grid, width, height, startX, startY, endX, endY, y, id, g);
      y := y + 1;
    }
    WalkEnd(g, width, sel, id, startX, startY, endX, endY, y);
  }

  /** One pass of the inner loop: row `y` of the box. */
  method FillRow(grid: array<byte>, width: nat, height: nat, startX: int, startY: int, endX: int, endY: int,
                 y: int, id: byte, ghost g: seq<byte>)
    requires grid.Length == width * height && |g| == width * height
    requires 0 <= startX && endX < width && 0 <= startY <= y <= endY < height
    requires grid[..] == Paint(g, width, Upto(Rect(startX, startY, endX, endY), startX, y), id)
    modifies grid
    ensures grid[..] == Paint(g, width, Upto(Rect(startX, startY, endX, endY), startX, y + 1), id)
  {
    ghost var sel := Rect(startX, startY, endX, endY);
    var x := startX;
    while x <= endX
      invariant startX <= x && (startX <= endX ==> x <= endX + 1)
      invariant grid[..] == Paint(g, width, Upto(sel, x, y), id)
    {
      WalkVisit(g, width, height, sel, id, x, y);
      grid[Idx(width, height, x, y)] := id;
      x := x + 1;
    }
    WalkNextRow(g, width, sel, id, startX, startY, endX, endY, x, y);
  }

  /** `fillRect` sets exactly the in-bounds cells between the two corners,
      whichever way round they are given, and keeps every other cell. */
  lemma FillExact(g: seq<byte>, width: nat, height: nat, x0: int, y0: int, x1: int, y1: int, id: byte, cx: int, cy: int)
    requires |g| == width * height && InBounds(cx, cy, width, height)
    ensures Filled(g, width, height, x0, y0, x1, y1, id)[Idx(width, height, cx, cy)]
         == if Min(x0, x1) <= cx <= Max(x0, x1) && Min(y0, y1) <= cy <= Max(y0, y1) then id
            else g[Idx(width, height, cx, cy)]
  {
    PaintAt(g, width, height, FillBox(width, height, x0, y0, x1, y1), id, cx, cy);
  }

  /** Swapping the corners gives the same grid. */
  lemma FillSymmetric(g: seq<byte>, width: nat, height: nat, x0: int, y0: int, x1: int, y1: int, id: byte)
    ensures Filled(g, width, height, x0, y0, x1, y1, id) == Filled(g, width, height, x1, y1, x0, y0, id)
    ensures Filled(g, width, height, x0, y0, x1, y1, id) == Filled(g, width, height, x1, y0, x0, y1, id)
  {
    PaintSame(g, width, FillBox(width, height, x0, y0, x1, y1), FillBox(width, height, x1, y1, x0, y0), id);
    PaintSame(g, width, FillBox(width, height, x0, y0, x1, y1), FillBox(width, height, x1, y0, x0, y1), id);
  }

  /** Filling the same rectangle twice is filling it once. */
  lemma FillIdempotent(g: seq<byte>, width: nat, height: nat, x0: int, y0: int, x1: int, y1: int, id: byte)
    ensures Filled(Filled(g, width, height, x0, y0, x1, y1, id), width, height, x0, y0, x1, y1, id)
         == Filled(g, width, height, x0, y0, x1, y1, id)
  {
    PaintIdempotent(g, width, FillBox(width, height, x0, y0, x1, y1), id);
  }

  /** A rectangle whose columns all lie right of the grid, or all left of
      it, changes nothing; the same holds for rows. */
  lemma FillOffGrid(g: seq<byte>, width: nat, height: nat, x0: int, y0: int, x1: int, y1: int, id: byte)
    requires (x0 >= width && x1 >= width) || (x0 < 0 && x1 < 0) || (y0 >= height && y1 >= height) || (y0 < 0 && y1 < 0)
    ensures Filled(g, width, height, x0, y0, x1, y1, id) == g
  {
    PaintNothing(g, width, FillBox(width, height, x0, y0, x1, y1), id);
  }

  // ----- bandFill -----

  /** The last row `bandFill` asks for. */
  function BandEnd(height: nat, y: int, thickness: int): int
  {
    Min(height - 1, y + thickness)
  }

  method BandFill(grid: array<byte>, width: nat, height: nat, y: int, thickness: int, id: byte)
    requires grid.Length == width * height
    modifies grid
    ensures grid[..] == Filled(old(grid[..]), width, height, 0, y, width, BandEnd(height, y, thickness), id)
  {
    FillRect(grid, width, height, 0, y, width, Min(height - 1, y + thickness), id);
  }

  /** A band of non-negative thickness starting at a row of the grid covers
      every column of the rows y to min(height - 1, y + thickness), that is
      thickness + 1 rows unless the bottom edge cuts it short, and nothing else. */
  lemma BandRows(g: seq<byte>, width: nat, height: nat, y: int, thickness: int, id: byte, cx: int, cy: int)
    requires |g| == width * height && InBounds(cx, cy, width, height)
    requires 0 <= y < height && 0 <= thickness
    ensures Filled(g, width, height, 0, y, width, BandEnd(height, y, thickness), id)[Idx(width, height, cx, cy)]
         == if y <= cy <= Min(height - 1, y + thickness) then id else g[Idx(width, height, cx, cy)]
  {
    FillExact(g, width, height, 0, y, width, BandEnd(height, y, thickness), id, cx, cy);
  }

  /** A band asked for below the grid is clamped onto the last row, which
      it fills. */
  lemma BandPastBottom(g: seq<byte>, width: nat, height: nat, y: int, thickness: int, id: byte, cx: int, cy: int)
    requires |g| == width * height && InBounds(cx, cy, width, height)
    requires y >= height && 0 <= thickness
    ensures Filled(g, width, height, 0, y, width, BandEnd(height, y, thickness), id)[Idx(width, height, cx, cy)]
         == if cy == height - 1 then id else g[Idx(width, height, cx, cy)]
  {
    FillExact(g, width, height, 0, y, width, BandEnd(height, y, thickness), id, cx, cy);
  }

  // ----- sprinkle -----

  /** The index the `n`-th pass of `sprinkle` computes: two answers of the
      oracle per pass, the column first. */
  function SprinkleAt(width: nat, height: nat, rand: Oracle, n: nat): int
  {
    Scale(rand(2 * n + 1), height) * width + Scale(rand(2 * n), width)
  }

  /** `Math.floor(r * n)`: an answer in [0, 1) becomes an integer in [0, n). */
  function Scale(r: real, n: nat): (k: int)
    ensures 0.0 <= r < 1.0 && n > 0 ==> 0 <= k < n
  {
    var p := r * n as real;
    if 0.0 <= r < 1.0 && n > 0 then
      ScaleBound(r, n as real);
      assert p.Floor as real <= p < n as real;
      p.Floor
    else p.Floor
  }

  lemma ScaleBound(r: real, m: real)
    requires 0.0 <= r < 1.0 && m > 0.0
    ensures 0.0 <= r * m < m
  {
    assert m - r * m == (1.0 - r) * m;
  }

  /** A typed array ignores a store outside its bounds. */
  predicate Lands(len: nat, k: int)
  {
    0 <= k < len
  }

  /** The grid after the first `n` passes. */
  function Sprinkled(g: seq<byte>, width: nat, height: nat, rand: Oracle, n: nat, id: byte): (r: seq<byte>)
    ensures |r| == |g|
  {
    if n == 0 then g
    else
      var h := Sprinkled(g, width, height, rand, n - 1, id);
      var k := SprinkleAt(width, height, rand, n - 1);
      if Lands(|h|, k) then h[k := id] else h
  }

  method Sprinkle(grid: array<byte>, width: nat, height: nat, count: int, id: byte, rand: Oracle)
    modifies grid
    ensures grid[..] == Sprinkled(old(grid[..]), width, height, rand, if count < 0 then 0 else count, id)
  {
    ghost var g := grid[..];
    var i := 0;
    while i < count
      invariant 0 <= i <= (if count < 0 then 0 else count)
      invariant grid[..] == Sprinkled(g, width, height, rand, i, id)
    {
      var x := Scale(rand(2 * i), width);
      var y := Scale(rand(2 * i + 1), height);
      var k := y * width + x;
      if 0 <= k < grid.Length {
        grid[k] := id;
      }
      i := i + 1;
    }
  }

  /** The cells the first `n` passes hit. */
  ghost function Hits(len: nat, width: nat, height: nat, rand: Oracle, n: nat): set<int>
  {
    set i | 0 <= i < n && Lands(len, SprinkleAt(width, height, rand, i)) :: SprinkleAt(width, height, rand, i)
  }

  /** Pass `n` adds the cell it computes to the hits when the store lands. */
  lemma HitsStep(len: nat, width: nat, height: nat, rand: Oracle, n: nat)
    requires n > 0
    ensures var k := SprinkleAt(width, height, rand, n - 1);
            Hits(len, width, height, rand, n)
              == Hits(len, width, height, rand, n - 1) + if Lands(len, k) then {k} else {}
  {
    var k := SprinkleAt(width, height, rand, n - 1);
    if Lands(len, k) {
      assert k in Hits(len, width, height, rand, n);
    }
  }

  /** After `n` passes exactly the hit cells hold the id, every other cell
      is unchanged, and at most `n` cells were hit. */
  lemma {:induction false} SprinkleExact(g: seq<byte>, width: nat, height: nat, rand: Oracle, n: nat, id: byte)
    ensures |Hits(|g|, width, height, rand, n)| <= n
    ensures forall j :: 0 <= j < |g| ==>
              Sprinkled(g, width, height, rand, n, id)[j] == if j in Hits(|g|, width, height, rand, n) then id else g[j]
  {
    if n > 0 {
      SprinkleExact(g, width, height, rand, n - 1, id);
      HitsStep(|g|, width, height, rand, n);
      var h := Sprinkled(g, width, height, rand, n - 1, id);
      var k := SprinkleAt(width, height, rand, n - 1);
      var hits, before := Hits(|g|, width, height, rand, n), Hits(|g|, width, height, rand, n - 1);
      forall j | 0 <= j < |g|
        ensures Sprinkled(g, width, height, rand, n, id)[j] == if j in hits then id else g[j]
      {
        assert h[j] == if j in before then id else g[j];
      }
    } else {
      assert Hits(|g|, width, height, rand, n) == {};
    }
  }

  // ----- the blank slate -----

  /** The `blank-slate` builder. */
  method BlankSlate(width: nat, height: nat) returns (grid: array<byte>)
    ensures fresh(grid) && grid[..] == CreateGrid(width, height)
  {
    grid := new byte[width * height](_ => 0);
  }
}
