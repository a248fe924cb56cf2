/** Grid addressing and the census (src/simulation/engine.ts:9-17, 254):
    a grid is a flat, row-major sequence of bytes and cell (x, y) lives at
    index y * width + x. */
module Cells {
  import opened Types

  /** `inBounds`: both coordinates inside a `width * height` grid. */
  predicate InBounds(x: int, y: int, width: int, height: int)
  {
    x >= 0 && y >= 0 && x < width && y < height
  }

  /** The index `getCell` and `setCell` use; it always falls inside a
      `width * height` grid when the cell is in bounds. */
  function Idx(width: nat, height: nat, x: int, y: int): (i: nat)
    requires InBounds(x, y, width, height)
    ensures i < width * height
  {
    IdxBound(width, x, y, height);
    y * width + x
  }

  lemma MulMonotone(a: int, b: int, c: nat)
    requires a <= b
    ensures a * c <= b * c
  {
    assert b * c - a * c == (b - a) * c;
  }

  lemma IdxBound(width: int, x: int, y: int, height: int)
    requires 0 <= x < width && 0 <= y < height
    ensures 0 <= y * width + x < width * height
  {
    MulMonotone(y, height - 1, width);
    assert (height - 1) * width == height * width - width;
    MulMonotone(0, y, width);
  }

  /** Dividing an index by the width recovers its coordinates, so different
      in-bounds cells never share an index: no write crosses a row edge. */
  lemma {:induction false} IdxCoords(width: nat, x: int, y: int)
    requires 0 <= x < width && 0 <= y
    ensures (y * width + x) / width == y && (y * width + x) % width == x
  {
    var n := y * width + x;
    var q, r := n / width, n % width;
    assert n == q * width + r && 0 <= r < width;
    if q < y {
      MulMonotone(q + 1, y, width);
      assert false;
    } else if q > y {
      MulMonotone(y + 1, q, width);
      assert false;
    }
  }

  /** `createGrid`. */
  function CreateGrid(width: nat, height: nat): (g: seq<byte>)
    ensures |g| == width * height
    ensures forall i :: 0 <= i < |g| ==> g[i] == 0
    ensures CountParticles(g) == 0
  {
    seq(width * height, _ => 0 as byte)
  }

  /** `countParticles`: the `reduce` adding one per non-zero cell. */
  function CountParticles(g: seq<byte>): (n: nat)
    ensures n <= |g|
    ensures n == 0 <==> forall i :: 0 <= i < |g| ==> g[i] == 0
  {
    if |g| == 0 then 0
    else CountParticles(g[..|g| - 1]) + (if g[|g| - 1] == 0 then 0 else 1)
  }

  /** The cells that hold a particle. */
  ghost function Occupied(g: seq<byte>): set<int>
  {
    set i | 0 <= i < |g| && g[i] != 0
  }

  /** The census counts exactly the occupied cells. */
  lemma {:induction false} CountIsOccupied(g: seq<byte>)
    ensures CountParticles(g) == |Occupied(g)|
  {
    if |g| > 0 {
      var p := g[..|g| - 1];
      CountIsOccupied(p);
      if g[|g| - 1] == 0 {
        assert Occupied(g) == Occupied(p);
      } else {
        assert Occupied(g) == Occupied(p) + {|g| - 1};
      }
    } else {
      assert Occupied(g) == {};
    }
  }

  /** Extending a prefix by one cell adds that cell to the census. */
  lemma PrefixCount(g: seq<byte>, n: nat)
    requires n < |g|
    ensures CountParticles(g[..n + 1]) == CountParticles(g[..n]) + (if g[n] == 0 then 0 else 1)
  {
    assert g[..n + 1][..n] == g[..n];
  }

  /** The number of cells holding `c`. */
  function CountOf(g: seq<byte>, c: byte): (n: nat)
    ensures n <= |g|
  {
    if |g| == 0 then 0
    else CountOf(g[..|g| - 1], c) + (if g[|g| - 1] == c then 1 else 0)
  }

  lemma PrefixCountOf(g: seq<byte>, n: nat, c: byte)
    requires n < |g|
    ensures CountOf(g[..n + 1], c) == CountOf(g[..n], c) + (if g[n] == c then 1 else 0)
  {
    assert g[..n + 1][..n] == g[..n];
  }

  /** Writing `v` into an empty cell adds one `v` and leaves every other
      non-empty value's count alone. */
  lemma {:induction false} CountOfFill(g: seq<byte>, t: int, v: byte, c: byte)
    requires 0 <= t < |g| && g[t] == 0 && c != 0
    ensures CountOf(g[t := v], c) == CountOf(g, c) + (if v == c then 1 else 0)
  {
    var h := g[t := v];
    var n := |g| - 1;
    if t == n {
      assert h[..n] == g[..n];
    } else {
      assert h[..n] == g[..n][t := v];
      CountOfFill(g[..n], t, v, c);
    }
  }

  /** If the only differences between two grids are empty cells of the first
      that the second fills with something other than `c`, both hold the
      same number of `c`. */
  lemma {:induction false} CountOfUnchanged(a: seq<byte>, b: seq<byte>, c: byte)
    requires |a| == |b| && c != 0
    requires forall j :: 0 <= j < |a| && a[j] != b[j] ==> a[j] == 0 && b[j] != c
    ensures CountOf(b, c) == CountOf(a, c)
  {
    if |a| > 0 {
      var n := |a| - 1;
      CountOfUnchanged(a[..n], b[..n], c);
    }
  }
}
