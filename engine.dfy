/** `stepGrid` itself (src/simulation/engine.ts:57-235): the double-buffered
    scan over two `Uint8Array`s, proved to compute `StepSpec.Step`. The
    `Math.random` calls are answered by the oracle `rand`, call number `d`
    getting `rand(d)`; an exception out of the fire rule is the `threw`
    result. */
module Engine {
  import opened Types
  import opened Cells
  import opened StepSpec
  import StepLaws

  /** A water neighbour of a plant: one draw to pass, then a diagonal cell
      drawn with two more, where a new plant takes root if it is free. */
  method PlantSeed(grid: array<byte>, buffer: array<byte>, W: nat, H: nat, x: int, y: int, rand: Oracle,
                   d0: nat, spread0: bool)
      returns (d: nat, spread: bool)
    requires grid != buffer && grid.Length == W * H && buffer.Length == W * H && InBounds(x, y, W, H)
    modifies buffer
    ensures Sprout(buffer[..], d, spread) == PlantWater(grid[..], W, H, x, y, rand, Sprout(old(buffer[..]), d0, spread0))
  {
    d, spread := d0, spread0;
    var pass := rand(d);
    d := d + 1;
    if pass > 0.7 {
      var tx := x + Side(rand(d));
      var ty := y + Side(rand(d + 1));
      d := d + 2;
      if InBounds(tx, ty, W, H) && grid[Idx(W, H, tx, ty)] == 0 && buffer[Idx(W, H, tx, ty)] == 0 {
        buffer[Idx(W, H, tx, ty)] := PLANT;
        spread := true;
      }
    }
  }

  /** The plant case at cell (x, y): the neighbour loop with its `break` on
      fire, then the plant is put back unless it spread or burned. */
  method PlantCell(grid: array<byte>, buffer: array<byte>, W: nat, H: nat, x: int, y: int, rand: Oracle,
                   ghost particles: nat, d0: nat)
      returns (d: nat)
    requires grid != buffer && grid.Length == W * H && buffer.Length == W * H && InBounds(x, y, W, H)
    requires grid[Idx(W, H, x, y)] == PLANT && buffer[Idx(W, H, x, y)] == 0
    modifies buffer
    ensures var r := PlantRule(grid[..], W, H, x, y, rand, Scan(old(buffer[..]), particles, d0));
            buffer[..] == r.buf && d == r.draws
  {
    ghost var src := grid[..];
    var i := Idx(W, H, x, y);
    ghost var final := PlantFrom(src, W, H, x, y, rand, 0, Sprout(buffer[..], d0, false));
    var spread := false;
    d := d0;
    var k := 0;
    while k < 8
      invariant 0 <= k <= 8 && grid[..] == src && buffer.Length == W * H
      invariant PlantFrom(src, W, H, x, y, rand, k, Sprout(buffer[..], d, spread)) == final
    {
      if !NeighborIn(W, H, x, y, k) {
        k := k + 1;
        continue;
      }
      var nid := grid[NeighborIdx(W, H, x, y, k)];
      ghost var st := Sprout(buffer[..], d, spread);
      if nid == WATER {
        d, spread := PlantSeed(grid, buffer, W, H, x, y, rand, d, spread);
      }
      if nid == FIRE {
        buffer[i] := FIRE;
        spread := true;
        assert Sprout(buffer[..], d, spread) == st.(buf := st.buf[i := FIRE], spread := true);
        break;
      }
      k := k + 1;
    }
    assert Sprout(buffer[..], d, spread) == final;
    if !spread && buffer[i] == 0 {
      buffer[i] := grid[i];
    }
  }

  /** The fire's neighbour loop: plants catch fire, water ends the loop
      (`extinguished`), and any other in-bounds neighbour makes the source
      read `ELEMENTS.wood.id`, which throws. */
  method FireLoop(grid: array<byte>, buffer: array<byte>, W: nat, H: nat, x: int, y: int)
      returns (extinguished: bool, threw: bool)
    requires grid != buffer && grid.Length == W * H && buffer.Length == W * H && InBounds(x, y, W, H)
    modifies buffer
    ensures var r := FireFrom(grid[..], W, H, x, y, 0, old(buffer[..]));
            buffer[..] == r.buf && extinguished == r.Doused? && threw == r.Undefined?
  {
    ghost var src := grid[..];
    ghost var final := FireFrom(src, W, H, x, y, 0, buffer[..]);
    extinguished, threw := false, false;
    var k := 0;
    while k < 8
      invariant 0 <= k <= 8 && grid[..] == src && buffer.Length == W * H
      invariant FireFrom(src, W, H, x, y, k, buffer[..]) == final
    {
      if !NeighborIn(W, H, x, y, k) {
        k := k + 1;
        continue;
      }
      var n := NeighborIdx(W, H, x, y, k);
      var nid := grid[n];
      if nid == WATER {
        extinguished := true;
        return;
      }
      if nid != PLANT {
        threw := true;
        return;
      }
      if buffer[n] == 0 {
        buffer[n] := FIRE;
      }
      k := k + 1;
    }
  }

  /** The fire case at cell (x, y). `threw` is the `TypeError` the source
      raises reading `ELEMENTS.wood.id` or `ELEMENTS.steam.id`. */
  method FireCell(grid: array<byte>, buffer: array<byte>, W: nat, H: nat, x: int, y: int, rand: Oracle,
                  ghost particles: nat, d0: nat)
      returns (d: nat, threw: bool)
    requires grid != buffer && grid.Length == W * H && buffer.Length == W * H && InBounds(x, y, W, H)
    requires grid[Idx(W, H, x, y)] == FIRE && buffer[Idx(W, H, x, y)] == 0
    modifies buffer
    ensures var r := FireRule(grid[..], W, H, x, y, rand, Scan(old(buffer[..]), particles, d0));
            buffer[..] == r.scan.buf && d == r.scan.draws && threw == r.Threw?
  {
    var i := Idx(W, H, x, y);
    d := d0;
    var extinguished;
    extinguished, threw := FireLoop(grid, buffer, W, H, x, y);
    if threw {
      return;
    }
    if extinguished {
      if buffer[i] == 0 {
        threw := true;
      }
      return;
    }
    var burnOut := rand(d);
    d := d + 1;
    if burnOut > 0.96 {
      return;
    }
    var up := y - 1;
    if InBounds(x, up, W, H) && grid[Idx(W, H, x, up)] == 0 && buffer[Idx(W, H, x, up)] == 0 {
      buffer[Idx(W, H, x, up)] := FIRE;
    } else {
      buffer[i] := FIRE;
    }
  }

  /** The sand case: straight down, else the drawn diagonal, else stay. */
  method SandCell(grid: array<byte>, buffer: array<byte>, W: nat, H: nat, x: int, y: int, rand: Oracle, d0: nat, id: byte)
      returns (d: nat)
    requires grid != buffer && grid.Length == W * H && buffer.Length == W * H && InBounds(x, y, W, H)
    modifies buffer
    ensures var m := SandMove(grid[..], old(buffer[..]), W, H, x, y, rand, d0);
            buffer[..] == old(buffer[..])[Idx(W, H, m.x, m.y) := id] && d == m.draws
  {
    d := d0;
    var below := y + 1;
    if InBounds(x, below, W, H) && grid[Idx(W, H, x, below)] == 0 && buffer[Idx(W, H, x, below)] == 0 {
      buffer[Idx(W, H, x, below)] := id;
      return;
    }
    var dir := Side(rand(d));
    d := d + 1;
    if InBounds(x + dir, below, W, H) && grid[Idx(W, H, x + dir, below)] == 0 && buffer[Idx(W, H, x + dir, below)] == 0 {
      buffer[Idx(W, H, x + dir, below)] := id;
      return;
    }
    buffer[Idx(W, H, x, y)] := id;
  }

  /** The water case: straight down, else the drawn side one cell away,
      else the same side two cells away, else stay. */
  method WaterCell(grid: array<byte>, buffer: array<byte>, W: nat, H: nat, x: int, y: int, rand: Oracle, d0: nat, id: byte)
      returns (d: nat)
    requires grid != buffer && grid.Length == W * H && buffer.Length == W * H && InBounds(x, y, W, H)
    modifies buffer
    ensures var m := WaterMove(grid[..], old(buffer[..]), W, H, x, y, rand, d0);
            buffer[..] == old(buffer[..])[Idx(W, H, m.x, m.y) := id] && d == m.draws
  {
    d := d0;
    var below := y + 1;
    if InBounds(x, below, W, H) && grid[Idx(W, H, x, below)] == 0 && buffer[Idx(W, H, x, below)] == 0 {
      buffer[Idx(W, H, x, below)] := id;
      return;
    }
    var dir := Side(rand(d));
    d := d + 1;
    var side := x + dir;
    if InBounds(side, y, W, H) && grid[Idx(W, H, side, y)] == 0 && buffer[Idx(W, H, side, y)] == 0 {
      buffer[Idx(W, H, side, y)] := id;
      return;
    }
    var farSide := x + dir * 2;
    if InBounds(farSide, y, W, H) && grid[Idx(W, H, farSide, y)] == 0 && buffer[Idx(W, H, farSide, y)] == 0 {
      buffer[Idx(W, H, farSide, y)] := id;
      return;
    }
    buffer[Idx(W, H, x, y)] := id;
  }

  /** One pass of the inner loop body at cell (x, y). */
  method VisitCell(grid: array<byte>, buffer: array<byte>, W: nat, H: nat, x: int, y: int, rand: Oracle,
                   particles0: nat, d0: nat)
      returns (particles: nat, d: nat, threw: bool)
    requires grid != buffer && grid.Length == W * H && buffer.Length == W * H && InBounds(x, y, W, H)
    modifies buffer
    ensures var r := CellStep(grid[..], W, H, x, y, rand, Scan(old(buffer[..]), particles0, d0));
            buffer[..] == r.scan.buf && particles == r.scan.particles && d == r.scan.draws && threw == r.Threw?
  {
    particles, d, threw := particles0, d0, false;
    ghost var r := CellStep(grid[..], W, H, x, y, rand, Scan(buffer[..], particles0, d0));
    var i := Idx(W, H, x, y);
    var id := grid[i];
    if id == 0 {
      return;
    }
    particles := particles + 1;
    if buffer[i] != 0 {
      return;
    }
    ghost var s1 := Scan(buffer[..], particles, d);
    var key := Kind(id);
    if key == Some(Sand) {
      d := SandCell(grid, buffer, W, H, x, y, rand, d, id);
      assert r.scan == Scan(buffer[..], particles, d);
    } else if key == Some(Water) {
      d := WaterCell(grid, buffer, W, H, x, y, rand, d, id);
      assert r.scan == Scan(buffer[..], particles, d);
    } else if key == Some(Plant) {
      d := PlantCell(grid, buffer, W, H, x, y, rand, particles, d);
      assert r == Running(PlantRule(grid[..], W, H, x, y, rand, s1));
    } else if key == Some(Fire) {
      d, threw := FireCell(grid, buffer, W, H, x, y, rand, particles, d);
      assert r == FireRule(grid[..], W, H, x, y, rand, s1);
    } else {
      buffer[i] := id;
      assert r == Running(s1.(buf := s1.buf[i := id]));
    }
  }

  /** `stepGrid(grid, buffer, width, height)`: clears the buffer, scans
      bottom to top and left to right, and hands back the buffer and the
      particle count. The result does not depend on what the buffer held,
      and the source grid is never written. */
  method StepGrid(grid: array<byte>, buffer: array<byte>, W: nat, H: nat, rand: Oracle)
      returns (next: array<byte>, particles: nat, threw: bool)
    requires grid != buffer && grid.Length == W * H && buffer.Length == W * H
    modifies buffer
    ensures next == buffer && grid[..] == old(grid[..])
    ensures threw <==> Step(grid[..], W, H, rand).Aborted?
    ensures !threw ==> Step(grid[..], W, H, rand) == Stepped(buffer[..], particles)
    ensures threw ==> Step(grid[..], W, H, rand) == Aborted(buffer[..])
  {
    next, threw := buffer, false;
    ghost var src := grid[..];
    forall j | 0 <= j < buffer.Length {
      buffer[j] := 0;
    }
    assert buffer[..] == CreateGrid(W, H);
    particles := 0;
    var d := 0;
    var y := H - 1;
    while y >= 0
      invariant -1 <= y < H && grid[..] == src
      invariant y >= 0 ==> StateAt(src, W, H, rand, y, 0) == Running(Scan(buffer[..], particles, d))
      invariant y < 0 ==> Final(src, W, H, rand) == Running(Scan(buffer[..], particles, d))
    {
      particles, d, threw := StepRow(grid, buffer, W, H, y, rand, particles, d);
      if threw {
        return;
      }
      y := y - 1;
    }
  }

  /** One pass of the outer loop: row `y`, left to right. On a throw the
      scan's final state is reached at once. */
  method StepRow(grid: array<byte>, buffer: array<byte>, W: nat, H: nat, y: int, rand: Oracle,
                 particles0: nat, d0: nat)
      returns (particles: nat, d: nat, threw: bool)
    requires grid != buffer && grid.Length == W * H && buffer.Length == W * H && 0 <= y < H
    requires StateAt(grid[..], W, H, rand, y, 0) == Running(Scan(buffer[..], particles0, d0))
    modifies buffer
    ensures !threw ==> StateAt(grid[..], W, H, rand, y, W) == Running(Scan(buffer[..], particles, d))
    ensures threw ==> Final(grid[..], W, H, rand) == Threw(Scan(buffer[..], particles, d))
  {
    ghost var src := grid[..];
    particles, d, threw := particles0, d0, false;
    var x := 0;
    while x < W
      invariant 0 <= x <= W && grid[..] == src
      invariant StateAt(src, W, H, rand, y, x) == Running(Scan(buffer[..], particles, d))
    {
      ghost var before := Scan(buffer[..], particles, d);
      particles, d, threw := VisitCell(grid, buffer, W, H, x, y, rand, particles, d);
      assert StateAt(src, W, H, rand, y, x + 1) == CellStep(src, W, H, x, y, rand, before);
      if threw {
        StepLaws.ThrowIsFinal(src, W, H, rand, y, x + 1, 0, W);
        return;
      }
      x := x + 1;
    }
  }
}
