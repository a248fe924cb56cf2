/** One tick of the automaton (`stepGrid`, src/simulation/engine.ts:57-235)
    as functions of the source grid and a random oracle.

    The scan visits rows bottom to top and cells left to right. A `Scan`
    value is the state the source keeps while it runs: the destination
    buffer, the running particle counter and the number of `Math.random`
    calls made so far. The oracle `rand` answers call number n with
    `rand(n)`, so every property below holds for every sequence of draws.

    Only ids 0 to 5 have a kind (see module Elements), so the soil, wood,
    seed and steam cases of the source's `switch` are unreachable. The fire
    rule reads `ELEMENTS.wood.id` and `ELEMENTS.steam.id`, which dereference
    an undefined record: there the source throws out of `stepGrid`, and the
    model ends the scan with `Threw`, keeping the buffer as written so far. */
module StepSpec {
  import opened Types
  import opened Cells
  import Elements

  // The ids the engine writes: ELEMENTS.sand.id ... ELEMENTS.fire.id.
  const SAND: byte := 1
  const WATER: byte := 2
  const STONE: byte := 3
  const PLANT: byte := 4
  const FIRE: byte := 5

  /** The neighbour offsets in the order the plant and fire loops visit them. */
  const NEIGHBORS: seq<(int, int)> := [(0, 1), (0, -1), (1, 0), (-1, 0), (1, 1), (-1, 1), (1, -1), (-1, -1)]

  /** `rand() > 0.5 ? 1 : -1`: one step right for a draw above one half,
      one step left otherwise. */
  function Side(r: real): (d: int)
    ensures d == 1 || d == -1
    ensures d == 1 <==> r > 0.5
  {
    if r > 0.5 then 1 else -1
  }

  /** `Elements.KeyOfId` seen from a grid cell: the kind `stepGrid`
      dispatches on. */
  function Kind(id: byte): Option<ElementKey>
  {
    Elements.KeyOfId(id as int)
  }

  predicate Fits(src: seq<byte>, buf: seq<byte>, W: nat, H: nat)
  {
    |src| == W * H && |buf| == W * H
  }

  /** The acceptance test of every move: in bounds and empty in both grids. */
  predicate Free(src: seq<byte>, buf: seq<byte>, W: nat, H: nat, x: int, y: int)
    requires Fits(src, buf, W, H)
  {
    InBounds(x, y, W, H) && src[Idx(W, H, x, y)] == 0 && buf[Idx(W, H, x, y)] == 0
  }

  /** A free cell's index `y * W + x`, the one every move test reads, lies
      inside both grids and holds 0 in each. */
  lemma FreeAtIndex(src: seq<byte>, buf: seq<byte>, W: nat, H: nat, x: int, y: int)
    requires Fits(src, buf, W, H) && Free(src, buf, W, H, x, y)
    ensures 0 <= y * W + x < |src| && src[y * W + x] == 0 && buf[y * W + x] == 0
  {
  }

  datatype Scan = Scan(buf: seq<byte>, particles: nat, draws: nat)

  /** `Threw` is the scan cut short by an exception. */
  datatype Outcome = Running(scan: Scan) | Threw(scan: Scan)

  /** A single-cell destination chosen by a moving rule. */
  datatype Move = Move(x: int, y: int, draws: nat)

  /** The sand rule: straight down, else one diagonal picked by one draw,
      else stay. */
  function SandMove(src: seq<byte>, buf: seq<byte>, W: nat, H: nat, x: int, y: int, rand: Oracle, d: nat): (m: Move)
    requires Fits(src, buf, W, H) && InBounds(x, y, W, H)
    ensures InBounds(m.x, m.y, W, H)
    ensures (m.x == x && m.y == y) || Free(src, buf, W, H, m.x, m.y)
  {
    if Free(src, buf, W, H, x, y + 1) then Move(x, y + 1, d)
    else
      var dir := Side(rand(d));
      if Free(src, buf, W, H, x + dir, y + 1) then Move(x + dir, y + 1, d + 1)
      else Move(x, y, d + 1)
  }

  /** The water rule: straight down, else one side picked by one draw at
      distance 1, else the same side at distance 2, else stay. */
  function WaterMove(src: seq<byte>, buf: seq<byte>, W: nat, H: nat, x: int, y: int, rand: Oracle, d: nat): (m: Move)
    requires Fits(src, buf, W, H) && InBounds(x, y, W, H)
    ensures InBounds(m.x, m.y, W, H)
    ensures (m.x == x && m.y == y) || Free(src, buf, W, H, m.x, m.y)
  {
    if Free(src, buf, W, H, x, y + 1) then Move(x, y + 1, d)
    else
      var dir := Side(rand(d));
      if Free(src, buf, W, H, x + dir, y) then Move(x + dir, y, d + 1)
      else if Free(src, buf, W, H, x + dir * 2, y) then Move(x + dir * 2, y, d + 1)
      else Move(x, y, d + 1)
  }

  // ----- neighbour bookkeeping shared by the plant and fire rules -----

  predicate NeighborIn(W: nat, H: nat, x: int, y: int, k: int)
    requires 0 <= k < 8
  {
    InBounds(x + NEIGHBORS[k].0, y + NEIGHBORS[k].1, W, H)
  }

  function NeighborIdx(W: nat, H: nat, x: int, y: int, k: int): nat
    requires 0 <= k < 8 && NeighborIn(W, H, x, y, k)
  {
    Idx(W, H, x + NEIGHBORS[k].0, y + NEIGHBORS[k].1)
  }

  predicate NeighborIs(src: seq<byte>, W: nat, H: nat, x: int, y: int, k: int, v: byte)
    requires |src| == W * H && 0 <= k < 8
  {
    NeighborIn(W, H, x, y, k) && src[NeighborIdx(W, H, x, y, k)] == v
  }

  /** Some neighbour visited from position k on holds fire. */
  ghost predicate FireAhead(src: seq<byte>, W: nat, H: nat, x: int, y: int, k: nat)
    requires |src| == W * H
  {
    exists k' :: k <= k' < 8 && NeighborIs(src, W, H, x, y, k', FIRE)
  }

  /** Some neighbour visited from position k on holds water. */
  ghost predicate WaterAhead(src: seq<byte>, W: nat, H: nat, x: int, y: int, k: nat)
    requires |src| == W * H
  {
    exists k' :: k <= k' < 8 && NeighborIs(src, W, H, x, y, k', WATER)
  }

  /** Every in-bounds neighbour visited from position k on is plant. */
  ghost predicate PlantsFrom(src: seq<byte>, W: nat, H: nat, x: int, y: int, k: nat)
    requires |src| == W * H
  {
    forall k' :: k <= k' < 8 && NeighborIn(W, H, x, y, k') ==> NeighborIs(src, W, H, x, y, k', PLANT)
  }

  // ----- plant -----

  /** The plant loop's state: the buffer, the draws made, and `spread`. */
  datatype Sprout = Sprout(buf: seq<byte>, draws: nat, spread: bool)

  /** A water neighbour: one draw decides; a pass draws a diagonal with two
      more draws and plants there if the target is free. */
  function PlantWater(src: seq<byte>, W: nat, H: nat, x: int, y: int, rand: Oracle, st: Sprout): (r: Sprout)
    requires Fits(src, st.buf, W, H) && InBounds(x, y, W, H)
    ensures |r.buf| == |st.buf| && r.draws > st.draws
  {
    if rand(st.draws) > 0.7 then
      var tx := x + Side(rand(st.draws + 1));
      var ty := y + Side(rand(st.draws + 2));
      if Free(src, st.buf, W, H, tx, ty) then
        Sprout(st.buf[Idx(W, H, tx, ty) := PLANT], st.draws + 3, true)
      else st.(draws := st.draws + 3)
    else st.(draws := st.draws + 1)
  }

  /** The plant's neighbour loop from position k on: a fire neighbour turns
      the plant itself to fire and ends the loop. */
  function PlantFrom(src: seq<byte>, W: nat, H: nat, x: int, y: int, rand: Oracle, k: nat, st: Sprout): (r: Sprout)
    requires Fits(src, st.buf, W, H) && InBounds(x, y, W, H) && k <= 8
    requires src[Idx(W, H, x, y)] != 0
    ensures |r.buf| == |st.buf| && r.draws >= st.draws
    decreases 8 - k
  {
    if k == 8 then st
    else if !NeighborIn(W, H, x, y, k) then PlantFrom(src, W, H, x, y, rand, k + 1, st)
    else
      var nid := src[NeighborIdx(W, H, x, y, k)];
      var st1 := if nid == WATER then PlantWater(src, W, H, x, y, rand, st) else st;
      if nid == FIRE then st1.(buf := st1.buf[Idx(W, H, x, y) := FIRE], spread := true)
      else PlantFrom(src, W, H, x, y, rand, k + 1, st1)
  }

  /** The whole plant case: the loop, then the plant is re-placed only if
      it neither spread nor burned. */
  function PlantRule(src: seq<byte>, W: nat, H: nat, x: int, y: int, rand: Oracle, s: Scan): (r: Scan)
    requires Fits(src, s.buf, W, H) && InBounds(x, y, W, H)
    requires src[Idx(W, H, x, y)] == PLANT && s.buf[Idx(W, H, x, y)] == 0
    ensures |r.buf| == |s.buf| && r.particles == s.particles && r.draws >= s.draws
  {
    var i := Idx(W, H, x, y);
    var l := PlantFrom(src, W, H, x, y, rand, 0, Sprout(s.buf, s.draws, false));
    var buf := if !l.spread && l.buf[i] == 0 then l.buf[i := PLANT] else l.buf;
    Scan(buf, s.particles, l.draws)
  }

  // ----- fire -----

  /** How the fire's neighbour loop ended: it ran out of neighbours, met
      water, or met a neighbour that made it read `ELEMENTS.wood.id`. */
  datatype Blaze = Spreading(buf: seq<byte>) | Doused(buf: seq<byte>) | Undefined(buf: seq<byte>)

  /** The fire's neighbour loop from position k on. The guard
      `neighborId === plant.id || neighborId === wood.id || ...` reads
      `ELEMENTS.wood` whenever the neighbour is not plant. */
  function FireFrom(src: seq<byte>, W: nat, H: nat, x: int, y: int, k: nat, buf: seq<byte>): (r: Blaze)
    requires Fits(src, buf, W, H) && InBounds(x, y, W, H) && k <= 8
    ensures |r.buf| == |buf|
    decreases 8 - k
  {
    if k == 8 then Spreading(buf)
    else if !NeighborIn(W, H, x, y, k) then FireFrom(src, W, H, x, y, k + 1, buf)
    else
      var n := NeighborIdx(W, H, x, y, k);
      if src[n] == WATER then Doused(buf)
      else if src[n] != PLANT then Undefined(buf)
      else FireFrom(src, W, H, x, y, k + 1, if buf[n] == 0 then buf[n := FIRE] else buf)
  }

  /** The whole fire case. Dousing reads `ELEMENTS.steam.id` when the own
      cell is still empty; otherwise one draw decides between burning out
      and rising straight up (or staying). */
  function FireRule(src: seq<byte>, W: nat, H: nat, x: int, y: int, rand: Oracle, s: Scan): (r: Outcome)
    requires Fits(src, s.buf, W, H) && InBounds(x, y, W, H)
    requires src[Idx(W, H, x, y)] == FIRE && s.buf[Idx(W, H, x, y)] == 0
    ensures |r.scan.buf| == |s.buf| && r.scan.particles == s.particles && r.scan.draws >= s.draws
  {
    var i := Idx(W, H, x, y);
    match FireFrom(src, W, H, x, y, 0, s.buf)
    case Undefined(b) => Threw(s.(buf := b))
    case Doused(b) => if b[i] == 0 then Threw(s.(buf := b)) else Running(s.(buf := b))
    case Spreading(b) =>
      if rand(s.draws) > 0.96 then Running(Scan(b, s.particles, s.draws + 1))
      else if Free(src, b, W, H, x, y - 1) then Running(Scan(b[Idx(W, H, x, y - 1) := FIRE], s.particles, s.draws + 1))
      else Running(Scan(b[i := FIRE], s.particles, s.draws + 1))
  }

  // ----- one cell, and the scan -----

  /** One iteration of the inner loop at cell (x, y). */
  function CellStep(src: seq<byte>, W: nat, H: nat, x: int, y: int, rand: Oracle, s: Scan): (r: Outcome)
    requires Fits(src, s.buf, W, H) && InBounds(x, y, W, H)
    ensures |r.scan.buf| == |s.buf| && r.scan.draws >= s.draws
    ensures r.scan.particles == s.particles + (if src[Idx(W, H, x, y)] == 0 then 0 else 1)
  {
    var i := Idx(W, H, x, y);
    var id := src[i];
    if id == 0 then Running(s)
    else
      var s1 := s.(particles := s.particles + 1);
      if s1.buf[i] != 0 then Running(s1)
      else
        var key := Kind(id);
        if key == Some(Sand) then
          var m := SandMove(src, s1.buf, W, H, x, y, rand, s1.draws);
          Running(Scan(s1.buf[Idx(W, H, m.x, m.y) := id], s1.particles, m.draws))
        else if key == Some(Water) then
          var m := WaterMove(src, s1.buf, W, H, x, y, rand, s1.draws);
          Running(Scan(s1.buf[Idx(W, H, m.x, m.y) := id], s1.particles, m.draws))
        else if key == Some(Plant) then Running(PlantRule(src, W, H, x, y, rand, s1))
        else if key == Some(Fire) then FireRule(src, W, H, x, y, rand, s1)
        // stone, and (unreachably) soil and wood, and every id without a kind
        else Running(s1.(buf := s1.buf[i := id]))
  }

  /** The scan's start: `buffer.fill(0)`, no particles, no draws. */
  function Start(W: nat, H: nat): Scan
  {
    Scan(CreateGrid(W, H), 0, 0)
  }

  /** The scan's state just before it visits cell (x, y), where x == W
      stands for the end of row y. The scan starts at (0, H - 1); the cell
      before (0, y) is the end of row y + 1. A throw ends the scan, so
      every later state is the same `Threw`. */
  function StateAt(src: seq<byte>, W: nat, H: nat, rand: Oracle, y: int, x: int): (r: Outcome)
    requires |src| == W * H && 0 <= y < H && 0 <= x <= W
    ensures |r.scan.buf| == W * H
    decreases H - y, x
  {
    if x == 0 then
      if y == H - 1 then Running(Start(W, H)) else StateAt(src, W, H, rand, y + 1, W)
    else
      match StateAt(src, W, H, rand, y, x - 1)
      case Running(s) => CellStep(src, W, H, x - 1, y, rand, s)
      case Threw(s) => Threw(s)
  }

  /** The state after the last cell, (W - 1, 0). */
  function Final(src: seq<byte>, W: nat, H: nat, rand: Oracle): (r: Outcome)
    requires |src| == W * H
    ensures |r.scan.buf| == W * H
  {
    if H == 0 then Running(Start(W, H)) else StateAt(src, W, H, rand, 0, W)
  }

  datatype StepResult = Stepped(next: seq<byte>, particles: nat) | Aborted(partial: seq<byte>)

  /** `stepGrid`: what the destination buffer holds and what it returns.
      The old contents of the buffer play no part. */
  function Step(src: seq<byte>, W: nat, H: nat, rand: Oracle): (r: StepResult)
    requires |src| == W * H
    ensures r.Stepped? ==> |r.next| == W * H
  {
    match Final(src, W, H, rand)
    case Running(s) => Stepped(s.buf, s.particles)
    case Threw(s) => Aborted(s.buf)
  }
}
