/** What one tick guarantees (src/simulation/engine.ts:57-235), proved about
    the functions of module StepSpec for every grid and every sequence of
    random draws. */
module StepLaws {
  import opened Types
  import opened Cells
  import opened StepSpec

  // ----- what each rule may write -----

  /** A water neighbour only ever plants into a cell empty in both grids,
      and `spread` records whether it did. */
  lemma PlantWaterWrites(src: seq<byte>, W: nat, H: nat, x: int, y: int, rand: Oracle, st: Sprout)
    requires Fits(src, st.buf, W, H) && InBounds(x, y, W, H)
    ensures var r := PlantWater(src, W, H, x, y, rand, st);
            (forall j :: 0 <= j < |st.buf| && r.buf[j] != st.buf[j] ==> st.buf[j] == 0 && src[j] == 0 && r.buf[j] == PLANT)
            && (r.spread <==> st.spread || r.buf != st.buf)
  {
    if rand(st.draws) > 0.7 {
      var tx := x + Side(rand(st.draws + 1));
      var ty := y + Side(rand(st.draws + 2));
      if Free(src, st.buf, W, H, tx, ty) {
        var t := Idx(W, H, tx, ty);
        assert st.buf[t := PLANT][t] != st.buf[t];
      }
    }
  }

  /** The plant loop plants only into cells empty in both grids, and it
      changes the plant's own cell only by setting it alight. */
  lemma {:induction false} PlantFromWrites(src: seq<byte>, W: nat, H: nat, x: int, y: int, rand: Oracle, k: nat, st: Sprout)
    requires Fits(src, st.buf, W, H) && InBounds(x, y, W, H) && k <= 8
    requires src[Idx(W, H, x, y)] != 0
    ensures var r := PlantFrom(src, W, H, x, y, rand, k, st);
            (forall j :: 0 <= j < |st.buf| && j != Idx(W, H, x, y) && r.buf[j] != st.buf[j] ==>
               st.buf[j] == 0 && src[j] == 0 && r.buf[j] == PLANT)
            && (r.buf[Idx(W, H, x, y)] == st.buf[Idx(W, H, x, y)] || r.buf[Idx(W, H, x, y)] == FIRE)
    decreases 8 - k
  {
    if k < 8 {
      if !NeighborIn(W, H, x, y, k) {
        PlantFromWrites(src, W, H, x, y, rand, k + 1, st);
      } else {
        var nid := src[NeighborIdx(W, H, x, y, k)];
        var st1 := if nid == WATER then PlantWater(src, W, H, x, y, rand, st) else st;
        if nid == WATER {
          PlantWaterWrites(src, W, H, x, y, rand, st);
        }
        if nid != FIRE {
          PlantFromWrites(src, W, H, x, y, rand, k + 1, st1);
        }
      }
    }
  }

  lemma PlantRuleWrites(src: seq<byte>, W: nat, H: nat, x: int, y: int, rand: Oracle, s: Scan)
    requires Fits(src, s.buf, W, H) && InBounds(x, y, W, H)
    requires src[Idx(W, H, x, y)] == PLANT && s.buf[Idx(W, H, x, y)] == 0
    ensures var r := PlantRule(src, W, H, x, y, rand, s);
            (forall j :: 0 <= j < |s.buf| && j != Idx(W, H, x, y) && r.buf[j] != s.buf[j] ==>
               s.buf[j] == 0 && src[j] == 0 && r.buf[j] == PLANT)
            && r.buf[Idx(W, H, x, y)] in {0, PLANT, FIRE}
  {
    PlantFromWrites(src, W, H, x, y, rand, 0, Sprout(s.buf, s.draws, false));
  }

  /** The fire loop writes fire only into empty cells of the buffer that
      hold plant in the source. */
  lemma {:induction false} FireFromWrites(src: seq<byte>, W: nat, H: nat, x: int, y: int, k: nat, buf: seq<byte>)
    requires Fits(src, buf, W, H) && InBounds(x, y, W, H) && k <= 8
    ensures var r := FireFrom(src, W, H, x, y, k, buf);
            forall j :: 0 <= j < |buf| && r.buf[j] != buf[j] ==> buf[j] == 0 && src[j] == PLANT && r.buf[j] == FIRE
    decreases 8 - k
  {
    if k < 8 {
      if !NeighborIn(W, H, x, y, k) {
        FireFromWrites(src, W, H, x, y, k + 1, buf);
      } else {
        var n := NeighborIdx(W, H, x, y, k);
        if src[n] == PLANT {
          FireFromWrites(src, W, H, x, y, k + 1, if buf[n] == 0 then buf[n := FIRE] else buf);
        }
      }
    }
  }

  lemma FireRuleWrites(src: seq<byte>, W: nat, H: nat, x: int, y: int, rand: Oracle, s: Scan)
    requires Fits(src, s.buf, W, H) && InBounds(x, y, W, H)
    requires src[Idx(W, H, x, y)] == FIRE && s.buf[Idx(W, H, x, y)] == 0
    ensures var r := FireRule(src, W, H, x, y, rand, s);
            forall j :: 0 <= j < |s.buf| && r.scan.buf[j] != s.buf[j] ==>
              s.buf[j] == 0 && r.scan.buf[j] == FIRE && (src[j] == 0 || src[j] == PLANT || j == Idx(W, H, x, y))
  {
    FireFromWrites(src, W, H, x, y, 0, s.buf);
  }

  /** Every write of a visit goes into a cell still empty in the buffer;
      away from the visited cell it goes into a cell empty in the source
      or sets a plant alight; and only an unwritten fire cell can throw. */
  lemma CellStepWrites(src: seq<byte>, W: nat, H: nat, x: int, y: int, rand: Oracle, s: Scan)
    requires Fits(src, s.buf, W, H) && InBounds(x, y, W, H)
    ensures var r := CellStep(src, W, H, x, y, rand, s);
            (forall j :: 0 <= j < |s.buf| && r.scan.buf[j] != s.buf[j] ==> s.buf[j] == 0)
            && (forall j :: 0 <= j < |s.buf| && j != Idx(W, H, x, y) && r.scan.buf[j] != s.buf[j] ==>
                  src[j] == 0 || (src[j] == PLANT && r.scan.buf[j] == FIRE))
            && (r.Threw? ==> src[Idx(W, H, x, y)] == FIRE && s.buf[Idx(W, H, x, y)] == 0)
  {
    var i := Idx(W, H, x, y);
    var id := src[i];
    if id != 0 && s.buf[i] == 0 {
      var s1 := s.(particles := s.particles + 1);
      if Kind(id) == Some(Plant) {
        PlantRuleWrites(src, W, H, x, y, rand, s1);
      } else if Kind(id) == Some(Fire) {
        FireRuleWrites(src, W, H, x, y, rand, s1);
      }
    }
  }

  // ----- where the scan stands -----

  /** Index j is not yet visited when the scan stands before cell (x, y):
      every row above y, and the cells of row y from x on. */
  ghost predicate Pending(W: nat, y: int, x: int, j: int)
  {
    0 <= j && (j < y * W || (y * W + x <= j < y * W + W))
  }

  /** A cell the scan has not reached yet is empty in the buffer, unless it
      is a plant that a fire further down has already set alight. */
  ghost predicate Clean(src: seq<byte>, buf: seq<byte>, W: nat, y: int, x: int)
  {
    forall j :: 0 <= j < |src| && j < |buf| && Pending(W, y, x, j) && src[j] != 0 && buf[j] != 0 ==>
      src[j] == PLANT && buf[j] == FIRE
  }

  /** Nothing written so far is ever overwritten. */
  ghost predicate Extends(a: seq<byte>, b: seq<byte>)
  {
    |a| == |b| && forall j :: 0 <= j < |a| && a[j] != 0 ==> b[j] == a[j]
  }

  /** (y2, x2) comes at or after (y1, x1) in the scan. */
  predicate AtOrAfter(y1: int, x1: int, y2: int, x2: int)
  {
    y2 < y1 || (y2 == y1 && x1 <= x2)
  }

  lemma RowFacts(W: nat, H: nat, y: int)
    requires 0 <= y < H
    ensures 0 <= y * W && y * W + W <= W * H
  {
    MulMonotone(0, y, W);
    MulMonotone(y + 1, H, W);
  }

  /** Visiting a cell keeps the scan clean one cell further on. */
  lemma CleanAdvances(src: seq<byte>, W: nat, H: nat, x: int, y: int, rand: Oracle, s: Scan)
    requires Fits(src, s.buf, W, H) && InBounds(x, y, W, H)
    requires Clean(src, s.buf, W, y, x)
    ensures Clean(src, CellStep(src, W, H, x, y, rand, s).scan.buf, W, y, x + 1)
  {
    CellStepWrites(src, W, H, x, y, rand, s);
  }

  /** Every state of the scan is clean. */
  lemma {:induction false} StateIsClean(src: seq<byte>, W: nat, H: nat, rand: Oracle, y: int, x: int)
    requires |src| == W * H && 0 <= y < H && 0 <= x <= W
    ensures Clean(src, StateAt(src, W, H, rand, y, x).scan.buf, W, y, x)
    decreases H - y, x
  {
    if x == 0 {
      if y < H - 1 {
        StateIsClean(src, W, H, rand, y + 1, W);
        assert (y + 1) * W == y * W + W;
      }
    } else {
      StateIsClean(src, W, H, rand, y, x - 1);
      match StateAt(src, W, H, rand, y, x - 1)
      case Running(s) => CleanAdvances(src, W, H, x - 1, y, rand, s);
      case Threw(s) =>
    }
  }

  lemma ExtendsTrans(a: seq<byte>, b: seq<byte>, c: seq<byte>)
    requires Extends(a, b) && Extends(b, c)
    ensures Extends(a, c)
  {
  }

  lemma OneCellGrows(src: seq<byte>, W: nat, H: nat, rand: Oracle, y: int, x: int, a: Outcome, b: Outcome)
    requires |src| == W * H && 0 <= y < H && 0 < x <= W
    requires a == StateAt(src, W, H, rand, y, x - 1) && b == StateAt(src, W, H, rand, y, x)
    ensures Extends(a.scan.buf, b.scan.buf)
    ensures b.Running? ==> a.Running?
  {
    if a.Running? {
      CellExtends(src, W, H, x - 1, y, rand, a.scan);
    }
  }

  lemma CellExtends(src: seq<byte>, W: nat, H: nat, x: int, y: int, rand: Oracle, s: Scan)
    requires Fits(src, s.buf, W, H) && InBounds(x, y, W, H)
    ensures Extends(s.buf, CellStep(src, W, H, x, y, rand, s).scan.buf)
  {
    CellStepWrites(src, W, H, x, y, rand, s);
  }

  /** Later states extend earlier ones, and a scan running at a later cell
      was running at every earlier one. */
  lemma {:induction false} StateGrows(src: seq<byte>, W: nat, H: nat, rand: Oracle, y1: int, x1: int, y2: int, x2: int)
    requires |src| == W * H && 0 <= y1 < H && 0 <= x1 <= W && 0 <= y2 < H && 0 <= x2 <= W
    requires AtOrAfter(y1, x1, y2, x2)
    ensures Extends(StateAt(src, W, H, rand, y1, x1).scan.buf, StateAt(src, W, H, rand, y2, x2).scan.buf)
    ensures StateAt(src, W, H, rand, y2, x2).Running? ==> StateAt(src, W, H, rand, y1, x1).Running?
    decreases H - y2, x2
  {
    if y1 == y2 && x1 == x2 {
    } else if x2 == 0 {
      StateGrows(src, W, H, rand, y1, x1, y2 + 1, W);
    } else {
      StateGrows(src, W, H, rand, y1, x1, y2, x2 - 1);
      OneCellGrows(src, W, H, rand, y2, x2, StateAt(src, W, H, rand, y2, x2 - 1), StateAt(src, W, H, rand, y2, x2));
      ExtendsTrans(StateAt(src, W, H, rand, y1, x1).scan.buf, StateAt(src, W, H, rand, y2, x2 - 1).scan.buf,
                   StateAt(src, W, H, rand, y2, x2).scan.buf);
    }
  }

  /** Once thrown, the scan stays thrown with the same state. */
  lemma {:induction false} ThrowIsFinal(src: seq<byte>, W: nat, H: nat, rand: Oracle, y1: int, x1: int, y2: int, x2: int)
    requires |src| == W * H && 0 <= y1 < H && 0 <= x1 <= W && 0 <= y2 < H && 0 <= x2 <= W
    requires AtOrAfter(y1, x1, y2, x2) && StateAt(src, W, H, rand, y1, x1).Threw?
    ensures StateAt(src, W, H, rand, y2, x2) == StateAt(src, W, H, rand, y1, x1)
    decreases H - y2, x2
  {
    if y1 == y2 && x1 == x2 {
    } else if x2 == 0 {
      ThrowIsFinal(src, W, H, rand, y1, x1, y2 + 1, W);
    } else {
      ThrowIsFinal(src, W, H, rand, y1, x1, y2, x2 - 1);
    }
  }

  /** The final state extends every state, and a step that completes ran
      through every cell. */
  lemma FinalGrows(src: seq<byte>, W: nat, H: nat, rand: Oracle, y: int, x: int)
    requires |src| == W * H && 0 <= y < H && 0 <= x <= W
    ensures Extends(StateAt(src, W, H, rand, y, x).scan.buf, Final(src, W, H, rand).scan.buf)
    ensures Final(src, W, H, rand).Running? ==> StateAt(src, W, H, rand, y, x).Running?
  {
    StateGrows(src, W, H, rand, y, x, 0, W);
  }

  // ----- the particle census -----

  /** The occupied cells among those visited before (x, y). */
  ghost function Visited(src: seq<byte>, W: nat, H: nat, y: int, x: int): int
    requires |src| == W * H && 0 <= y < H && 0 <= x <= W
  {
    RowFacts(W, H, y);
    CountParticles(src) - CountParticles(src[..y * W + W]) + CountParticles(src[..y * W + x]) - CountParticles(src[..y * W])
  }

  lemma {:induction false} StateParticles(src: seq<byte>, W: nat, H: nat, rand: Oracle, y: int, x: int)
    requires |src| == W * H && 0 <= y < H && 0 <= x <= W
    ensures StateAt(src, W, H, rand, y, x).Running? ==>
              StateAt(src, W, H, rand, y, x).scan.particles == Visited(src, W, H, y, x)
    decreases H - y, x
  {
    RowFacts(W, H, y);
    if x == 0 {
      if y < H - 1 {
        StateParticles(src, W, H, rand, y + 1, W);
        RowFacts(W, H, y + 1);
        assert (y + 1) * W == y * W + W;
        assert Visited(src, W, H, y + 1, W) == Visited(src, W, H, y, 0);
      } else {
        assert src[..y * W + W] == src;
      }
    } else {
      StateParticles(src, W, H, rand, y, x - 1);
      VisitedStep(src, W, H, y, x);
    }
  }

  lemma VisitedStep(src: seq<byte>, W: nat, H: nat, y: int, x: int)
    requires |src| == W * H && 0 <= y < H && 0 < x <= W
    ensures Visited(src, W, H, y, x) == Visited(src, W, H, y, x - 1) + (if src[Idx(W, H, x - 1, y)] == 0 then 0 else 1)
  {
    RowFacts(W, H, y);
    var b := y * W;
    var i := Idx(W, H, x - 1, y);
    assert i == b + x - 1;
    assert CountParticles(src[..b + x]) == CountParticles(src[..i]) + (if src[i] == 0 then 0 else 1) by {
      PrefixCount(src, i);
    }
  }

  /** `stepGrid` returns the number of occupied cells of its source, which
      is `countParticles(src)`. */
  lemma StepCountsParticles(src: seq<byte>, W: nat, H: nat, rand: Oracle)
    requires |src| == W * H
    ensures Step(src, W, H, rand).Stepped? ==> Step(src, W, H, rand).particles == CountParticles(src)
  {
    if H > 0 {
      StateParticles(src, W, H, rand, 0, W);
      assert src[..0] == [];
    }
  }

  // ----- conservation of sand, water and stone -----

  /** The cells holding `c` among those visited before (x, y). */
  ghost function VisitedOf(src: seq<byte>, W: nat, H: nat, y: int, x: int, c: byte): int
    requires |src| == W * H && 0 <= y < H && 0 <= x <= W
  {
    RowFacts(W, H, y);
    CountOf(src, c) - CountOf(src[..y * W + W], c) + CountOf(src[..y * W + x], c) - CountOf(src[..y * W], c)
  }

  lemma VisitedOfStep(src: seq<byte>, W: nat, H: nat, y: int, x: int, c: byte)
    requires |src| == W * H && 0 <= y < H && 0 < x <= W
    ensures VisitedOf(src, W, H, y, x, c) == VisitedOf(src, W, H, y, x - 1, c) + (if src[Idx(W, H, x - 1, y)] == c then 1 else 0)
  {
    RowFacts(W, H, y);
    var b := y * W;
    PrefixCountOf(src, b + x - 1, c);
  }

  lemma {:induction false} NoneInEmptyGrid(g: seq<byte>, c: byte)
    requires c != 0 && forall j :: 0 <= j < |g| ==> g[j] == 0
    ensures CountOf(g, c) == 0
  {
    if |g| > 0 {
      NoneInEmptyGrid(g[..|g| - 1], c);
    }
  }

  /** One visited cell adds exactly its own `c`, provided a cell that is
      not empty in both grids can only be a plant already set alight. */
  lemma CellCountOf(src: seq<byte>, W: nat, H: nat, x: int, y: int, rand: Oracle, s: Scan, c: byte)
    requires Fits(src, s.buf, W, H) && InBounds(x, y, W, H)
    requires c != 0 && c != PLANT && c != FIRE
    requires src[Idx(W, H, x, y)] == 0 || src[Idx(W, H, x, y)] == PLANT || s.buf[Idx(W, H, x, y)] == 0
    ensures CountOf(CellStep(src, W, H, x, y, rand, s).scan.buf, c)
         == CountOf(s.buf, c) + (if src[Idx(W, H, x, y)] == c then 1 else 0)
  {
    var i := Idx(W, H, x, y);
    var id := src[i];
    var r := CellStep(src, W, H, x, y, rand, s);
    if id != 0 && s.buf[i] == 0 {
      var s1 := s.(particles := s.particles + 1);
      var key := Kind(id);
      if key == Some(Sand) {
        var m := SandMove(src, s1.buf, W, H, x, y, rand, s1.draws);
        CountOfFill(s.buf, Idx(W, H, m.x, m.y), id, c);
      } else if key == Some(Water) {
        var m := WaterMove(src, s1.buf, W, H, x, y, rand, s1.draws);
        CountOfFill(s.buf, Idx(W, H, m.x, m.y), id, c);
      } else if key == Some(Plant) {
        PlantRuleWrites(src, W, H, x, y, rand, s1);
        CountOfUnchanged(s.buf, r.scan.buf, c);
      } else if key == Some(Fire) {
        FireRuleWrites(src, W, H, x, y, rand, s1);
        CountOfUnchanged(s.buf, r.scan.buf, c);
      } else {
        CountOfFill(s.buf, i, id, c);
      }
    }
  }

  lemma {:induction false} StateCountOf(src: seq<byte>, W: nat, H: nat, rand: Oracle, y: int, x: int, c: byte)
    requires |src| == W * H && 0 <= y < H && 0 <= x <= W
    requires c != 0 && c != PLANT && c != FIRE
    ensures StateAt(src, W, H, rand, y, x).Running? ==>
              CountOf(StateAt(src, W, H, rand, y, x).scan.buf, c) == VisitedOf(src, W, H, y, x, c)
    decreases H - y, x
  {
    if x == 0 {
      if y < H - 1 {
        StateCountOf(src, W, H, rand, y + 1, W, c);
        assert VisitedOf(src, W, H, y + 1, W, c) == VisitedOf(src, W, H, y, 0, c) by {
          RowFacts(W, H, y);
          RowFacts(W, H, y + 1);
          assert (y + 1) * W == y * W + W;
        }
      } else {
        assert VisitedOf(src, W, H, y, 0, c) == 0 by {
          RowFacts(W, H, y);
          assert src[..y * W + W] == src;
        }
        NoneInEmptyGrid(Start(W, H).buf, c);
      }
    } else {
      StateCountOf(src, W, H, rand, y, x - 1, c);
      StateIsClean(src, W, H, rand, y, x - 1);
      OneCellCountOf(src, W, H, rand, y, x, StateAt(src, W, H, rand, y, x - 1), StateAt(src, W, H, rand, y, x), c);
    }
  }

  lemma OneCellCountOf(src: seq<byte>, W: nat, H: nat, rand: Oracle, y: int, x: int, a: Outcome, b: Outcome, c: byte)
    requires |src| == W * H && 0 <= y < H && 0 < x <= W
    requires c != 0 && c != PLANT && c != FIRE
    requires a == StateAt(src, W, H, rand, y, x - 1) && b == StateAt(src, W, H, rand, y, x)
    requires Clean(src, a.scan.buf, W, y, x - 1)
    requires a.Running? ==> CountOf(a.scan.buf, c) == VisitedOf(src, W, H, y, x - 1, c)
    ensures b.Running? ==> CountOf(b.scan.buf, c) == VisitedOf(src, W, H, y, x, c)
  {
    if a.Running? {
      CountOfAdvances(src, W, H, rand, y, x, a.scan, c);
    }
  }

  lemma CountOfAdvances(src: seq<byte>, W: nat, H: nat, rand: Oracle, y: int, x: int, s: Scan, c: byte)
    requires Fits(src, s.buf, W, H) && 0 <= y < H && 0 < x <= W
    requires c != 0 && c != PLANT && c != FIRE
    requires Clean(src, s.buf, W, y, x - 1)
    requires CountOf(s.buf, c) == VisitedOf(src, W, H, y, x - 1, c)
    ensures CountOf(CellStep(src, W, H, x - 1, y, rand, s).scan.buf, c) == VisitedOf(src, W, H, y, x, c)
  {
    var i := Idx(W, H, x - 1, y);
    var here := if src[i] == c then 1 else 0;
    assert CountOf(CellStep(src, W, H, x - 1, y, rand, s).scan.buf, c) == CountOf(s.buf, c) + here by {
      assert Pending(W, y, x - 1, i);
      CellCountOf(src, W, H, x - 1, y, rand, s, c);
    }
    assert VisitedOf(src, W, H, y, x, c) == VisitedOf(src, W, H, y, x - 1, c) + here by {
      VisitedOfStep(src, W, H, y, x, c);
    }
  }

  /** A completed step keeps the number of cells holding any id other than
      empty, plant and fire; in particular sand and water are conserved. */
  lemma StepPreservesCount(src: seq<byte>, W: nat, H: nat, rand: Oracle, c: byte)
    requires |src| == W * H && c != 0 && c != PLANT && c != FIRE
    ensures Step(src, W, H, rand).Stepped? ==> CountOf(Step(src, W, H, rand).next, c) == CountOf(src, c)
  {
    if H > 0 {
      StateCountOf(src, W, H, rand, 0, W, c);
      assert src[..0] == [];
    } else {
      NoneInEmptyGrid(src, c);
      NoneInEmptyGrid(Start(W, H).buf, c);
    }
  }

  lemma SandAndWaterConserved(src: seq<byte>, W: nat, H: nat, rand: Oracle)
    requires |src| == W * H && Step(src, W, H, rand).Stepped?
    ensures CountOf(Step(src, W, H, rand).next, SAND) == CountOf(src, SAND)
    ensures CountOf(Step(src, W, H, rand).next, WATER) == CountOf(src, WATER)
  {
    StepPreservesCount(src, W, H, rand, SAND);
    StepPreservesCount(src, W, H, rand, WATER);
  }

  // ----- the fate of single cells -----

  /** In a completed step every cell was visited by a clean scan, and what
      that visit wrote survives into the result. */
  lemma Visit(src: seq<byte>, W: nat, H: nat, rand: Oracle, x: int, y: int) returns (s: Scan)
    requires |src| == W * H && InBounds(x, y, W, H) && Step(src, W, H, rand).Stepped?
    ensures StateAt(src, W, H, rand, y, x) == Running(s)
    ensures |s.buf| == W * H && Clean(src, s.buf, W, y, x)
    ensures CellStep(src, W, H, x, y, rand, s).Running?
    ensures Extends(CellStep(src, W, H, x, y, rand, s).scan.buf, Step(src, W, H, rand).next)
    ensures src[Idx(W, H, x, y)] != 0 && src[Idx(W, H, x, y)] != PLANT ==> s.buf[Idx(W, H, x, y)] == 0
  {
    FinalGrows(src, W, H, rand, y, x + 1);
    StateGrows(src, W, H, rand, y, x, y, x + 1);
    s := StateAt(src, W, H, rand, y, x).scan;
    assert StateAt(src, W, H, rand, y, x + 1) == CellStep(src, W, H, x, y, rand, s);
    StateIsClean(src, W, H, rand, y, x);
    assert Pending(W, y, x, Idx(W, H, x, y));
  }

  /** Stone, and any id without a kind, stays where it is. */
  lemma StaticStays(src: seq<byte>, W: nat, H: nat, rand: Oracle, x: int, y: int)
    requires |src| == W * H && InBounds(x, y, W, H) && Step(src, W, H, rand).Stepped?
    requires src[Idx(W, H, x, y)] == STONE || src[Idx(W, H, x, y)] > FIRE
    ensures Step(src, W, H, rand).next[Idx(W, H, x, y)] == src[Idx(W, H, x, y)]
  {
    var s := Visit(src, W, H, rand, x, y);
  }

  /** A grain of sand ends straight below, diagonally below, or where it
      was, and only ever moves into a cell that was empty. */
  lemma SandLands(src: seq<byte>, W: nat, H: nat, rand: Oracle, x: int, y: int) returns (tx: int, ty: int)
    requires |src| == W * H && InBounds(x, y, W, H) && Step(src, W, H, rand).Stepped?
    requires src[Idx(W, H, x, y)] == SAND
    ensures InBounds(tx, ty, W, H) && Step(src, W, H, rand).next[Idx(W, H, tx, ty)] == SAND
    ensures (tx == x && ty == y) || (ty == y + 1 && x - 1 <= tx <= x + 1 && src[Idx(W, H, tx, ty)] == 0)
  {
    var s := Visit(src, W, H, rand, x, y);
    var m := SandMove(src, s.buf, W, H, x, y, rand, s.draws);
    tx, ty := m.x, m.y;
  }

  /** A drop of water ends straight below, one or two cells to either side,
      or where it was, and only ever moves into a cell that was empty. */
  lemma WaterLands(src: seq<byte>, W: nat, H: nat, rand: Oracle, x: int, y: int) returns (tx: int, ty: int)
    requires |src| == W * H && InBounds(x, y, W, H) && Step(src, W, H, rand).Stepped?
    requires src[Idx(W, H, x, y)] == WATER
    ensures InBounds(tx, ty, W, H) && Step(src, W, H, rand).next[Idx(W, H, tx, ty)] == WATER
    ensures (tx == x && ty == y)
         || (src[Idx(W, H, tx, ty)] == 0 && ((tx == x && ty == y + 1) || (ty == y && 1 <= (if tx < x then x - tx else tx - x) <= 2)))
  {
    var s := Visit(src, W, H, rand, x, y);
    var m := WaterMove(src, s.buf, W, H, x, y, rand, s.draws);
    tx, ty := m.x, m.y;
  }

  /** The `buffer[idx] !== 0` skip only ever passes over a plant that a
      fire below or beside it has already set alight. */
  lemma SkipOnlyIgnited(src: seq<byte>, W: nat, H: nat, rand: Oracle, x: int, y: int)
    requires |src| == W * H && InBounds(x, y, W, H) && Step(src, W, H, rand).Stepped?
    requires src[Idx(W, H, x, y)] != 0
    ensures var s := StateAt(src, W, H, rand, y, x).scan;
            s.buf[Idx(W, H, x, y)] != 0 ==> src[Idx(W, H, x, y)] == PLANT && s.buf[Idx(W, H, x, y)] == FIRE
  {
    var s := Visit(src, W, H, rand, x, y);
  }

  // ----- fire -----

  /** The fire loop runs to its end exactly when every in-bounds neighbour
      from position k on is plant. */
  lemma {:induction false} FireFromSpreads(src: seq<byte>, W: nat, H: nat, x: int, y: int, k: nat, buf: seq<byte>)
    requires Fits(src, buf, W, H) && InBounds(x, y, W, H) && k <= 8
    ensures FireFrom(src, W, H, x, y, k, buf).Spreading? <==> PlantsFrom(src, W, H, x, y, k)
    decreases 8 - k
  {
    if k < 8 {
      if !NeighborIn(W, H, x, y, k) {
        FireFromSpreads(src, W, H, x, y, k + 1, buf);
      } else {
        var n := NeighborIdx(W, H, x, y, k);
        if src[n] == PLANT {
          FireFromSpreads(src, W, H, x, y, k + 1, if buf[n] == 0 then buf[n := FIRE] else buf);
        } else {
          assert !NeighborIs(src, W, H, x, y, k, PLANT);
        }
      }
    }
  }

  /** A fire cell lets the scan go on exactly when all its in-bounds
      neighbours are plant: a water neighbour leads to `ELEMENTS.steam.id`,
      any other neighbour to `ELEMENTS.wood.id`, and neither record exists. */
  lemma FireRuleRuns(src: seq<byte>, W: nat, H: nat, x: int, y: int, rand: Oracle, s: Scan)
    requires Fits(src, s.buf, W, H) && InBounds(x, y, W, H)
    requires src[Idx(W, H, x, y)] == FIRE && s.buf[Idx(W, H, x, y)] == 0
    ensures FireRule(src, W, H, x, y, rand, s).Running? <==> PlantsFrom(src, W, H, x, y, 0)
  {
    FireFromSpreads(src, W, H, x, y, 0, s.buf);
    FireFromWrites(src, W, H, x, y, 0, s.buf);
  }

  /** A fire cell that some neighbour keeps from burning freely. */
  ghost predicate ExposedFire(src: seq<byte>, W: nat, H: nat, x: int, y: int)
    requires |src| == W * H
  {
    InBounds(x, y, W, H) && src[Idx(W, H, x, y)] == FIRE && !PlantsFrom(src, W, H, x, y, 0)
  }

  /** Visiting a cell throws exactly when it is an exposed fire that
      nothing has overwritten yet. */
  lemma CellThrows(src: seq<byte>, W: nat, H: nat, x: int, y: int, rand: Oracle, s: Scan)
    requires Fits(src, s.buf, W, H) && InBounds(x, y, W, H)
    ensures CellStep(src, W, H, x, y, rand, s).Threw? <==> ExposedFire(src, W, H, x, y) && s.buf[Idx(W, H, x, y)] == 0
  {
    var i := Idx(W, H, x, y);
    CellStepWrites(src, W, H, x, y, rand, s);
    if src[i] == FIRE && s.buf[i] == 0 {
      FireRuleRuns(src, W, H, x, y, rand, s.(particles := s.particles + 1));
    }
  }

  lemma FirstThrow(src: seq<byte>, W: nat, H: nat, rand: Oracle, y: int, x: int)
    requires |src| == W * H && 0 <= y < H && 0 < x <= W
    requires StateAt(src, W, H, rand, y, x - 1).Running? && StateAt(src, W, H, rand, y, x).Threw?
    ensures ExposedFire(src, W, H, x - 1, y)
  {
    CellThrows(src, W, H, x - 1, y, rand, StateAt(src, W, H, rand, y, x - 1).scan);
  }

  lemma {:induction false} ThrowNeedsExposedFire(src: seq<byte>, W: nat, H: nat, rand: Oracle, y: int, x: int)
    requires |src| == W * H && 0 <= y < H && 0 <= x <= W
    requires StateAt(src, W, H, rand, y, x).Threw?
    ensures exists fx, fy :: ExposedFire(src, W, H, fx, fy)
    decreases H - y, x
  {
    if x == 0 {
      ThrowNeedsExposedFire(src, W, H, rand, y + 1, W);
    } else if StateAt(src, W, H, rand, y, x - 1).Threw? {
      ThrowNeedsExposedFire(src, W, H, rand, y, x - 1);
    } else {
      FirstThrow(src, W, H, rand, y, x);
    }
  }

  /** An exposed fire anywhere stops the step. */
  lemma ExposedFireAborts(src: seq<byte>, W: nat, H: nat, rand: Oracle, x: int, y: int)
    requires |src| == W * H && ExposedFire(src, W, H, x, y)
    ensures Step(src, W, H, rand).Aborted?
  {
    if Step(src, W, H, rand).Stepped? {
      var s := Visit(src, W, H, rand, x, y);
      CellThrows(src, W, H, x, y, rand, s);
      assert false;
    }
  }

  /** `stepGrid` throws exactly when some fire has an in-bounds neighbour
      that is not plant. */
  lemma StepAbortsIffExposedFire(src: seq<byte>, W: nat, H: nat, rand: Oracle)
    requires |src| == W * H
    ensures Step(src, W, H, rand).Aborted? <==> exists x, y :: ExposedFire(src, W, H, x, y)
  {
    if Step(src, W, H, rand).Aborted? {
      ThrowNeedsExposedFire(src, W, H, rand, 0, W);
    } else if exists x, y :: ExposedFire(src, W, H, x, y) {
      var x, y :| ExposedFire(src, W, H, x, y);
      ExposedFireAborts(src, W, H, rand, x, y);
    }
  }

  // ----- plant -----

  /** The plant loop from position k on: the plant's own cell turns to fire
      exactly when a fire neighbour is still ahead; otherwise it stays
      empty, `spread` records whether a new plant appeared, and with no
      water ahead either nothing happens at all. */
  lemma {:induction false} PlantLoop(src: seq<byte>, W: nat, H: nat, x: int, y: int, rand: Oracle, k: nat, st: Sprout)
    requires Fits(src, st.buf, W, H) && InBounds(x, y, W, H) && k <= 8
    requires src[Idx(W, H, x, y)] != 0 && st.buf[Idx(W, H, x, y)] == 0
    ensures var r := PlantFrom(src, W, H, x, y, rand, k, st);
            (r.buf[Idx(W, H, x, y)] == FIRE <==> FireAhead(src, W, H, x, y, k))
            && (!FireAhead(src, W, H, x, y, k) ==>
                  r.buf[Idx(W, H, x, y)] == 0 && (r.spread <==> st.spread || r.buf != st.buf))
            && (!FireAhead(src, W, H, x, y, k) && !WaterAhead(src, W, H, x, y, k) ==> r == st)
    decreases 8 - k
  {
    var i := Idx(W, H, x, y);
    if k == 8 {
    } else if !NeighborIn(W, H, x, y, k) {
      PlantLoop(src, W, H, x, y, rand, k + 1, st);
      assert FireAhead(src, W, H, x, y, k) <==> FireAhead(src, W, H, x, y, k + 1);
      assert WaterAhead(src, W, H, x, y, k) <==> WaterAhead(src, W, H, x, y, k + 1);
    } else {
      var nid := src[NeighborIdx(W, H, x, y, k)];
      if nid == FIRE {
        assert NeighborIs(src, W, H, x, y, k, FIRE);
      } else {
        assert FireAhead(src, W, H, x, y, k) <==> FireAhead(src, W, H, x, y, k + 1);
        if nid == WATER {
          var st1 := PlantWater(src, W, H, x, y, rand, st);
          PlantWaterWrites(src, W, H, x, y, rand, st);
          assert NeighborIs(src, W, H, x, y, k, WATER);
          PlantLoop(src, W, H, x, y, rand, k + 1, st1);
          PlantFromWrites(src, W, H, x, y, rand, k + 1, st1);
          var r := PlantFrom(src, W, H, x, y, rand, k + 1, st1);
          if !FireAhead(src, W, H, x, y, k) && st1.buf != st.buf {
            var j :| 0 <= j < |st.buf| && st1.buf[j] != st.buf[j];
            assert r.buf[j] == st1.buf[j];
          }
        } else {
          PlantLoop(src, W, H, x, y, rand, k + 1, st);
          assert WaterAhead(src, W, H, x, y, k) <==> WaterAhead(src, W, H, x, y, k + 1);
        }
      }
    }
  }

  /** The plant case at one cell: it burns when a neighbour is fire;
      otherwise it is put back exactly when no new plant appeared, and with
      neither fire nor water around it is simply copied. */
  lemma PlantFate(src: seq<byte>, W: nat, H: nat, x: int, y: int, rand: Oracle, s: Scan)
    requires Fits(src, s.buf, W, H) && InBounds(x, y, W, H)
    requires src[Idx(W, H, x, y)] == PLANT && s.buf[Idx(W, H, x, y)] == 0
    ensures var r := PlantRule(src, W, H, x, y, rand, s);
            (FireAhead(src, W, H, x, y, 0) ==> r.buf[Idx(W, H, x, y)] == FIRE)
            && (!FireAhead(src, W, H, x, y, 0) ==>
                  (r.buf[Idx(W, H, x, y)] == PLANT <==>
                     forall j :: 0 <= j < |s.buf| && j != Idx(W, H, x, y) ==> r.buf[j] == s.buf[j]))
            && (!FireAhead(src, W, H, x, y, 0) && !WaterAhead(src, W, H, x, y, 0) ==>
                  r.buf == s.buf[Idx(W, H, x, y) := PLANT] && r.draws == s.draws)
  {
    var i := Idx(W, H, x, y);
    var st := Sprout(s.buf, s.draws, false);
    PlantLoop(src, W, H, x, y, rand, 0, st);
    PlantFromWrites(src, W, H, x, y, rand, 0, st);
    var l := PlantFrom(src, W, H, x, y, rand, 0, st);
    if !FireAhead(src, W, H, x, y, 0) && l.buf != s.buf {
      var j :| 0 <= j < |s.buf| && l.buf[j] != s.buf[j];
      assert j != i;
    }
  }

  /** In a completed step a plant with a fire neighbour ends as fire. */
  lemma PlantBurns(src: seq<byte>, W: nat, H: nat, rand: Oracle, x: int, y: int)
    requires |src| == W * H && InBounds(x, y, W, H) && Step(src, W, H, rand).Stepped?
    requires src[Idx(W, H, x, y)] == PLANT && FireAhead(src, W, H, x, y, 0)
    ensures Step(src, W, H, rand).next[Idx(W, H, x, y)] == FIRE
  {
    var s := Visit(src, W, H, rand, x, y);
    if s.buf[Idx(W, H, x, y)] == 0 {
      PlantFate(src, W, H, x, y, rand, s.(particles := s.particles + 1));
    }
  }

  // ----- grids that do not move -----

  /** Every cell is empty, stone, or an id without a kind. */
  predicate Inert(src: seq<byte>)
  {
    forall j :: 0 <= j < |src| ==> src[j] == 0 || src[j] == STONE || src[j] > FIRE
  }

  lemma {:induction false} InertState(src: seq<byte>, W: nat, H: nat, rand: Oracle, y: int, x: int)
    requires |src| == W * H && 0 <= y < H && 0 <= x <= W && Inert(src)
    ensures StateAt(src, W, H, rand, y, x).Running?
    ensures forall j :: 0 <= j < W * H ==>
              StateAt(src, W, H, rand, y, x).scan.buf[j] == if Pending(W, y, x, j) then 0 else src[j]
    decreases H - y, x
  {
    if x == 0 {
      if y < H - 1 {
        InertState(src, W, H, rand, y + 1, W);
        assert (y + 1) * W == y * W + W;
      } else {
        assert (H - 1) * W + W == W * H;
      }
    } else {
      InertState(src, W, H, rand, y, x - 1);
      InertCell(src, W, H, x - 1, y, rand, StateAt(src, W, H, rand, y, x - 1).scan);
    }
  }

  lemma InertCell(src: seq<byte>, W: nat, H: nat, x: int, y: int, rand: Oracle, s: Scan)
    requires Fits(src, s.buf, W, H) && InBounds(x, y, W, H) && Inert(src)
    requires forall j :: 0 <= j < W * H ==> s.buf[j] == if Pending(W, y, x, j) then 0 else src[j]
    ensures CellStep(src, W, H, x, y, rand, s).Running?
    ensures forall j :: 0 <= j < W * H ==>
              CellStep(src, W, H, x, y, rand, s).scan.buf[j] == if Pending(W, y, x + 1, j) then 0 else src[j]
  {
    var i := Idx(W, H, x, y);
    assert Pending(W, y, x, i) && !Pending(W, y, x + 1, i);
    var r := CellStep(src, W, H, x, y, rand, s);
    if src[i] == 0 {
      assert r.scan.buf == s.buf;
    } else {
      assert Kind(src[i]) == None || Kind(src[i]) == Some(Stone);
      assert r.scan.buf == s.buf[i := src[i]];
    }
  }

  /** A grid of nothing but empty cells, stone and ids without a kind steps
      to itself; an all-stone grid is one. */
  lemma InertStepsToItself(src: seq<byte>, W: nat, H: nat, rand: Oracle)
    requires |src| == W * H && Inert(src)
    ensures Step(src, W, H, rand) == Stepped(src, CountParticles(src))
  {
    StepCountsParticles(src, W, H, rand);
    if H > 0 {
      InertState(src, W, H, rand, 0, W);
      assert StateAt(src, W, H, rand, 0, W).scan.buf == src;
    }
  }

  // ----- worked scenarios -----

  /** Passing over empty cells changes nothing. */
  lemma {:induction false} QuietStretch(src: seq<byte>, W: nat, H: nat, rand: Oracle, y1: int, x1: int, y2: int, x2: int)
    requires |src| == W * H && 0 <= y1 < H && 0 <= x1 <= W && 0 <= y2 < H && 0 <= x2 <= W
    requires AtOrAfter(y1, x1, y2, x2)
    requires forall j :: 0 <= j < |src| && Pending(W, y1, x1, j) && !Pending(W, y2, x2, j) ==> src[j] == 0
    ensures StateAt(src, W, H, rand, y2, x2) == StateAt(src, W, H, rand, y1, x1)
    decreases H - y2, x2
  {
    if y1 == y2 && x1 == x2 {
    } else if x2 == 0 {
      assert (y2 + 1) * W == y2 * W + W;
      QuietStretch(src, W, H, rand, y1, x1, y2 + 1, W);
    } else {
      var i := Idx(W, H, x2 - 1, y2);
      if y2 < y1 {
        MulMonotone(y2 + 1, y1, W);
      }
      assert Pending(W, y1, x1, i) && !Pending(W, y2, x2, i);
      QuietStretch(src, W, H, rand, y1, x1, y2, x2 - 1);
    }
  }

  /** The grid of one lone grain of sand at (2, 0). */
  function LoneSand(): (g: seq<byte>)
    ensures |g| == 25 && forall j :: 0 <= j < 25 ==> (g[j] == 0 <==> j != 2)
  {
    CreateGrid(5, 5)[Idx(5, 5, 2, 0) := SAND]
  }

  lemma LoneSandVisit(rand: Oracle)
    ensures CellStep(LoneSand(), 5, 5, 2, 0, rand, Start(5, 5))
         == Running(Scan(CreateGrid(5, 5)[Idx(5, 5, 2, 1) := SAND], 1, 0))
  {
    assert Free(LoneSand(), Start(5, 5).buf, 5, 5, 2, 1);
  }

  /** A lone grain of sand at (2, 0) of an empty 5 x 5 grid falls to (2, 1),
      whatever the draws. */
  lemma LoneSandFalls(rand: Oracle)
    ensures Step(LoneSand(), 5, 5, rand) == Stepped(CreateGrid(5, 5)[Idx(5, 5, 2, 1) := SAND], 1)
  {
    var src := LoneSand();
    QuietStretch(src, 5, 5, rand, 4, 0, 0, 2);
    LoneSandVisit(rand);
    QuietStretch(src, 5, 5, rand, 0, 3, 0, 5);
  }

  /** A fire in the middle of a 3 x 3 grid with water right below it makes
      the step throw. */
  lemma FireBesideWaterAborts(rand: Oracle)
    ensures Step(CreateGrid(3, 3)[Idx(3, 3, 1, 1) := FIRE][Idx(3, 3, 1, 2) := WATER], 3, 3, rand).Aborted?
  {
    var src := CreateGrid(3, 3)[Idx(3, 3, 1, 1) := FIRE][Idx(3, 3, 1, 2) := WATER];
    assert NeighborIn(3, 3, 1, 1, 0) && !NeighborIs(src, 3, 3, 1, 1, 0, PLANT);
    ExposedFireAborts(src, 3, 3, rand, 1, 1);
  }
}
