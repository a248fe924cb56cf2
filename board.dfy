/** The bookkeeping of the simulator board (src/components/CanvasBoard.tsx):
    the current grid and the scratch buffer that trade places on every
    tick, the bounded undo history, and the rule that loading replaces the
    grid only when the payload is accepted.  The messages the board shows
    are kept as their translation keys; drawing, timing and storage are
    outside the model. */
module Board {
  import opened Types
  import opened Cells
  import opened StepSpec
  import Elements
  import StepLaws
  import Engine
  import Brush
  import Codec

  const GRID_WIDTH: nat := 176
  const GRID_HEIGHT: nat := 118
  const HISTORY_LIMIT: nat := 8

  // ----- the history as values -----

  /** `pushHistory` on the list of snapshots: the new one goes in front, and
      the oldest goes once there are more than `HISTORY_LIMIT`. */
  function Pushed(history: seq<seq<byte>>, g: seq<byte>): (h: seq<seq<byte>>)
    ensures |history| <= HISTORY_LIMIT ==> |h| <= HISTORY_LIMIT
    ensures |h| >= 1 && h[0] == g
    ensures h[1..] == if |history| < HISTORY_LIMIT then history else history[..|history| - 1]
  {
    var n := [g] + history;
    if |n| > HISTORY_LIMIT then n[..|n| - 1] else n
  }

  /** `undo` on the grid and the list: the newest snapshot becomes the grid
      and leaves the list; with no snapshot nothing changes. */
  function Undone(history: seq<seq<byte>>, g: seq<byte>): (r: (seq<byte>, seq<seq<byte>>))
    ensures |history| == 0 ==> r == (g, history)
    ensures |history| > 0 ==> r.0 == history[0] && [r.0] + r.1 == history
  {
    if |history| == 0 then (g, history) else (history[0], history[1..])
  }

  /** Undo right after a snapshot brings back the snapshotted grid, whatever
      happened to the grid in between, and with room in the history the list
      is as before. */
  lemma PushThenUndo(history: seq<seq<byte>>, g: seq<byte>, edited: seq<byte>)
    ensures Undone(Pushed(history, g), edited).0 == g
    ensures |history| < HISTORY_LIMIT ==> Undone(Pushed(history, g), edited).1 == history
  {
  }

  /** The history never grows past its limit, however it is driven. */
  lemma {:induction false} HistoryBounded(history: seq<seq<byte>>, snapshots: seq<seq<byte>>)
    requires |history| <= HISTORY_LIMIT
    ensures |PushAll(history, snapshots)| <= HISTORY_LIMIT
    ensures |snapshots| > 0 ==> PushAll(history, snapshots)[0] == snapshots[|snapshots| - 1]
  {
    if |snapshots| > 0 {
      HistoryBounded(history, snapshots[..|snapshots| - 1]);
    }
  }

  function PushAll(history: seq<seq<byte>>, snapshots: seq<seq<byte>>): seq<seq<byte>>
  {
    if |snapshots| == 0 then history
    else Pushed(PushAll(history, snapshots[..|snapshots| - 1]), snapshots[|snapshots| - 1])
  }

  // ----- randomFill -----

  /** The cell `randomFill` leaves for one roll of the dice. */
  function Roll(roll: real, cell: byte): (c: byte)
    ensures roll <= 0.84 ==> c == cell
    ensures roll > 0.84 ==> SAND <= c <= FIRE
  {
    if roll > 0.92 then SAND
    else if roll > 0.88 then WATER
    else if roll > 0.86 then STONE
    else if roll > 0.845 then PLANT
    else if roll > 0.84 then FIRE
    else cell
  }

  function RandomFilled(g: seq<byte>, rand: Oracle): (r: seq<byte>)
    ensures |r| == |g|
  {
    seq(|g|, i requires 0 <= i < |g| => Roll(rand(i), g[i]))
  }

  /** Every cell keeps its value or receives one of the five defined
      particles, and a cell whose roll is at most 0.84 keeps its value. */
  lemma RandomFillCells(g: seq<byte>, rand: Oracle, i: int)
    requires 0 <= i < |g|
    ensures RandomFilled(g, rand)[i] == g[i] || SAND <= RandomFilled(g, rand)[i] <= FIRE
    ensures rand(i) <= 0.84 ==> RandomFilled(g, rand)[i] == g[i]
  {
  }

  // ----- message keys -----

  const STATUS_READY := "status.ready"
  const STATUS_UPDATED := "status.updated"
  const STATUS_UNDO := "controls.undo"
  const IMPORTED := "controls.imported"
  const IMPORT_FAILED := "controls.importFailed"
  const SAVE_EMPTY := "save.empty"
  const LOAD_ERROR := "controls.loadError"

  class CanvasBoard {
    /** The board's dimensions, `GRID_WIDTH` by `GRID_HEIGHT`. */
    const width: nat
    const height: nat
    var grid: array<byte>
    var buffer: array<byte>
    var history: seq<seq<byte>>
    /** The particle count on display, and the last count a tick returned. */
    var particles: nat
    var lastCount: nat
    var status: string
    var saveMessage: string

    /** The two buffers are different arrays and the history is within its limit. */
    ghost predicate Valid()
      reads this
    {
      grid != buffer && |history| <= HISTORY_LIMIT
    }

    /** Both buffers have the board's size.  Loading does not check the
        length of what it loads, so this is not kept by every operation. */
    ghost predicate Sized()
      reads this, grid, buffer
    {
      grid.Length == width * height && buffer.Length == width * height
    }

    constructor ()
      ensures width == GRID_WIDTH && height == GRID_HEIGHT
      ensures Valid() && Sized() && fresh(grid) && fresh(buffer)
      ensures grid[..] == CreateGrid(GRID_WIDTH, GRID_HEIGHT) && buffer[..] == CreateGrid(GRID_WIDTH, GRID_HEIGHT)
      ensures history == [] && particles == 0 && lastCount == 0
      ensures status == STATUS_READY && saveMessage == ""
    {
      width, height := GRID_WIDTH, GRID_HEIGHT;
      grid := new byte[GRID_WIDTH * GRID_HEIGHT](_ => 0);
      buffer := new byte[GRID_WIDTH * GRID_HEIGHT](_ => 0);
      history := [];
      particles, lastCount := 0, 0;
      status, saveMessage := STATUS_READY, "";
    }

    /** `pushHistory`: a copy of the grid goes in front of the history. */
    method PushHistory()
      requires Valid()
      modifies this
      ensures Valid()
      ensures history == Pushed(old(history), grid[..])
      ensures grid == old(grid) && buffer == old(buffer)
      ensures particles == old(particles) && lastCount == old(lastCount)
      ensures status == old(status) && saveMessage == old(saveMessage)
    {
      history := [grid[..]] + history;
      if |history| > HISTORY_LIMIT {
        history := history[..|history| - 1];
      }
    }

    /** `undo`: the newest snapshot becomes the grid. */
    method Undo()
      requires Valid()
      modifies this
      ensures Valid() && buffer == old(buffer)
      ensures (grid[..], history) == Undone(old(history), old(grid[..]))
      ensures |old(history)| == 0 ==> grid == old(grid) && status == old(status)
      ensures |old(history)| > 0 ==> fresh(grid) && status == STATUS_UNDO
      ensures particles == old(particles) && lastCount == old(lastCount) && saveMessage == old(saveMessage)
    {
      if |history| > 0 {
        var prev := history[0];
        history := history[1..];
        grid := new byte[|prev|](i requires 0 <= i < |prev| => prev[i]);
        assert grid[..] == prev;
        status := STATUS_UNDO;
      }
    }

    /** `grid.fill(0)`. */
    method FillZero()
      modifies grid
      ensures forall i :: 0 <= i < grid.Length ==> grid[i] == 0
    {
      forall i | 0 <= i < grid.Length {
        grid[i] := 0;
      }
    }

    /** `resetGrid`: a snapshot, then an empty grid. */
    method Reset()
      requires Valid()
      modifies this, grid
      ensures Valid() && grid == old(grid) && buffer == old(buffer)
      ensures history == Pushed(old(history), old(grid[..]))
      ensures forall i :: 0 <= i < grid.Length ==> grid[i] == 0
      ensures status == STATUS_UPDATED
      ensures particles == old(particles) && lastCount == old(lastCount) && saveMessage == old(saveMessage)
    {
      PushHistory();
      FillZero();
      status := STATUS_UPDATED;
    }

    /** The clear button: a snapshot, then an empty grid, with no message. */
    method Clear()
      requires Valid()
      modifies this, grid
      ensures Valid() && grid == old(grid) && buffer == old(buffer)
      ensures history == Pushed(old(history), old(grid[..]))
      ensures forall i :: 0 <= i < grid.Length ==> grid[i] == 0
      ensures status == old(status)
      ensures particles == old(particles) && lastCount == old(lastCount) && saveMessage == old(saveMessage)
    {
      PushHistory();
      FillZero();
    }

    /** `randomFill`, one roll per cell in index order. */
    method RandomFill(rand: Oracle)
      requires Valid()
      modifies this, grid
      ensures Valid() && grid == old(grid) && buffer == old(buffer)
      ensures history == Pushed(old(history), old(grid[..]))
      ensures grid[..] == RandomFilled(old(grid[..]), rand)
      ensures status == STATUS_UPDATED
      ensures particles == old(particles) && lastCount == old(lastCount) && saveMessage == old(saveMessage)
    {
      PushHistory();
      RollCells(rand);
      status := STATUS_UPDATED;
    }

    /** The loop of `randomFill`. */
    method RollCells(rand: Oracle)
      modifies grid
      ensures grid[..] == RandomFilled(old(grid[..]), rand)
    {
      ghost var g := grid[..];
      var i := 0;
      while i < grid.Length
        invariant 0 <= i <= grid.Length
        invariant forall k :: 0 <= k < i ==> grid[k] == Roll(rand(k), g[k])
        invariant forall k :: i <= k < grid.Length ==> grid[k] == g[k]
      {
        var roll := rand(i);
        if roll > 0.92 {
          grid[i] := SAND;
        } else if roll > 0.88 {
          grid[i] := WATER;
        } else if roll > 0.86 {
          grid[i] := STONE;
        } else if roll > 0.845 {
          grid[i] := PLANT;
        } else if roll > 0.84 {
          grid[i] := FIRE;
        }
        assert grid[i] == Roll(rand(i), g[i]);
        i := i + 1;
      }
      assert grid[..] == RandomFilled(g, rand);
    }

    /** `handlePointer` once the pointer is mapped to the cell (x, y): a cell
        off the board is ignored; otherwise the brush paints the selected
        element, whose table entry must exist. */
    method Pointer(x: int, y: int, brush: int, selected: ElementKey) returns (threw: bool)
      requires Valid() && Sized()
      modifies grid
      ensures threw <==> InBounds(x, y, width, height) && Elements.Lookup(selected).None?
      ensures grid[..] == if InBounds(x, y, width, height) && !threw
                          then Brush.Brushed(old(grid[..]), width, x, y, brush, Elements.Lookup(selected).value.id as byte)
                          else old(grid[..])
    {
      threw := false;
      if !InBounds(x, y, width, height) {
        return;
      }
      var entry := Elements.Lookup(selected);
      if entry.None? {
        threw := true;
        return;
      }
      Brush.ApplyBrush(grid, width, height, x, y, brush, entry.value.id as byte);
    }

    /** A pointer press: a snapshot, then the brush. */
    method PointerDown(x: int, y: int, brush: int, selected: ElementKey) returns (threw: bool)
      requires Valid() && Sized()
      modifies this, grid
      ensures Valid() && Sized() && grid == old(grid) && buffer == old(buffer)
      ensures history == Pushed(old(history), old(grid[..]))
      ensures threw <==> InBounds(x, y, width, height) && Elements.Lookup(selected).None?
      ensures grid[..] == if InBounds(x, y, width, height) && !threw
                          then Brush.Brushed(old(grid[..]), width, x, y, brush, Elements.Lookup(selected).value.id as byte)
                          else old(grid[..])
    {
      PushHistory();
      threw := Pointer(x, y, brush, selected);
    }

    /** The stepping part of a frame, when the loop decides to step
        (`stepNow`): the step writes the scratch buffer, which becomes the
        grid while the old grid becomes the scratch buffer.  The count on
        display is then the last count a step returned, or a fresh census
        when that count is 0.  A step that throws ends the frame before the
        swap. */
    method Render(stepNow: bool, rand: Oracle) returns (threw: bool)
      requires Valid() && Sized()
      modifies this, buffer
      ensures Valid() && Sized()
      ensures history == old(history) && status == old(status) && saveMessage == old(saveMessage)
      ensures threw ==> stepNow && grid == old(grid) && buffer == old(buffer) && particles == old(particles)
      ensures threw <==> stepNow && Step(old(grid[..]), width, height, rand).Aborted?
      ensures stepNow && !threw ==>
        grid == old(buffer) && buffer == old(grid) && buffer[..] == old(grid[..])
        && Step(old(grid[..]), width, height, rand) == Stepped(grid[..], lastCount)
      ensures !stepNow ==> grid == old(grid) && buffer == old(buffer) && grid[..] == old(grid[..]) && lastCount == old(lastCount)
      ensures !threw ==> particles == if lastCount != 0 then lastCount else CountParticles(grid[..])
    {
      threw := false;
      if stepNow {
        var original := grid;
        var scratch := buffer;
        var next, p, t := Engine.StepGrid(original, scratch, width, height, rand);
        if t {
          threw := true;
          return;
        }
        lastCount := p;
        grid := next;
        buffer := original;
      }
      particles := if lastCount != 0 then lastCount else CountParticles(grid[..]);
    }

    /** `stepOnce`: one step and the swap; the count on display is the
        count the step returned, which is the census of the grid stepped. */
    method StepOnce(rand: Oracle) returns (threw: bool)
      requires Valid() && Sized()
      modifies this, buffer
      ensures Valid() && Sized()
      ensures history == old(history) && saveMessage == old(saveMessage) && lastCount == old(lastCount)
      ensures threw <==> Step(old(grid[..]), width, height, rand).Aborted?
      ensures threw ==> grid == old(grid) && buffer == old(buffer) && particles == old(particles) && status == old(status)
      ensures !threw ==>
        grid == old(buffer) && buffer == old(grid) && buffer[..] == old(grid[..])
        && Step(old(grid[..]), width, height, rand) == Stepped(grid[..], particles)
        && particles == CountParticles(old(grid[..]))
        && status == STATUS_UPDATED
    {
      var original := grid;
      var scratch := buffer;
      var next, p, t := Engine.StepGrid(original, scratch, width, height, rand);
      if t {
        return true;
      }
      StepLaws.StepCountsParticles(original[..], width, height, rand);
      grid := next;
      buffer := original;
      particles := p;
      status := STATUS_UPDATED;
      threw := false;
    }

    /** Makes an accepted grid current, after a snapshot of the old one. */
    method Install(g: seq<byte>)
      requires Valid()
      modifies this
      ensures Valid() && fresh(grid) && grid[..] == g && buffer == old(buffer)
      ensures history == Pushed(old(history), old(grid[..]))
      ensures particles == old(particles) && lastCount == old(lastCount)
      ensures status == old(status) && saveMessage == old(saveMessage)
    {
      PushHistory();
      grid := new byte[|g|](i requires 0 <= i < |g| => g[i]);
      assert grid[..] == g;
    }

    /** `loadSlot`: `stored` is what the save slot holds and `parsed` what
        `JSON.parse` makes of it.  Only an accepted payload touches the grid
        and the history. */
    method LoadSlot(stored: Option<string>, parsed: Option<Codec.Payload>)
      requires Valid()
      modifies this
      ensures Valid() && buffer == old(buffer) && status == old(status)
      ensures particles == old(particles) && lastCount == old(lastCount)
      ensures stored.None? || stored == Some("") ==>
        grid == old(grid) && history == old(history) && saveMessage == SAVE_EMPTY
      ensures stored.Some? && stored != Some("") ==>
        match Codec.Hydrate(parsed, width, height)
        case Some(g) =>
          fresh(grid) && grid[..] == g && history == Pushed(old(history), old(grid[..])) && saveMessage == IMPORTED
        case None =>
          grid == old(grid) && history == old(history) && saveMessage == LOAD_ERROR
    {
      if stored.None? || stored.value == "" {
        saveMessage := SAVE_EMPTY;
        return;
      }
      var g := Codec.Hydrate(parsed, width, height);
      if g.Some? {
        Install(g.value);
        saveMessage := IMPORTED;
      } else {
        saveMessage := LOAD_ERROR;
      }
    }

    /** The `onload` handler of `importJSON`, with `parsed` what `JSON.parse`
        makes of the file's text. */
    method ImportJSON(parsed: Option<Codec.Payload>)
      requires Valid()
      modifies this
      ensures Valid() && buffer == old(buffer) && saveMessage == old(saveMessage)
      ensures particles == old(particles) && lastCount == old(lastCount)
      ensures match Codec.Hydrate(parsed, width, height)
        case Some(g) =>
          fresh(grid) && grid[..] == g && history == Pushed(old(history), old(grid[..])) && status == IMPORTED
        case None =>
          grid == old(grid) && history == old(history) && status == IMPORT_FAILED
    {
      var g := Codec.Hydrate(parsed, width, height);
      if g.Some? {
        Install(g.value);
        status := IMPORTED;
      } else {
        status := IMPORT_FAILED;
      }
    }
  }
}
