/** The UI store (src/state/uiStore.ts): the selected element, the brush
    size, and the playing and low-power switches.  Each setter replaces one
    field of the state record. */
module UiStore {
  import opened Types

  const MIN_BRUSH: int := 1
  const MAX_BRUSH: int := 20

  /** `Math.max(1, Math.min(size, 20))`: the size of [1, 20] nearest to `size`. */
  function ClampBrush(size: int): (r: int)
    ensures MIN_BRUSH <= r <= MAX_BRUSH
    ensures forall k :: MIN_BRUSH <= k <= MAX_BRUSH ==> Dist(r, size) <= Dist(k, size)
  {
    var upper := if size < MAX_BRUSH then size else MAX_BRUSH;
    if MIN_BRUSH > upper then MIN_BRUSH else upper
  }

  function Dist(a: int, b: int): nat
  {
    if a < b then b - a else a - b
  }

  /** A size already in range is kept as it is, and clamping twice is
      clamping once. */
  lemma ClampKeepsInRange(size: int)
    ensures MIN_BRUSH <= size <= MAX_BRUSH ==> ClampBrush(size) == size
    ensures ClampBrush(ClampBrush(size)) == ClampBrush(size)
    ensures size < MIN_BRUSH ==> ClampBrush(size) == MIN_BRUSH
    ensures size > MAX_BRUSH ==> ClampBrush(size) == MAX_BRUSH
  {
  }

  class Store {
    var selected: ElementKey
    var brushSize: int
    var playing: bool
    var lowPower: bool

    /** The brush size always lies in the clamp range: the constructor
        establishes it and every setter keeps it. */
    ghost predicate Valid()
      reads this
    {
      MIN_BRUSH <= brushSize <= MAX_BRUSH
    }

    constructor ()
      ensures selected == Sand && brushSize == 3 && playing && !lowPower
      ensures Valid()
    {
      selected := Sand;
      brushSize := 3;
      playing := true;
      lowPower := false;
    }

    method SetSelected(element: ElementKey)
      requires Valid()
      modifies this
      ensures Valid()
      ensures selected == element
      ensures brushSize == old(brushSize) && playing == old(playing) && lowPower == old(lowPower)
    {
      selected := element;
    }

    method SetBrushSize(size: int)
      modifies this
      ensures brushSize == ClampBrush(size) && Valid()
      ensures selected == old(selected) && playing == old(playing) && lowPower == old(lowPower)
    {
      brushSize := ClampBrush(size);
    }

    method TogglePlaying()
      requires Valid()
      modifies this
      ensures Valid()
      ensures playing == !old(playing)
      ensures selected == old(selected) && brushSize == old(brushSize) && lowPower == old(lowPower)
    {
      playing := !playing;
    }

    method SetPlaying(state: bool)
      requires Valid()
      modifies this
      ensures Valid()
      ensures playing == state
      ensures selected == old(selected) && brushSize == old(brushSize) && lowPower == old(lowPower)
    {
      playing := state;
    }

    method SetLowPower(state: bool)
      requires Valid()
      modifies this
      ensures Valid()
      ensures lowPower == state
      ensures selected == old(selected) && brushSize == old(brushSize) && playing == old(playing)
    {
      lowPower := state;
    }
  }

  /** Toggling twice restores the switch, and no other field moves. */
  method ToggleTwice(s: Store)
    requires s.Valid()
    modifies s
    ensures s.Valid()
    ensures s.playing == old(s.playing)
    ensures s.selected == old(s.selected) && s.brushSize == old(s.brushSize) && s.lowPower == old(s.lowPower)
  {
    s.TogglePlaying();
    s.TogglePlaying();
  }
}
