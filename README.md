# Sandspiel falling-sand core in Dafny

This project models the simulation core of the sandspiel web toy. The
world is a grid of byte cells, 176 by 118 on the board, where each cell
holds an element id:

| id | element |
|---|---|
| 0 | empty |
| 1 | sand |
| 2 | water |
| 3 | stone |
| 4 | plant |
| 5 | fire |

The modelled code consists of:

- **The element table** and its reverse map.
- **The engine:** the grid helpers, the disc brush, the double-buffered
  tick `stepGrid`, the particle census and the save format.
- **The scene preset helpers:** `fillRect`, `bandFill`, `sprinkle` and the
  blank slate.
- **The board's bookkeeping:** the undo history with its limit of 8
  snapshots, reset and clear, random fill, the pointer brush, the buffer
  swap of a rendered frame and of a single step, and loading from the save
  slot or from an imported file.
- **The UI store:** the selected element, the brush size clamped to
  [1, 20], and the play and low-power switches.
- **Language handling:** language detection and the translation lookup
  with its fallbacks.

`Math.random` is an oracle `rand: nat -> real`. The n-th call of a run
reads `rand(n)`, and the engine counts its calls in source order. A
JavaScript exception is an explicit outcome: `Aborted`/`Threw` for the
tick, and `threw` for the brush. The grid arrays are Dafny `array<byte>`
values that the methods update in place. Each method is proved against a
function on `seq<byte>`, and the laws are lemmas about those functions.

What a tick does is proved in several places:

- **Spec and engine.** `StepSpec.Step` describes a tick cell by cell, in the
  scan order of the code: bottom row first, left to right. `Engine.StepGrid`
  is the imperative scan, proved to compute exactly that.
- **Counting and conservation.** `StepLaws` proves that the returned count
  is the census of the source grid. A completed tick conserves every id
  other than empty, plant and fire, which includes sand and water.
- **Movement.** Stone never moves. Sand and water only move into cells
  that were empty. A plant next to fire burns. A grid with nothing but
  empty cells and stone steps to itself.
- **When a tick aborts.** The tick throws exactly when some fire cell has
  an in-bounds neighbour that is not plant.

The model follows what the code does, also where the code evidently means
something else:

- **The table defines only ids 0 to 5.** The `ElementKey` type
  (src/simulation/types.ts:1-11) also names soil, wood, seed and steam, but
  `ELEMENTS` (src/simulation/elements.ts:3-46) has no record for them.
  - The fire rule evidently means to spread onto wood
    (src/simulation/engine.ts:188). It also means to leave steam behind when
    water douses it (src/simulation/engine.ts:196).
  - Because those records are missing, `ELEMENTS.wood.id` and
    `ELEMENTS.steam.id` raise a `TypeError`, and the tick stops there.
  - So a fire beside water does not turn to steam: the whole tick is
    abandoned (`StepLaws.FireBesideWaterAborts`). A fire gets through a tick
    only when every in-bounds neighbour is a plant
    (`StepLaws.StepAbortsIffExposedFire`).
- **`hydrateGrid` checks only the width and the height**
  (src/simulation/engine.ts:247). It never compares the data length with
  `width * height`, so a record with the right dimensions and short data is
  accepted (`Codec.ShortDataAccepted`).
- **Stored values are cut to a byte.** Each value goes into a `Uint8Array`
  (src/simulation/engine.ts:248), so it is reduced modulo 256.

## Model

| member | source | states |
|---|---|---|
| Elements.Lookup | src/simulation/elements.ts:3-46 | a kind has a record exactly when it is one of the six defined kinds, and its id lies in 0..5 |
| Elements.ElementById | src/simulation/elements.ts:48-54 | the fold over the entries yields exactly the map from ids 0..5 to empty, sand, water, stone, plant, fire |
| Elements.IdsDistinct | src/simulation/elements.ts:3-46 | the six defined kinds carry pairwise distinct ids in 0..5, and empty is 0 |
| Elements.ByIdInvertsTable | src/simulation/elements.ts:48-54 | the reverse map inverts the table: looking up the id of a defined kind gives that kind back |
| Elements.KeyOfId | src/simulation/engine.ts:80 | the kind `ELEMENT_BY_ID` gives an id, `None` for `undefined`; `Elements.ByIdDomain` states which ids have one |
| Elements.ByIdDomain | src/simulation/elements.ts:48-54 | an id has a kind exactly when it lies in 0..5, and that kind's record carries the same id |
| Elements.UndefinedKindsHaveNoId | src/simulation/types.ts:1-11 | no id maps to soil, wood, seed or steam |
| Elements.PaletteWellFormed | src/simulation/elements.ts:56 | the palette lists six distinct defined kinds, every defined kind among them, ending with the eraser |
| Elements.StaticKinds | src/simulation/elements.ts:3-46 | only the empty and stone records are static |
| Cells.InBounds | src/simulation/engine.ts:11 | a cell is in bounds exactly when both coordinates are non-negative and below the width and the height; `Cells.Idx` proves its index then lies in the grid |
| Cells.Idx | src/simulation/engine.ts:13-17 | the row-major index of an in-bounds cell lies inside the grid |
| Cells.IdxCoords | src/simulation/engine.ts:13-17 | the index determines the cell: dividing by the width gives back the row and the column |
| Cells.CreateGrid | src/simulation/engine.ts:9 | a new grid has width * height cells, all empty, and a census of 0 |
| Cells.CountParticles | src/simulation/engine.ts:254 | the census is at most the grid size and is 0 exactly when every cell is empty |
| Cells.CountIsOccupied | src/simulation/engine.ts:254 | the census equals the number of non-empty cells |
| Brush.Radius | src/simulation/engine.ts:28 | the radius is at least 1 and at least the brush size, and is one of the two |
| Brush.ApplyBrush | src/simulation/engine.ts:19-39 | the array afterwards is the old grid painted with the brush disc |
| Brush.BrushExact | src/simulation/engine.ts:29-36 | a cell is painted exactly when it is in bounds and its squared distance from the centre is at most radius²; every other cell keeps its value |
| Brush.BrushIdempotent | src/simulation/engine.ts:19-39 | brushing twice with the same arguments equals brushing once |
| Brush.SmallBrushIsPlus | src/simulation/engine.ts:28-34 | a brush of size 1 or less picks the centre and its four orthogonal neighbours, never a diagonal |
| Painting.PaintAt | src/simulation/engine.ts:33-35 | painting writes only picked in-bounds cells, so nothing off the grid or across a row edge changes |
| StepSpec.Side | src/simulation/engine.ts:92 | the side chosen is one step right or one step left, right exactly when the draw exceeds one half (also engine.ts:106, 134-135) |
| StepSpec.Free | src/simulation/engine.ts:88 | the move test: the target is in bounds and holds 0 in the source grid and in the buffer |
| StepSpec.FreeAtIndex | src/simulation/engine.ts:88 | a free cell's index `y * width + x`, the one every move test reads, lies inside both grids and holds 0 in each |
| StepSpec.SandMove | src/simulation/engine.ts:86-99 | a grain's destination is in bounds and is either its own cell or a cell empty in both grids |
| StepSpec.WaterMove | src/simulation/engine.ts:100-119 | a drop's destination is in bounds and is either its own cell or a cell empty in both grids |
| StepSpec.PlantRule | src/simulation/engine.ts:126-151 | the plant case keeps the grid size and the particle count and only ever consumes draws |
| StepSpec.FireRule | src/simulation/engine.ts:176-207 | the fire case keeps the grid size and the particle count and only ever consumes draws |
| StepSpec.CellStep | src/simulation/engine.ts:77-230 | a visit adds one to the count exactly when the source cell is occupied, and only ever consumes draws |
| StepSpec.Step | src/simulation/engine.ts:57-235 | a completed tick yields a grid of the same size |
| Engine.SandCell | src/simulation/engine.ts:86-99 | the sand case writes the grain at the destination `SandMove` chooses |
| Engine.WaterCell | src/simulation/engine.ts:100-119 | the water case writes the drop at the destination `WaterMove` chooses |
| Engine.PlantSeed | src/simulation/engine.ts:133-140 | a water neighbour's draws and planting agree with `PlantWater` |
| Engine.PlantCell | src/simulation/engine.ts:126-151 | the plant loop with its `break` on fire computes `PlantRule` |
| Engine.FireLoop | src/simulation/engine.ts:178-193 | the fire's neighbour loop computes `FireFrom` |
| Engine.FireCell | src/simulation/engine.ts:176-207 | the fire case computes `FireRule`, a `TypeError` included |
| Engine.VisitCell | src/simulation/engine.ts:77-230 | one pass of the loop body computes `CellStep` |
| Engine.StepRow | src/simulation/engine.ts:76-231 | one row of the scan moves from the state before the row to the state after it, or to the final thrown state |
| Engine.StepGrid | src/simulation/engine.ts:57-235 | the buffer and count returned are exactly `Step` of the source, the source is never written, and the call throws exactly when `Step` aborts |
| StepLaws.CellStepWrites | src/simulation/engine.ts:85-230 | a visit writes only cells still empty in the buffer; away from its own cell only cells empty in the source, or a plant set alight; only an unwritten fire cell can throw |
| StepLaws.StateGrows | src/simulation/engine.ts:75-76 | later scan states keep everything written before, and a running later state had a running earlier state |
| StepLaws.ThrowIsFinal | src/simulation/engine.ts:75-76 | once the scan throws, every later state is that same thrown state |
| StepLaws.StepCountsParticles | src/simulation/engine.ts:80-81 | a completed tick returns the census of the source grid |
| StepLaws.StepPreservesCount | src/simulation/engine.ts:85-230 | a completed tick keeps the number of cells holding any id other than empty, plant and fire |
| StepLaws.SandAndWaterConserved | src/simulation/engine.ts:86-119 | a completed tick neither creates nor destroys sand or water |
| StepLaws.StaticStays | src/simulation/engine.ts:120-125 | stone, and any id without a kind, stays in its cell |
| StepLaws.SandLands | src/simulation/engine.ts:86-99 | a grain ends in its own cell or in one of the three cells below it that was empty in the source |
| StepLaws.WaterLands | src/simulation/engine.ts:100-119 | a drop ends in its own cell, below it, or one or two cells to either side, in a cell empty in the source |
| StepLaws.SkipOnlyIgnited | src/simulation/engine.ts:83 | the already-filled skip passes over only plants that a fire ignited earlier in the same tick |
| StepLaws.FireFromSpreads | src/simulation/engine.ts:178-193 | the fire's neighbour loop runs to its end exactly when every remaining in-bounds neighbour is a plant |
| StepLaws.FireRuleRuns | src/simulation/engine.ts:176-207 | a fire lets the tick go on exactly when all its in-bounds neighbours are plant |
| StepLaws.CellThrows | src/simulation/engine.ts:176-207 | a visit throws exactly at an exposed fire whose buffer cell is still empty |
| StepLaws.StepAbortsIffExposedFire | src/simulation/engine.ts:57-235 | a tick aborts if and only if some fire has an in-bounds neighbour that is not plant |
| StepLaws.PlantFate | src/simulation/engine.ts:126-151 | a plant with a fire neighbour turns to fire; otherwise it is put back exactly when it planted no new shoot, and with neither fire nor water around it is copied without a draw |
| StepLaws.PlantBurns | src/simulation/engine.ts:141-145 | in a completed tick a plant with a fire neighbour ends as fire |
| StepLaws.InertStepsToItself | src/simulation/engine.ts:120-125 | a grid of empty cells, stone and ids without a kind steps to itself with its own census |
| StepLaws.QuietStretch | src/simulation/engine.ts:79 | passing over empty cells leaves the scan state unchanged |
| StepLaws.LoneSandFalls | src/simulation/engine.ts:86-91 | a lone grain at the top of an empty 5 x 5 grid falls one row, and the count is 1 |
| StepLaws.FireBesideWaterAborts | src/simulation/engine.ts:183-196 | a fire with water directly below it throws instead of turning to steam |
| Codec.Serialize | src/simulation/engine.ts:237-238 | the record holds the dimensions and every cell in order |
| Codec.ToByte | src/simulation/engine.ts:248 | a value is stored modulo 256, and a value already in 0..255 is kept |
| Codec.Hydrate | src/simulation/engine.ts:240-252 | a grid comes back exactly when the text parses and both dimensions match; it has the data's length, with each value taken modulo 256 |
| Codec.RoundTrip | src/simulation/engine.ts:237-252 | loading what was saved for the same dimensions gives the grid back |
| Codec.OtherDimensionsRefused | src/simulation/engine.ts:247 | a record saved for other dimensions is refused, whatever it holds |
| Codec.ShortDataAccepted | src/simulation/engine.ts:247-248 | a record with the right dimensions but no data is accepted as an empty grid |
| Presets.FillRect | src/simulation/presets.ts:10-20 | the array afterwards is the old grid with the clamped box filled |
| Presets.FillExact | src/simulation/presets.ts:10-20 | an in-bounds cell is filled exactly when it lies between the two corners, whichever way round they are given; every other cell keeps its value |
| Presets.FillSymmetric | src/simulation/presets.ts:11-14 | swapping the corners, or only the x coordinates, gives the same grid |
| Presets.FillIdempotent | src/simulation/presets.ts:10-20 | filling the same box twice equals filling it once |
| Presets.FillOffGrid | src/simulation/presets.ts:11-14 | a box lying wholly beside, above or below the grid changes nothing |
| Presets.BandFill | src/simulation/presets.ts:30-32 | the array afterwards is the grid filled over full rows y to min(height - 1, y + thickness) |
| Presets.BandRows | src/simulation/presets.ts:30-32 | a band starting on the grid covers every column of its rows and nothing else |
| Presets.BandPastBottom | src/simulation/presets.ts:31 | a band asked for below the grid is clamped onto the last row and fills it |
| Presets.Scale | src/simulation/presets.ts:24-25 | a random number in [0, 1) scaled to n lands in [0, n) |
| Presets.Sprinkle | src/simulation/presets.ts:22-28 | the array afterwards is the grid after `count` passes, none when `count` is not positive, each pass storing the id at the drawn index when it lands inside the array |
| Presets.HitsStep | src/simulation/presets.ts:23-26 | one more pass adds its index to the hit cells exactly when the store lands |
| Presets.SprinkleExact | src/simulation/presets.ts:22-28 | after n passes exactly the hit cells hold the id, every other cell is unchanged, and at most n cells are hit |
| Presets.BlankSlate | src/simulation/presets.ts:141-146 | the blank slate is a new all-empty grid |
| UiStore.ClampBrush | src/state/uiStore.ts:24 | the size lies in [1, 20] and is the point of that range nearest to the request |
| UiStore.ClampKeepsInRange | src/state/uiStore.ts:24 | a size in range is kept, sizes below and above go to the bounds, and clamping is idempotent |
| UiStore.Store.constructor | src/state/uiStore.ts:18-22 | the store starts with sand, brush 3, playing, and low power off |
| UiStore.Store.SetSelected | src/state/uiStore.ts:23 | only the selection changes |
| UiStore.Store.SetBrushSize | src/state/uiStore.ts:24 | the brush becomes the clamped size, and nothing else changes |
| UiStore.Store.TogglePlaying | src/state/uiStore.ts:25 | only the play switch flips |
| UiStore.Store.SetPlaying | src/state/uiStore.ts:26 | only the play switch is set |
| UiStore.Store.SetLowPower | src/state/uiStore.ts:27 | only the low-power switch is set |
| UiStore.ToggleTwice | src/state/uiStore.ts:25 | toggling twice restores the play switch and moves no other field |
| I18n.FirstMatch | src/i18n/index.tsx:14-16 | a match found starts with "zh" or "en" after lowering; none is found exactly when no preference matches |
| I18n.NavigatorLanguage | src/i18n/index.tsx:11-19 | the navigator language is always "en" or "zh" |
| I18n.FirstMatchIsFirst | src/i18n/index.tsx:14-16 | the first matching preference is the one found |
| I18n.NavigatorFirstMatch | src/i18n/index.tsx:13-18 | the first matching preference decides: "zh" when it starts with "zh", else "en" |
| I18n.NavigatorDefault | src/i18n/index.tsx:12-17 | with no navigator, or no matching preference, the language is "en" |
| I18n.UpperCasePreference | src/i18n/index.tsx:15 | matching ignores case: a browser preferring "ZH-TW" gets Chinese |
| I18n.EmptyLanguagesIgnoreLanguage | src/i18n/index.tsx:13 | an empty `languages` list is not nullish, so `language` is never consulted |
| I18n.DetectLanguage | src/i18n/index.tsx:21-26 | the detected name always passes the `in dictionaries` test |
| I18n.DetectPrefersStored | src/i18n/index.tsx:21-26 | a stored "en" or "zh" wins; a missing or unknown stored value falls back to the navigator; with no window the language is "en" |
| I18n.StoredInheritedName | src/i18n/index.tsx:24 | a stored inherited property name such as "toString" passes the test and is returned |
| I18n.Coalesce | src/i18n/index.tsx:65 | the chain gives the fallback when every link is undefined, and otherwise one of its defined values |
| I18n.CoalesceFirst | src/i18n/index.tsx:65 | the first defined link of the chain wins |
| I18n.T | src/i18n/index.tsx:62-68 | a translation is the key itself, the English text or, for Chinese, the Chinese text |
| I18n.TFallback | src/i18n/index.tsx:65 | the language's own entry comes first, then the English entry, then the key |
| I18n.EmptyTranslationKept | src/i18n/index.tsx:65 | an empty Chinese text is shown as empty, since `??` skips only undefined |
| I18n.DefaultT | src/i18n/index.tsx:45 | the default context's `t` gives the English text, else the key |
| I18n.DefaultIsEnglish | src/i18n/index.tsx:45 | for any language other than Chinese the provider's `t` agrees with the default one |
| Board.Pushed | src/components/CanvasBoard.tsx:115-118 | the snapshot goes in front, the older snapshots follow, and the oldest is dropped past the limit of 8 |
| Board.Undone | src/components/CanvasBoard.tsx:170-176 | with no history nothing changes; otherwise the newest snapshot becomes the grid and leaves the history |
| Board.PushThenUndo | src/components/CanvasBoard.tsx:115-118 | undo right after a snapshot restores the snapshotted grid, and below the limit the history as well |
| Board.HistoryBounded | src/components/CanvasBoard.tsx:9 | however many snapshots are pushed, the history never exceeds 8, and the newest is in front |
| Board.Roll | src/components/CanvasBoard.tsx:182-187 | a roll of at most 0.84 keeps the cell; a higher roll writes one of sand to fire |
| Board.RandomFillCells | src/components/CanvasBoard.tsx:181-188 | each cell keeps its value or becomes one of sand to fire, and it is kept whenever its roll is at most 0.84 |
| Board.CanvasBoard.constructor | src/components/CanvasBoard.tsx:7-19 | the board is 176 x 118 with two distinct empty buffers, no history, and the ready status |
| Board.CanvasBoard.PushHistory | src/components/CanvasBoard.tsx:115-118 | the history becomes `Pushed` of a copy of the grid, and nothing else changes |
| Board.CanvasBoard.Undo | src/components/CanvasBoard.tsx:170-176 | grid and history become `Undone`; the status changes only when there was a snapshot |
| Board.CanvasBoard.FillZero | src/components/CanvasBoard.tsx:166 | every cell of the current grid becomes 0 (also the clear button, CanvasBoard.tsx:304) |
| Board.CanvasBoard.Reset | src/components/CanvasBoard.tsx:164-168 | a snapshot, then every cell empty, then the updated status |
| Board.CanvasBoard.Clear | src/components/CanvasBoard.tsx:304 | a snapshot, then every cell empty, with the status untouched |
| Board.CanvasBoard.RandomFill | src/components/CanvasBoard.tsx:178-190 | a snapshot, then one roll per cell in index order, then the updated status |
| Board.CanvasBoard.RollCells | src/components/CanvasBoard.tsx:181-188 | the loop leaves `RandomFilled` of the old grid |
| Board.CanvasBoard.Pointer | src/components/CanvasBoard.tsx:128-130 | an in-bounds press brushes the selected element's id, and throws for a kind with no record; an off-grid press does nothing |
| Board.CanvasBoard.PointerDown | src/components/CanvasBoard.tsx:138-142 | a snapshot, then the pointer brush |
| Board.CanvasBoard.Render | src/components/CanvasBoard.tsx:64-85 | a stepping frame installs `Step` of the old grid and swaps the buffers; the count shown is the last tick's count, or the census when that is 0 |
| Board.CanvasBoard.StepOnce | src/components/CanvasBoard.tsx:263-271 | the step installs `Step` of the old grid and swaps the buffers; the count shown is the census of the old grid |
| Board.CanvasBoard.Install | src/components/CanvasBoard.tsx:209-212 | an accepted grid becomes current after a snapshot of the old one |
| Board.CanvasBoard.LoadSlot | src/components/CanvasBoard.tsx:202-216 | an empty slot only sets the empty message; otherwise a record that hydrates is installed after a snapshot with the imported message, and any other leaves grid and history with the load-error message |
| Board.CanvasBoard.ImportJSON | src/components/CanvasBoard.tsx:238-248 | a record that hydrates is installed after a snapshot with the imported status; any other leaves the grid with the import-failed status |

## Left out

- Drawing: the colour lookup table, `drawGrid`, the canvas and `exportPng` have no bearing on the grid.
- Frame timing and the FPS counter: the accumulator and `requestAnimationFrame` are replaced by a `stepNow` flag on `Render`.
- Board.CanvasBoard.Render: a tick that throws at CanvasBoard.tsx:75 also skips `requestAnimationFrame` at CanvasBoard.tsx:83, so the real frame loop stops for good after an aborted tick; the model only returns `threw` and does not model the loop halting.
- Board.CanvasBoard.Render: the effect restart that zeroes the frame loop's local particle count when playback or low power changes is not modelled; `lastCount` keeps the last tick's count.
- Presets.Scale: `Math.floor(r * n)` is computed on exact reals, not on doubles. A double product can round up to the next integer, so for r = 0.3333333333333333 and n = 3 JavaScript gives 1 and the model gives 0. Over all oracles the set of reachable outcomes is the same.
- Pointer-to-cell mapping: the bounding-rectangle scaling in `handlePointer` is floating point; `Pointer` takes the cell it computes.
- Pointer move and release events only decide whether the brush is applied again; each application is `Pointer`.
- Storage and file I/O: `localStorage`, `FileReader`, `Blob` and `JSON.parse` are outside the model. The parse result is an `Option<Payload>`, where `None` stands for text that does not parse or is not a record. Payload data are integers.
- `saveSlot` and `downloadJSON` only serialize and write; what they write is `Codec.Serialize`.
- The `onerror` handler of `importJSON`, and its choice of file, are left out.
- Codec.ToByte: the `ToUint8` conversion of non-integer or non-numeric data is not modelled; integers are reduced modulo 256.
- The scene presets built with `Math.sin` and with the soil, wood and seed ids are not modelled one by one; their building blocks `fillRect`, `bandFill`, `sprinkle` and the blank slate are.
- The presets' `grid.length / width` is taken to be the integer height; a length that is not a multiple of the width is not modelled.
- The soil, wood, seed and steam cases of `stepGrid` cannot be reached, since no id maps to those kinds, and the unused `tryMove` helper is dead code; neither is modelled.
- Board.CanvasBoard.StepOnce: requires both buffers to have the board's size (`Sized`). The code does not guarantee that, because `hydrateGrid` accepts data of any length, and a short grid is not modelled here.
- Board.CanvasBoard.Render: requires `Sized` as `StepOnce` does; a tick after loading short data is not modelled.
- Board.CanvasBoard.Pointer: requires `Sized`; after loading short data a typed array ignores brush stores past its end, which is not modelled.
- Board.CanvasBoard.PointerDown: requires `Sized` for the same reason as `Pointer`.
- `setLanguage`, the provider's state, `bootstrapLanguage` and the `document` language attribute write to the page and to storage; only detection and lookup are modelled.
- I18n.Lower: lower-casing covers ASCII letters only.
- I18n.Dictionary: looking up an inherited name such as "toString" in the dictionaries object gives `undefined` here, not the inherited function.
- The Zustand `create` machinery, the theme store and the React components other than the board are outside the core.
