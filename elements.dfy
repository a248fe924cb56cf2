/** The element table (src/simulation/elements.ts): the `ELEMENTS` record,
    the reverse map `ELEMENT_BY_ID` folded from its entries, and `PALETTE`.
    Only six of the ten declared kinds have a record; `Lookup` yields `None`
    for soil, wood, seed and steam, where the source yields `undefined`. */
module Elements {
  import opened Types

  /** The entries of the `ELEMENTS` object literal, in insertion order
      (the order `Object.entries` enumerates them). */
  const ENTRIES: seq<(ElementKey, ElementConfig)> := [
    (Empty, ElementConfig(0, "Empty", Rgb(12, 18, 30), 0, None, Some(true), None, None, None)),
    (Sand, ElementConfig(1, "Sand", Rgb(228, 181, 92), 4, None, None, None, None, None)),
    (Water, ElementConfig(2, "Water", Rgb(64, 156, 255), 1, Some(2), None, None, None, None)),
    (Stone, ElementConfig(3, "Stone", Rgb(90, 105, 120), 8, None, Some(true), None, None, None)),
    (Plant, ElementConfig(4, "Plant", Rgb(96, 168, 92), 3, None, None, Some(true), None, None)),
    (Fire, ElementConfig(5, "Fire", Rgb(255, 112, 64), 0, None, None, None, Some(-1), Some(24)))
  ]

  /** The keys of `ENTRIES`. */
  const DEFINED: set<ElementKey> := {Empty, Sand, Water, Stone, Plant, Fire}

  const PALETTE: seq<ElementKey> := [Sand, Water, Stone, Plant, Fire, Empty]

  function LookupIn(entries: seq<(ElementKey, ElementConfig)>, k: ElementKey): Option<ElementConfig>
  {
    if |entries| == 0 then None
    else if entries[0].0 == k then Some(entries[0].1)
    else LookupIn(entries[1..], k)
  }

  /** `ELEMENTS[k]`. */
  function Lookup(k: ElementKey): (r: Option<ElementConfig>)
    ensures r.Some? <==> k in DEFINED
    ensures r.Some? ==> 0 <= r.value.id <= 5
  {
    LookupIn(ENTRIES, k)
  }

  /** The `reduce` that builds `ELEMENT_BY_ID`: each entry stores its key
      under its id, later entries overriding earlier ones. */
  function FoldById(entries: seq<(ElementKey, ElementConfig)>, acc: map<int, ElementKey>): map<int, ElementKey>
  {
    if |entries| == 0 then acc
    else FoldById(entries[1..], acc[entries[0].1.id := entries[0].0])
  }

  /** `ELEMENT_BY_ID`: exactly the ids 0 to 5 have a kind. */
  function ElementById(): (m: map<int, ElementKey>)
    ensures m == map[0 := Empty, 1 := Sand, 2 := Water, 3 := Stone, 4 := Plant, 5 := Fire]
  {
    var e := ENTRIES;
    assert FoldById(e[6..], map[0 := Empty, 1 := Sand, 2 := Water, 3 := Stone, 4 := Plant, 5 := Fire])
        == map[0 := Empty, 1 := Sand, 2 := Water, 3 := Stone, 4 := Plant, 5 := Fire];
    assert FoldById(e[5..], map[0 := Empty, 1 := Sand, 2 := Water, 3 := Stone, 4 := Plant])
        == FoldById(e[6..], map[0 := Empty, 1 := Sand, 2 := Water, 3 := Stone, 4 := Plant, 5 := Fire]);
    assert FoldById(e[4..], map[0 := Empty, 1 := Sand, 2 := Water, 3 := Stone])
        == FoldById(e[5..], map[0 := Empty, 1 := Sand, 2 := Water, 3 := Stone, 4 := Plant]);
    assert FoldById(e[3..], map[0 := Empty, 1 := Sand, 2 := Water])
        == FoldById(e[4..], map[0 := Empty, 1 := Sand, 2 := Water, 3 := Stone]);
    assert FoldById(e[2..], map[0 := Empty, 1 := Sand])
        == FoldById(e[3..], map[0 := Empty, 1 := Sand, 2 := Water]);
    assert FoldById(e[1..], map[0 := Empty]) == FoldById(e[2..], map[0 := Empty, 1 := Sand]);
    assert FoldById(e, map[]) == FoldById(e[1..], map[0 := Empty]);
    FoldById(ENTRIES, map[])
  }

  /** `ELEMENT_BY_ID[id]`, `None` standing for `undefined`. */
  function KeyOfId(id: int): Option<ElementKey>
  {
    if id in ElementById() then Some(ElementById()[id]) else None
  }

  /** The six defined kinds carry the pairwise distinct ids 0 to 5, empty being 0. */
  lemma {:induction false} IdsDistinct(k1: ElementKey, k2: ElementKey)
    requires k1 in DEFINED && k2 in DEFINED
    ensures Lookup(k1).Some? && Lookup(k2).Some?
    ensures 0 <= Lookup(k1).value.id <= 5
    ensures Lookup(k1).value.id == Lookup(k2).value.id <==> k1 == k2
    ensures Lookup(Empty) == Some(ENTRIES[0].1) && Lookup(Empty).value.id == 0
  {
  }

  /** The reverse map inverts the table: `ELEMENT_BY_ID[ELEMENTS[k].id] == k`. */
  lemma ByIdInvertsTable(k: ElementKey)
    requires k in DEFINED
    ensures Lookup(k).Some? && KeyOfId(Lookup(k).value.id) == Some(k)
  {
  }

  /** Every id outside 0 to 5 has no kind, and every id inside has one
      whose record carries that id. */
  lemma ByIdDomain(id: int)
    ensures KeyOfId(id).Some? <==> 0 <= id <= 5
    ensures KeyOfId(id).Some? ==> Lookup(KeyOfId(id).value).Some? && Lookup(KeyOfId(id).value).value.id == id
  {
  }

  /** The four kinds the type declares beyond the table have no id at all. */
  lemma UndefinedKindsHaveNoId(id: int)
    ensures KeyOfId(id) != Some(Soil) && KeyOfId(id) != Some(Wood)
    ensures KeyOfId(id) != Some(Seed) && KeyOfId(id) != Some(Steam)
  {
  }

  /** The palette lists six distinct defined keys and ends with the eraser. */
  lemma PaletteWellFormed()
    ensures |PALETTE| == 6 && PALETTE[5] == Empty
    ensures forall i :: 0 <= i < |PALETTE| ==> PALETTE[i] in DEFINED && Lookup(PALETTE[i]).Some?
    ensures forall i, j :: 0 <= i < j < |PALETTE| ==> PALETTE[i] != PALETTE[j]
    ensures forall k :: k in DEFINED ==> k in PALETTE
  {
  }

  /** Only the empty and the stone records set `isStatic`. */
  lemma StaticKinds(k: ElementKey)
    ensures (Lookup(k).Some? && Lookup(k).value.isStatic == Some(true)) <==> (k == Empty || k == Stone)
  {
  }
}
