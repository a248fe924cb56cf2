/** The save format (src/simulation/engine.ts:237-252).  `serializeGrid`
    writes the record `{width, height, data}` as JSON text and
    `hydrateGrid` reads it back.  The JSON text itself is not modelled:
    `Serialize` yields the record, and `Hydrate` takes what `JSON.parse`
    made of the text, `None` standing for text that does not parse to such
    a record. */
module Codec {
  import opened Types

  datatype Payload = Payload(width: int, height: int, data: seq<int>)

  /** `serializeGrid`: the dimensions and every cell, in order. */
  function Serialize(g: seq<byte>, width: int, height: int): (p: Payload)
    ensures p.width == width && p.height == height && |p.data| == |g|
    ensures forall i :: 0 <= i < |g| ==> p.data[i] == g[i] as int
  {
    Payload(width, height, seq(|g|, i requires 0 <= i < |g| => g[i] as int))
  }

  /** The byte a `Uint8Array` stores for an integer: its value modulo 256. */
  function ToByte(v: int): (b: byte)
    ensures 0 <= v < 256 ==> b as int == v
    ensures (b as int - v) % 256 == 0
  {
    (v % 256) as byte
  }

  /** `hydrateGrid`: `None` for text that does not parse and for a record
      of other dimensions; otherwise the data, byte by byte.  The length of
      the data is not checked. */
  function Hydrate(parsed: Option<Payload>, width: int, height: int): (r: Option<seq<byte>>)
    ensures r.Some? <==> parsed.Some? && parsed.value.width == width && parsed.value.height == height
    ensures r.Some? ==> |r.value| == |parsed.value.data|
    ensures r.Some? ==> forall i :: 0 <= i < |r.value| ==> (r.value[i] as int - parsed.value.data[i]) % 256 == 0
  {
    match parsed
    case None => None
    case Some(p) =>
      if p.width != width || p.height != height then None
      else Some(seq(|p.data|, i requires 0 <= i < |p.data| => ToByte(p.data[i])))
  }

  /** Loading what was saved gives the grid back. */
  lemma RoundTrip(g: seq<byte>, width: int, height: int)
    ensures Hydrate(Some(Serialize(g, width, height)), width, height) == Some(g)
  {
    var r := Hydrate(Some(Serialize(g, width, height)), width, height);
    assert r.value == g;
  }

  /** A record saved for other dimensions is refused, whatever it holds. */
  lemma OtherDimensionsRefused(g: seq<byte>, w: int, h: int, width: int, height: int)
    requires w != width || h != height
    ensures Hydrate(Some(Serialize(g, w, h)), width, height) == None
  {
  }

  /** Only the dimensions are checked: a record with the right ones and
      too little data still loads, as a grid of the wrong length. */
  lemma ShortDataAccepted(width: int, height: int)
    requires width * height > 0
    ensures Hydrate(Some(Payload(width, height, [])), width, height) == Some([])
  {
  }
}
