/** The kind enumeration and the element record (src/simulation/types.ts),
    plus the two small value types every other module shares. */
module Types {

  datatype Option<+T> = None | Some(value: T)

  /** `Math.random`: the answer to the n-th call, counting from 0. */
  type Oracle = nat -> real

  /** One cell of a Uint8Array grid. */
  newtype byte = x: int | 0 <= x < 256

  /** Every kind the type declares; the element table defines only six of them. */
  datatype ElementKey =
    | Empty | Sand | Water | Stone | Plant | Fire
    | Soil | Wood | Seed | Steam

  datatype Rgb = Rgb(r: byte, g: byte, b: byte)

  /** The element record: `Option` fields are the optional properties. */
  datatype ElementConfig = ElementConfig(
    id: int,
    name: string,
    color: Rgb,
    density: int,
    fluidity: Option<int>,
    isStatic: Option<bool>,
    flammable: Option<bool>,
    drift: Option<int>,
    coolDown: Option<int>
  )
}
