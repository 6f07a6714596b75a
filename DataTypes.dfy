/** Value types shared by every module of the model. */
module DataTypes {

  /** One element of a `Uint8Array`. */
  type Byte = b: int | 0 <= b < 256

  /** The encoding tag of a setting (the `DataType` enum of the source). */
  datatype DataType = STR | INT | SIGNED_INT | BIT | ENUM

  /**
   * A JavaScript value handed to `RetroTinkSettingValue.set`, classified by `typeof`.
   * Numbers are integers here; `Other` stands for every other shape (arrays, objects, null).
   */
  datatype Primitive = Str(s: string) | Num(n: int) | Bool(b: bool) | Other

  /** The primitives that the `setValue(name, value)` overload accepts: string, number, boolean. */
  type JsPrimitive = p: Primitive | !p.Other? witness Num(0)
}
