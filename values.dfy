/** Value shapes shared by the components: bytes and Python floats. */
module Values {

  newtype byte = x: int | 0 <= x < 256

  /** A byte payload (a file part, a rendered document, a blob). */
  type Bytes = seq<byte>

  /** A Python float. Its arithmetic is never performed by the model: parsing,
      rounding and formatting are supplied as functions. */
  datatype Float = Finite(value: real) | NaN | Infinity(negative: bool)

  /** The message of the `IndexError` a list subscript past the end raises. */
  const IndexError := "list index out of range"
}
