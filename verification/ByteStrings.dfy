/** Byte strings: paths, URIs and stream contents before any text decoding. */
module ByteStrings {
  newtype byte = b: int | 0 <= b < 256

  type Bytes = seq<byte>
}
