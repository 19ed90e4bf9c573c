/** Shared types: optional values and byte strings. */
module Prelude {
  datatype Option<T> = None | Some(value: T)

  type byte = x: int | 0 <= x < 256
  type Bytes = seq<byte>

  const MAX_UINT64 := 0xffff_ffff_ffff_ffff
}
