// Shared vocabulary: optional results, bytes and the u64 bound.
module Basics {
  datatype Option<+T> = None | Some(value: T)

  type byte = x: int | 0 <= x < 256
  type bytes = seq<byte>

  const U64_MAX := 0xFFFF_FFFF_FFFF_FFFF
}
