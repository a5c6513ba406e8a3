/** Bytes and blocks, for the modules on the file system. */
module Disk {
  const BLOCK_SIZE: nat := 512
  const NDBLOCK_PTRS: nat := 10

  type Byte = b: int | 0 <= b < 256

  type Block = b: seq<Byte> | |b| == BLOCK_SIZE witness seq(BLOCK_SIZE, _ => 0)
}
