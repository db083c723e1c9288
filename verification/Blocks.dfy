/** Disk blocks as the file system sees them (kernel/fs.h, kernel/buf.h). */
module Blocks {
  // BSIZE is 1024 bytes; a block is kept as its 256 32-bit words, the unit in
  // which the log header is laid out.
  type Block = b: seq<int> | |b| == 256 witness seq(256, _ => 0)

  // The disk, addressed by block number alone as the disk driver addresses it.
  type Disk = map<nat, Block>
}
