/** Constants of param.h, fs.h and mmu.h that several modules share. */
module Params {
  const MAXOPBLOCKS := 10  // distinct blocks an operation may log
  const NBUF := 3 * MAXOPBLOCKS  // buffers in the cache
  const BSIZE := 512       // bytes in a disk block
  const PGSIZE := 0x1000   // bytes in a page
}
