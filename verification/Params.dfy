/** Constants of the kernel that more than one component uses (param.h, fs.h, mmu.h). */
module Params {
  const MAXOPBLOCKS := 10
  const LOGSIZE := 30
  const FSSIZE := 1000

  const BSIZE := 512
  // A block seen as an array of 4-byte integers.
  const BLOCKWORDS := 128

  const NDIRECT := 12
  const NINDIRECT := 128
  const MAXFILE := 140
  // MAXFILE * BSIZE
  const MAXBYTES := 71680

  const UINT_MOD := 0x1_0000_0000
}
