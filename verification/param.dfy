/**
 The sizes of param.h that more than one part of the kernel depends on.
 */
module Param {
  const MAXOPBLOCKS: nat := 10
  const LOGBLOCKS: nat := MAXOPBLOCKS * 3
  const NBUF: nat := MAXOPBLOCKS * 3
}
