/** Sizes of kernel tables that several components share. */
module Params {
  const NPROC: nat := 64
  const NVMA: nat := 5
}
