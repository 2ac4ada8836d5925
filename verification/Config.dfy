/** Sizes that several parts of the kernel share. */
module Config {
  const NPROC := 32  // process slots
}
