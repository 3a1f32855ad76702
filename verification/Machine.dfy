/** The machine the sources are compiled for. */
module Machine {
  const SIZE_MAX: nat := 0xFFFF_FFFF_FFFF_FFFF
}
