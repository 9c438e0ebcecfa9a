/** The ranges of the 64-bit integers. */
module Limits {
  const INT64_MIN := -0x8000_0000_0000_0000
  const INT64_MAX := 0x7fff_ffff_ffff_ffff
  const UINT64_MAX := 0xffff_ffff_ffff_ffff
}
