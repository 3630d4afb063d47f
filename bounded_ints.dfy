/** Fixed-width machine integers used by both components, as subsets of `nat`. */
module BoundedInts {

  /** 2^64, one past the largest `uint64`. */
  const UINT64_LIMIT: nat := 0x1_0000_0000_0000_0000

  /** Go's `uint64`: arithmetic on it must spell out its wrap-around. */
  type uint64 = x: nat | x < 0x1_0000_0000_0000_0000

  /** Go's `byte`. */
  type byte = b: nat | b < 0x100
}
