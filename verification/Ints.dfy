/** Machine integers: two's complement wrap-around. */
module Ints {
  datatype Width = W32 | W64

  /** Half the number of values: the largest is one less. */
  function Half(w: Width): int { match w case W32 => 0x8000_0000 case W64 => 0x8000_0000_0000_0000 }

  /** The value of `n` as a signed integer of the given width. */
  function Wrap(w: Width, n: int): int { (n + Half(w)) % (2 * Half(w)) - Half(w) }
}
