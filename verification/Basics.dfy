/** Vocabulary shared by the models of the ledger service. */
module Basics {
  datatype Option<+T> = None | Some(value: T)
}

/** Go's int64 arithmetic, written over unbounded integers. */
module GoInt64 {
  const MAX: int := 0x7fff_ffff_ffff_ffff
  const MIN: int := -0x8000_0000_0000_0000
  const MODULUS: int := 0x1_0000_0000_0000_0000

  predicate InRange(x: int) {
    MIN <= x <= MAX
  }

  /** The int64 that Go stores when an operation's exact result is `x`. */
  function Wrap(x: int): (r: int)
    ensures InRange(r)
    ensures r == x <==> InRange(x)
    ensures (x - r) % MODULUS == 0
  {
    (x - MIN) % MODULUS + MIN
  }
}
