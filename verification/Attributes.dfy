/** What files carry: bytes, permission bits, and timestamps in nanoseconds
    with the whole seconds they are compared and archived at. */
module Attributes {
  type Mode = bv12
  type Bytes = seq<bv8>

  const NANOS := 1_000_000_000

  /** int(st_mtime), back in nanoseconds: truncated towards zero. */
  function WholeSeconds(ns: int): int {
    if ns >= 0 then ns / NANOS * NANOS else -(-ns / NANOS * NANOS)
  }

  /** Whole seconds, less than one of them off, and on the side of zero. */
  lemma WholeSecondsExactly(ns: int, s: int)
    ensures WholeSeconds(ns) == s <==>
      s % 1_000_000_000 == 0 && if ns >= 0 then 0 <= ns - s < 1_000_000_000 && s >= 0 else 0 <= s - ns < 1_000_000_000 && s <= 0
  {
  }

  lemma WholeSecondsAgain(ns: int)
    ensures WholeSeconds(WholeSeconds(ns)) == WholeSeconds(ns)
  {
  }
}
