/** Sequence helpers shared by the two bounded histories. */
module Sequences {
  /** The last `n` of `s`. */
  function LastN<T>(s: seq<T>, n: nat): seq<T> {
    if |s| <= n then s else s[|s| - n..]
  }
}
