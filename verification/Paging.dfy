/** Arithmetic of pages that several loops share. */
module Paging {

  function Min(a: int, b: int): int {
    if a < b then a else b
  }

  function Max(a: int, b: int): int {
    if a < b then b else a
  }

  /** How far `n` full pages reach: `n * size`, without a product of two variables. */
  function Reach(n: nat, size: nat): nat {
    if n == 0 then 0 else Reach(n - 1, size) + size
  }

  lemma {:induction false} ReachIsProduct(n: nat, size: nat)
    ensures Reach(n, size) == n * size
  {
    if n > 0 { ReachIsProduct(n - 1, size); }
  }
}
