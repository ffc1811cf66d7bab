/**
 * Index arithmetic for fixed-stride layouts. An offset such as n*W or
 * SIMPLEX_BUFFER_SIZE*i is written `Blocks(n, size)`, the slots taken by n
 * consecutive blocks, so that the proofs about layouts stay linear.
 */
module Arith {

  /** The slots taken by n consecutive blocks of `size` slots. */
  function Blocks(n: nat, size: nat): nat
  {
    if n == 0 then 0 else Blocks(n - 1, size) + size
  }

  /** n blocks of `size` slots take n*size slots. */
  lemma {:induction false} BlocksIsProduct(n: nat, size: nat)
    ensures Blocks(n, size) == n * size
  {
    if n > 0 {
      BlocksIsProduct(n - 1, size);
      assert n * size == (n - 1) * size + size;
    }
  }

  /** Block i ends at or before block j starts, when i < j. */
  lemma {:induction false} BlockBelow(size: nat, i: nat, j: nat)
    requires i < j
    ensures Blocks(i, size) + size <= Blocks(j, size)
    decreases j - i
  {
    if i + 1 < j {
      BlockBelow(size, i, j - 1);
    }
  }
}
