/** Numbers that several models use. */
module Arithmetic {
  function Pow2(k: nat): (p: nat)
    ensures p > 0
  {
    if k == 0 then 1 else 2 * Pow2(k - 1)
  }

  function MB(bytes: nat): real { bytes as real / 1048576.0 }
}
