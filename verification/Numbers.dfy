/** Functions on natural numbers shared by the models. */
module Numbers {
  function Min(a: nat, b: nat): nat {
    if a <= b then a else b
  }

  function Pow2(k: nat): (p: nat)
    ensures p > 0
  {
    if k == 0 then 1 else 2 * Pow2(k - 1)
  }
}
