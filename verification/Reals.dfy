/** Products and sums of reals, shared by the engine's modules. */
module Reals {
  function Times(a: real, b: real): real { a * b }

  /** `a[0] + ... + a[k-1]`. */
  ghost function Sum(a: seq<real>, k: nat): real
    requires k <= |a|
  {
    if k == 0 then 0.0 else Sum(a, k - 1) + a[k - 1]
  }
}
