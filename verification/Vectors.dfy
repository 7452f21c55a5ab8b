/** Activation vectors. Reals stand in for 32-bit floats: rounding is not modelled. */
module Vectors {
  type Vec = seq<real>

  ghost function Sum(xs: seq<real>): real {
    if xs == [] then 0.0 else Sum(xs[..|xs| - 1]) + xs[|xs| - 1]
  }

  /** `a + scale * b`, channel by channel. */
  function Axpy(scale: real, a: Vec, b: Vec): Vec
    requires |a| == |b|
  {
    seq(|a|, i requires 0 <= i < |a| => a[i] + scale * b[i])
  }
}
