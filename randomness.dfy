/** The `random(min, max)` helper. `Math.random()` becomes a fixed stream of
    samples in [0, 1) that the source reads one at a time, so every run of
    the model is determined by the stream it is given. */
module Randomness {

  /** True when every sample of the stream lies in [0, 1), as `Math.random()`
      promises. */
  ghost predicate UnitStream(sample: nat -> real)
  {
    forall n :: 0.0 <= sample(n) < 1.0
  }

  /** `random(min, max)` applied to the sample `u`. */
  function Scale(u: real, min: real, max: real): (r: real)
    requires 0.0 <= u < 1.0
    ensures min <= max ==> min <= r <= max
    ensures min < max ==> r < max
  {
    var w := max - min;
    assert w >= 0.0 ==> u * w >= 0.0 && (1.0 - u) * w >= 0.0 by {
      if w >= 0.0 { MulNonNeg(u, w); MulNonNeg(1.0 - u, w); }
    }
    assert w > 0.0 ==> (1.0 - u) * w > 0.0 by { if w > 0.0 { MulPos(1.0 - u, w); } }
    u * w + min
  }

  lemma MulNonNeg(a: real, b: real)
    requires a >= 0.0 && b >= 0.0
    ensures a * b >= 0.0
  {
  }

  lemma MulPos(a: real, b: real)
    requires a > 0.0 && b > 0.0
    ensures a * b > 0.0
  {
  }

  class RandomSource {
    const sample: nat -> real
    /** How many samples have been taken so far. */
    var drawn: nat

    ghost predicate Valid()
    {
      UnitStream(sample)
    }

    constructor (sample: nat -> real)
      requires UnitStream(sample)
      ensures Valid() && this.sample == sample && drawn == 0
    {
      this.sample := sample;
      drawn := 0;
    }

    /** `random(min, max)`: the next sample, scaled into [min, max). */
    method Random(min: real, max: real) returns (r: real)
      requires Valid()
      modifies this`drawn
      ensures drawn == old(drawn) + 1
      ensures r == Scale(sample(old(drawn)), min, max)
      ensures min <= max ==> min <= r <= max
      ensures min < max ==> r < max
    {
      r := Scale(sample(drawn), min, max);
      drawn := drawn + 1;
    }
  }
}
