/** Floating-point helpers, over exact reals. */
module Reals {

  const EPSILON: real := 1.0 / 4503599627370496.0  // f64::EPSILON, 2^-52

  lemma EpsilonIsPowerOfTwo()
    ensures EPSILON * (1_048_576.0 * 1_048_576.0 * 4096.0) == 1.0
  {}

  function Abs(x: real): real {
    if x < 0.0 then -x else x
  }

  function Min(x: real, y: real): real {
    if x < y then x else y
  }

  function Max(x: real, y: real): real {
    if x < y then y else x
  }
}
