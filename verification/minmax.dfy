/**
 The minimum and maximum used across the model: JavaScript's `Math.min` in the
 layout, GLSL's `min` and `max` inside `clamp`, and the natural-number minimum that
 bounds the ripple history's length.
 */
module MinMax {

  function Min(a: real, b: real): real { if a <= b then a else b }

  function Max(a: real, b: real): real { if a <= b then b else a }

  function MinNat(a: nat, b: nat): nat { if a <= b then a else b }
}
