/**
 Built-in common functions of the OpenGL ES Shading Language, version 1.00,
 section 8.3 ("Common Functions"), on scalars, over exact reals.

 - clamp(x, minVal, maxVal) = min(max(x, minVal), maxVal); undefined when minVal > maxVal.
 - smoothstep(edge0, edge1, x): with t = clamp((x - edge0) / (edge1 - edge0), 0, 1),
   the result is t * t * (3 - 2 * t); undefined when edge0 >= edge1.
 */
module Glsl {
  import opened MinMax

  /** GLSL `clamp`: the standard leaves it undefined when lo > hi. */
  function Clamp(x: real, lo: real, hi: real): (r: real)
    requires lo <= hi
    ensures lo <= r <= hi
    ensures lo <= x <= hi ==> r == x
    ensures x < lo ==> r == lo
    ensures hi < x ==> r == hi
  {
    Min(Max(x, lo), hi)
  }

  /** Clamping never moves two points further apart, and keeps their order. */
  lemma ClampContracts(a: real, b: real, lo: real, hi: real)
    requires lo <= hi
    requires a <= b
    ensures Clamp(a, lo, hi) <= Clamp(b, lo, hi)
    ensures Clamp(b, lo, hi) - Clamp(a, lo, hi) <= b - a
  {
  }

  /** The Hermite polynomial t * t * (3 - 2 * t) of `smoothstep`. */
  function Hermite(t: real): real
  {
    t * t * (3.0 - 2.0 * t)
  }

  /** GLSL `smoothstep`: the standard leaves it undefined when e0 >= e1. */
  function Smoothstep(e0: real, e1: real, x: real): (r: real)
    requires e0 < e1
    ensures 0.0 <= r <= 1.0
    ensures x <= e0 ==> r == 0.0
    ensures e1 <= x ==> r == 1.0
  {
    var u := (x - e0) / (e1 - e0);
    DivideByPositive(x - e0, e1 - e0);
    var t := Clamp(u, 0.0, 1.0);
    HermiteRange(t);
    Hermite(t)
  }

  /** Where n / d sits relative to 0 and 1 for a positive d. */
  lemma DivideByPositive(n: real, d: real)
    requires 0.0 < d
    ensures n <= 0.0 ==> n / d <= 0.0
    ensures 0.0 <= n ==> 0.0 <= n / d
    ensures n <= d ==> n / d <= 1.0
    ensures d <= n ==> 1.0 <= n / d
  {
    assert (n / d) * d == n;
  }

  lemma Square(x: real)
    ensures 0.0 <= x * x
  {
    if x < 0.0 {
      MulMono(-x, 0.0, -x);
      assert (-x) * (-x) == x * x;
    } else {
      MulMono(x, 0.0, x);
    }
  }

  lemma MulMono(x: real, y: real, z: real)
    requires 0.0 <= x
    requires y <= z
    ensures x * y <= x * z
  {
    assert x * z - x * y == x * (z - y);
  }

  lemma HermiteRange(t: real)
    requires 0.0 <= t <= 1.0
    ensures 0.0 <= Hermite(t) <= 1.0
    ensures t == 0.0 ==> Hermite(t) == 0.0
    ensures t == 1.0 ==> Hermite(t) == 1.0
  {
    var c := 1.0 - t;
    MulMono(t, t, 1.0);
    assert 0.0 <= t * t;
    MulMono(t * t, 0.0, 3.0 - 2.0 * t);
    assert 1.0 - Hermite(t) == c * c * (1.0 + 2.0 * t);
    Square(c);
    MulMono(c * c, 0.0, 1.0 + 2.0 * t);
  }

  /** The difference quotient of the Hermite polynomial between a and b. */
  function HermiteQuotient(a: real, b: real): real
  {
    3.0 * (a + b) - 2.0 * (a * a + a * b + b * b)
  }

  lemma HermiteDifference(a: real, b: real)
    ensures Hermite(b) - Hermite(a) == (b - a) * HermiteQuotient(a, b)
  {
  }

  /** On [0, 1] the difference quotient lies in [0, 3/2]. */
  lemma HermiteQuotientBounds(a: real, b: real)
    requires 0.0 <= a <= 1.0 && 0.0 <= b <= 1.0
    ensures 0.0 <= HermiteQuotient(a, b) <= 1.5
  {
    var aa, ab, bb := a * a, a * b, b * b;
    var q := HermiteQuotient(a, b);
    assert q == 3.0 * (a + b) - 2.0 * (aa + ab + bb);
    // lower bound: a*a <= a, b*b <= b, a*b <= a and a*b <= b
    assert aa <= a by { MulMono(a, a, 1.0); }
    assert bb <= b by { MulMono(b, b, 1.0); }
    assert ab <= a by { MulMono(a, b, 1.0); }
    assert ab <= b by { MulMono(b, a, 1.0); }
    assert 0.0 <= q;
    // upper bound: 3/2 - q == 3/2 * (1 - s)^2 + 1/2 * (a - b)^2
    var s := a + b;
    var x, y := (1.0 - s) * (1.0 - s), (a - b) * (a - b);
    assert 0.0 <= x by { Square(1.0 - s); }
    assert 0.0 <= y by { Square(a - b); }
    assert 1.5 - q == 1.5 * x + 0.5 * y;
  }

  /**
   On [0, 1] the Hermite polynomial is non-decreasing and its slope is at most 3/2:
   for a <= b, 0 <= H(b) - H(a) <= 3/2 * (b - a).
   */
  lemma HermiteSlope(a: real, b: real)
    requires 0.0 <= a <= b <= 1.0
    ensures 0.0 <= Hermite(b) - Hermite(a) <= 1.5 * (b - a)
  {
    var d, f := b - a, HermiteQuotient(a, b);
    var diff := Hermite(b) - Hermite(a);
    assert diff == d * f by { HermiteDifference(a, b); }
    assert 0.0 <= f <= 1.5 by { HermiteQuotientBounds(a, b); }
    assert 0.0 <= d * f by { MulMono(d, 0.0, f); }
    assert d * f <= d * 1.5 by { MulMono(d, f, 1.5); }
  }

  /** `smoothstep` is non-decreasing in x. */
  lemma SmoothstepMonotone(e0: real, e1: real, a: real, b: real)
    requires e0 < e1
    requires a <= b
    ensures Smoothstep(e0, e1, a) <= Smoothstep(e0, e1, b)
  {
    SmoothstepSlope(e0, e1, a, b);
  }

  /**
   `smoothstep` is continuous: its values at two points differ by at most
   3/2 * (b - a) / (e1 - e0).
   */
  lemma SmoothstepSlope(e0: real, e1: real, a: real, b: real)
    requires e0 < e1
    requires a <= b
    ensures 0.0 <= Smoothstep(e0, e1, b) - Smoothstep(e0, e1, a)
    ensures Smoothstep(e0, e1, b) - Smoothstep(e0, e1, a) <= 1.5 * (b - a) / (e1 - e0)
  {
    var w := e1 - e0;
    var ua, ub := (a - e0) / w, (b - e0) / w;
    assert ub - ua == (b - a) / w by { SubtractQuotients(a - e0, b - e0, w); }
    assert ua <= ub by { DivideByPositive(b - a, w); }
    assert Smoothstep(e0, e1, b) - Smoothstep(e0, e1, a)
      == Hermite(Clamp(ub, 0.0, 1.0)) - Hermite(Clamp(ua, 0.0, 1.0)) by {
      SmoothstepUnfold(e0, e1, a);
      SmoothstepUnfold(e0, e1, b);
    }
    ClampedHermiteSlope(ua, ub);
    assert 1.5 * (ub - ua) == 1.5 * (b - a) / w by { ScaleQuotient(1.5, b - a, w); }
  }

  /** The Hermite polynomial of clamped arguments rises by at most 3/2 of their distance. */
  lemma ClampedHermiteSlope(u: real, v: real)
    requires u <= v
    ensures 0.0 <= Hermite(Clamp(v, 0.0, 1.0)) - Hermite(Clamp(u, 0.0, 1.0)) <= 1.5 * (v - u)
  {
    var tu, tv := Clamp(u, 0.0, 1.0), Clamp(v, 0.0, 1.0);
    assert tu <= tv && tv - tu <= v - u by { ClampContracts(u, v, 0.0, 1.0); }
    HermiteSlope(tu, tv);
  }

  lemma SmoothstepUnfold(e0: real, e1: real, x: real)
    requires e0 < e1
    ensures Smoothstep(e0, e1, x) == Hermite(Clamp((x - e0) / (e1 - e0), 0.0, 1.0))
  {
  }

  lemma SubtractQuotients(m: real, n: real, w: real)
    requires 0.0 < w
    ensures n / w - m / w == (n - m) / w
  {
  }

  lemma ScaleQuotient(c: real, x: real, w: real)
    requires 0.0 < w
    ensures c * (x / w) == c * x / w
  {
  }
}
