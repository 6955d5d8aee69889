/**
 The ripple fragment shader of main.js. For a pixel at texture coordinate uv, every
 uniform slot i below `uRippleCount` whose impulse is at most 8 seconds old adds a
 displacement `ripple(uv, center, age)`; the pixel shows the texture at uv plus the
 total displacement.

 `sin`, `length`, `normalize` and texture sampling are GPU numerics; they are kept
 uninterpreted, as fields of a `Numerics` record, and only `length >= 0` is assumed.
 */
module RippleShader {
  import opened Glsl
  import opened RippleBuffer

  /** `const float radius = 0.15`. */
  const Radius: real := 0.15
  /** Impulses older than this many seconds are skipped by the loop. */
  const MaxAge: real := 8.0
  /** The fade envelope reaches 0 after this many seconds. */
  const FadeTime: real := 12.0

  datatype Vec2 = Vec2(x: real, y: real)

  const Zero := Vec2(0.0, 0.0)

  function Add(a: Vec2, b: Vec2): Vec2 { Vec2(a.x + b.x, a.y + b.y) }

  function Times(v: Vec2, k: real): Vec2 { Vec2(v.x * k, v.y * k) }

  /** The built-ins the model does not interpret: `sin`, `length` and `normalize`. */
  datatype Numerics = Numerics(sin: real -> real, length: Vec2 -> real, normalize: Vec2 -> Vec2)

  /** A Euclidean length is never negative. */
  ghost predicate Sound(nm: Numerics)
  {
    forall v :: nm.length(v) >= 0.0
  }

  /** `gl_FragCoord.xy / uResolution`: a fragment inside the viewport has uv in the unit square. */
  function FragUv(frag: Vec2, resolution: Vec2): (uv: Vec2)
    requires 0.0 < resolution.x && 0.0 < resolution.y
    ensures 0.0 <= frag.x <= resolution.x ==> 0.0 <= uv.x <= 1.0
    ensures 0.0 <= frag.y <= resolution.y ==> 0.0 <= uv.y <= 1.0
    ensures uv.x * resolution.x == frag.x && uv.y * resolution.y == frag.y
  {
    DivideByPositive(frag.x, resolution.x);
    DivideByPositive(frag.y, resolution.y);
    Vec2(frag.x / resolution.x, frag.y / resolution.y)
  }

  /**
   `fade = clamp(1.0 - age / 12.0, 0.0, 1.0)`: full strength for a new impulse,
   falling linearly to nothing at 12 seconds.
   */
  function Fade(age: real): (f: real)
    ensures 0.0 <= f <= 1.0
    ensures age <= 0.0 ==> f == 1.0
    ensures FadeTime <= age ==> f == 0.0
    ensures 0.0 <= age <= FadeTime ==> f * FadeTime == FadeTime - age
  {
    Clamp(1.0 - age / FadeTime, 0.0, 1.0)
  }

  /** The fade envelope never grows with age. */
  lemma FadeMonotone(a: real, b: real)
    requires a <= b
    ensures Fade(b) <= Fade(a)
  {
    ClampContracts(1.0 - b / FadeTime, 1.0 - a / FadeTime, 0.0, 1.0);
  }

  /**
   `mask = pow(1.0 - smoothstep(radius * 0.5, radius, dist), 2.0)`: 1 within half
   the radius of the impulse, 0 from the radius outward. The base of `pow` lies in
   [0, 1], where `pow(x, 2.0)` is x * x.
   */
  function Mask(dist: real): (m: real)
    ensures 0.0 <= m <= 1.0
    ensures dist <= Radius * 0.5 ==> m == 1.0
    ensures Radius <= dist ==> m == 0.0
  {
    var c := 1.0 - MaskEdge(dist);
    MulMono(c, c, 1.0);
    MulMono(c, 0.0, c);
    c * c
  }

  /** The mask never grows with distance. */
  lemma MaskMonotone(a: real, b: real)
    requires a <= b
    ensures Mask(b) <= Mask(a)
  {
    MaskSlope(a, b);
  }

  /**
   The mask is continuous, with no jump at half the radius or anywhere else: between
   two distances it changes by at most 40 times their difference.
   */
  lemma MaskSlope(a: real, b: real)
    requires a <= b
    ensures 0.0 <= Mask(a) - Mask(b) <= 40.0 * (b - a)
  {
    var sa, sb := MaskEdge(a), MaskEdge(b);
    assert 0.0 <= sb - sa <= 20.0 * (b - a) by { MaskEdgeSlope(a, b); }
    assert Mask(a) == (1.0 - sa) * (1.0 - sa) && Mask(b) == (1.0 - sb) * (1.0 - sb);
    SquaresApart(1.0 - sb, 1.0 - sa, 20.0 * (b - a));
  }

  /** The `smoothstep(radius * 0.5, radius, dist)` inside the mask. */
  function MaskEdge(dist: real): real
  {
    Smoothstep(Radius * 0.5, Radius, dist)
  }

  /** Over an edge of width 0.075, `smoothstep` rises by at most 20 times the distance. */
  lemma MaskEdgeSlope(a: real, b: real)
    requires a <= b
    ensures 0.0 <= MaskEdge(b) - MaskEdge(a) <= 20.0 * (b - a)
  {
    SmoothstepSlope(Radius * 0.5, Radius, a, b);
    assert 1.5 * (b - a) / (Radius - Radius * 0.5) == 20.0 * (b - a);
  }

  /** For 0 <= x <= y <= 1 with y - x <= k, the squares differ by at most 2 * k. */
  lemma SquaresApart(x: real, y: real, k: real)
    requires 0.0 <= x <= y <= 1.0
    requires y - x <= k
    ensures 0.0 <= y * y - x * x <= 2.0 * k
  {
    assert y * y - x * x == (y - x) * (x + y);
    ProductBound(y - x, x + y, k);
  }

  lemma ProductBound(d: real, m: real, k: real)
    requires 0.0 <= d <= k
    requires 0.0 <= m <= 2.0
    ensures 0.0 <= d * m <= 2.0 * k
  {
    MulMono(d, 0.0, m);
    MulMono(d, m, 2.0);
  }

  /**
   `(uv - center) * vec2(uResolution.x / uResolution.y, 1.0)`: the aspect-corrected
   offset. Both components are the pixel offset from the impulse divided by the
   viewport height, so `length(diff)` measures a round distance on screen.
   */
  function Diff(resolution: Vec2, uv: Vec2, center: Vec2): (d: Vec2)
    requires resolution.y != 0.0
    ensures d.x * resolution.y == (uv.x - center.x) * resolution.x
    ensures d.y == uv.y - center.y
    ensures uv == center ==> d == Zero
  {
    var aspect := resolution.x / resolution.y;
    assert aspect * resolution.y == resolution.x;
    Vec2((uv.x - center.x) * aspect, (uv.y - center.y) * 1.0)
  }

  /**
   `wave = 0.1 * sin(30.0 * dist - age * 3.0) / (1.0 + 80.0 * dist)`: the wave times
   the damping factor is a tenth of the sine, so with the sine in [-1, 1] it is an
   oscillation of amplitude at most 0.1 that decays like 1 / (1 + 80 * dist) away
   from the impulse, with exactly the sine's sign.
   */
  function Wave(nm: Numerics, dist: real, age: real): (w: real)
    requires 0.0 <= dist
    ensures w * (1.0 + 80.0 * dist) == 0.1 * nm.sin(30.0 * dist - age * 3.0)
    ensures var sn := nm.sin(30.0 * dist - age * 3.0);
      && (-1.0 <= sn <= 1.0 ==> -0.1 <= w <= 0.1 && -0.1 <= w * (1.0 + 80.0 * dist) <= 0.1)
      && (0.0 < sn ==> 0.0 < w) && (sn < 0.0 ==> w < 0.0) && (sn == 0.0 ==> w == 0.0)
  {
    var q, damping := 0.1 * nm.sin(30.0 * dist - age * 3.0), 1.0 + 80.0 * dist;
    Damped(q, damping);
    q / damping
  }

  /** Dividing by a factor of at least 1 keeps the sign and does not grow the magnitude. */
  lemma Damped(q: real, k: real)
    requires 1.0 <= k
    ensures (q / k) * k == q
    ensures 0.0 <= q ==> 0.0 <= q / k <= q
    ensures q <= 0.0 ==> q <= q / k <= 0.0
    ensures 0.0 < q ==> 0.0 < q / k
    ensures q < 0.0 ==> q / k < 0.0
  {
    var r := q / k;
    assert r * k == q;
    assert q - r == r * (k - 1.0);
    DivideByPositive(q, k);
    if 0.0 <= q {
      MulMono(r, 0.0, k - 1.0);
    } else {
      MulMono(-r, 0.0, k - 1.0);
    }
  }

  /**
   The shader's `ripple(uv, center, age)`: `normalize(diff) * wave * mask * fade`.
   An impulse 12 or more seconds old, or a pixel at least `radius` away from it,
   gets no displacement.
   */
  function Ripple(nm: Numerics, resolution: Vec2, uv: Vec2, center: Vec2, age: real): (r: Vec2)
    requires Sound(nm)
    requires resolution.y != 0.0
    ensures FadeTime <= age ==> r == Zero
    ensures Radius <= nm.length(Diff(resolution, uv, center)) ==> r == Zero
  {
    var diff := Diff(resolution, uv, center);
    var dist := nm.length(diff);
    var fade := Fade(age);
    var mask := Mask(dist);
    var wave := Wave(nm, dist, age);
    Times(Times(Times(nm.normalize(diff), wave), mask), fade)
  }

  /**
   Slot i takes part in the sum: it is below `uRippleCount` (the loop breaks at the
   first slot that is not) and its impulse is not older than 8 seconds (the loop
   skips those).
   */
  predicate Active(slots: seq<Impulse>, count: int, time: real, i: int)
    requires 0 <= i < |slots|
  {
    i < count && !(time - slots[i].t > MaxAge)
  }

  /** The active slots below n, in increasing order: exactly the active ones, each once. */
  function ActiveBelow(slots: seq<Impulse>, count: int, time: real, n: nat): (r: seq<nat>)
    requires n <= |slots|
    ensures forall k :: 0 <= k < |r| ==> r[k] < n && Active(slots, count, time, r[k])
    ensures forall i :: 0 <= i < n && Active(slots, count, time, i) ==> i in r
    ensures forall j, k :: 0 <= j < k < |r| ==> r[j] < r[k]
  {
    if n == 0 then []
    else ActiveBelow(slots, count, time, n - 1) + (if Active(slots, count, time, n - 1) then [n - 1] else [])
  }

  /** `ripple(uv, d.xy, uTime - d.z)` for the impulse d in slot i: the displacement it adds at uv. */
  function Contribution(nm: Numerics, resolution: Vec2, uv: Vec2, slots: seq<Impulse>, time: real, i: nat): Vec2
    requires Sound(nm) && resolution.y != 0.0
    requires i < |slots|
  {
    Ripple(nm, resolution, uv, Vec2(slots[i].x, slots[i].y), time - slots[i].t)
  }

  /** The sum of the contributions of the slots listed in idx, accumulated in list order. */
  function Sum(nm: Numerics, resolution: Vec2, uv: Vec2, slots: seq<Impulse>, time: real, idx: seq<nat>): Vec2
    requires Sound(nm) && resolution.y != 0.0
    requires forall k :: 0 <= k < |idx| ==> idx[k] < |slots|
  {
    if |idx| == 0 then Zero
    else Add(Sum(nm, resolution, uv, slots, time, idx[..|idx| - 1]),
             Contribution(nm, resolution, uv, slots, time, idx[|idx| - 1]))
  }

  /**
   `totalOffset`: the sum over the active slots of the 20-slot uniform array. With
   no recorded impulse (`uRippleCount` 0) no slot is active and no pixel moves.
   */
  function TotalOffset(nm: Numerics, resolution: Vec2, uv: Vec2, slots: seq<Impulse>, count: int, time: real)
    : (r: Vec2)
    requires Sound(nm) && resolution.y != 0.0
    requires |slots| == MaxRipples
    ensures count <= 0 ==> r == Zero
  {
    NothingActiveBeforeImpulses(slots, count, time, MaxRipples);
    Sum(nm, resolution, uv, slots, time, ActiveBelow(slots, count, time, MaxRipples))
  }

  lemma NothingActiveBeforeImpulses(slots: seq<Impulse>, count: int, time: real, n: nat)
    requires n <= |slots|
    ensures count <= 0 ==> ActiveBelow(slots, count, time, n) == []
  {
  }

  /** Once the count is reached no later slot is active. */
  lemma {:induction false} ActiveBelowStops(slots: seq<Impulse>, count: int, time: real, i: nat, n: nat)
    requires i <= n <= |slots|
    requires count <= i
    ensures ActiveBelow(slots, count, time, n) == ActiveBelow(slots, count, time, i)
  {
    if i < n {
      ActiveBelowStops(slots, count, time, i, n - 1);
    }
  }

  /** An inactive slot leaves the list of active slots as it was. */
  lemma ActiveBelowSkips(slots: seq<Impulse>, count: int, time: real, i: nat)
    requires i < |slots| && !Active(slots, count, time, i)
    ensures ActiveBelow(slots, count, time, i + 1) == ActiveBelow(slots, count, time, i)
  {
  }

  /** One more active slot adds its contribution to the running sum. */
  lemma SumExtends(nm: Numerics, resolution: Vec2, uv: Vec2, slots: seq<Impulse>, count: int, time: real, i: nat)
    requires Sound(nm) && resolution.y != 0.0
    requires i < |slots| && Active(slots, count, time, i)
    ensures Sum(nm, resolution, uv, slots, time, ActiveBelow(slots, count, time, i + 1))
      == Add(Sum(nm, resolution, uv, slots, time, ActiveBelow(slots, count, time, i)),
             Contribution(nm, resolution, uv, slots, time, i))
  {
    var below := ActiveBelow(slots, count, time, i);
    assert ActiveBelow(slots, count, time, i + 1) == below + [i];
    assert (below + [i])[..|below|] == below;
  }

  /** The shader's `for` loop, with its `break` and `continue`. */
  method Shade(nm: Numerics, resolution: Vec2, uv: Vec2, slots: seq<Impulse>, count: int, time: real)
    returns (total: Vec2)
    requires Sound(nm) && resolution.y != 0.0
    requires |slots| == MaxRipples
    ensures total == TotalOffset(nm, resolution, uv, slots, count, time)
  {
    total := Zero;
    for i := 0 to MaxRipples
      invariant total == Sum(nm, resolution, uv, slots, time, ActiveBelow(slots, count, time, i))
    {
      if i >= count {
        ActiveBelowStops(slots, count, time, i, MaxRipples);
        break;
      }
      var d := slots[i];
      var age := time - d.t;
      if age > MaxAge {
        ActiveBelowSkips(slots, count, time, i);
        continue;
      }
      SumExtends(nm, resolution, uv, slots, count, time, i);
      total := Add(total, Contribution(nm, resolution, uv, slots, time, i));
    }
  }

  /** The shader's output colour: the texture, sampled by a caller-supplied function, at uv + totalOffset. */
  method ShadePixel<Colour>(nm: Numerics, sample: Vec2 -> Colour, resolution: Vec2, frag: Vec2,
                            slots: seq<Impulse>, count: int, time: real)
    returns (colour: Colour, lookup: Vec2)
    requires Sound(nm) && 0.0 < resolution.x && 0.0 < resolution.y
    requires |slots| == MaxRipples
    ensures var uv := FragUv(frag, resolution);
      lookup == Add(uv, TotalOffset(nm, resolution, uv, slots, count, time)) && colour == sample(lookup)
  {
    var uv := FragUv(frag, resolution);
    var offset := Shade(nm, resolution, uv, slots, count, time);
    lookup := Add(uv, offset);
    colour := sample(lookup);
  }

  /**
   Slot i takes part in `totalOffset` exactly when it lies below `uRippleCount` and
   its impulse is at most 8 seconds old. A slot at or past the count, or an older
   impulse, never takes part.
   */
  lemma SlotTakesPart(slots: seq<Impulse>, count: int, time: real, i: int)
    requires |slots| == MaxRipples && 0 <= i < MaxRipples
    ensures i in ActiveBelow(slots, count, time, MaxRipples) <==> i < count && time - slots[i].t <= MaxAge
  {
  }

  /** Two sums over the same slot list agree when the listed slots agree. */
  lemma {:induction false} SumAgrees(nm: Numerics, resolution: Vec2, uv: Vec2, s1: seq<Impulse>, s2: seq<Impulse>,
                                     time: real, idx: seq<nat>)
    requires Sound(nm) && resolution.y != 0.0
    requires forall k :: 0 <= k < |idx| ==> idx[k] < |s1| && idx[k] < |s2| && s1[idx[k]] == s2[idx[k]]
    ensures Sum(nm, resolution, uv, s1, time, idx) == Sum(nm, resolution, uv, s2, time, idx)
  {
    if |idx| > 0 {
      SumAgrees(nm, resolution, uv, s1, s2, time, idx[..|idx| - 1]);
    }
  }

  /** Slot lists agree when the two arrays have the same active slots. */
  lemma {:induction false} ActiveBelowAgrees(s1: seq<Impulse>, s2: seq<Impulse>, count: int, time: real, n: nat)
    requires n <= |s1| && n <= |s2|
    requires forall i :: 0 <= i < n ==> (Active(s1, count, time, i) <==> Active(s2, count, time, i))
    ensures ActiveBelow(s1, count, time, n) == ActiveBelow(s2, count, time, n)
  {
    if n > 0 {
      ActiveBelowAgrees(s1, s2, count, time, n - 1);
    }
  }

  /**
   Only the active slots matter: two uniform arrays with the same active slots,
   holding the same impulses there, give every pixel the same displacement, whatever
   the inactive slots hold.
   */
  lemma OnlyActiveSlotsContribute(nm: Numerics, resolution: Vec2, uv: Vec2, s1: seq<Impulse>, s2: seq<Impulse>,
                                  count: int, time: real)
    requires Sound(nm) && resolution.y != 0.0
    requires |s1| == MaxRipples && |s2| == MaxRipples
    requires forall i :: 0 <= i < MaxRipples ==> (Active(s1, count, time, i) <==> Active(s2, count, time, i))
    requires forall i :: 0 <= i < MaxRipples && Active(s1, count, time, i) ==> s1[i] == s2[i]
    ensures TotalOffset(nm, resolution, uv, s1, count, time) == TotalOffset(nm, resolution, uv, s2, count, time)
  {
    ActiveBelowAgrees(s1, s2, count, time, MaxRipples);
    SumAgrees(nm, resolution, uv, s1, s2, time, ActiveBelow(s1, count, time, MaxRipples));
  }

  /** A sum of contributions that are all zero is zero. */
  lemma {:induction false} SumOfZeros(nm: Numerics, resolution: Vec2, uv: Vec2, slots: seq<Impulse>, time: real,
                                      idx: seq<nat>)
    requires Sound(nm) && resolution.y != 0.0
    requires forall k :: 0 <= k < |idx| ==> idx[k] < |slots|
    requires forall k :: 0 <= k < |idx| ==> Contribution(nm, resolution, uv, slots, time, idx[k]) == Zero
    ensures Sum(nm, resolution, uv, slots, time, idx) == Zero
  {
    if |idx| > 0 {
      SumOfZeros(nm, resolution, uv, slots, time, idx[..|idx| - 1]);
    }
  }

  /**
   A pixel at least `radius` away from every active impulse is not displaced; in
   particular, with no impulses (count 0) nothing is displaced.
   */
  lemma FarPixelUndisturbed(nm: Numerics, resolution: Vec2, uv: Vec2, slots: seq<Impulse>, count: int, time: real)
    requires Sound(nm) && resolution.y != 0.0
    requires |slots| == MaxRipples
    requires forall i :: 0 <= i < MaxRipples && Active(slots, count, time, i) ==>
      Radius <= nm.length(Diff(resolution, uv, Vec2(slots[i].x, slots[i].y)))
    ensures TotalOffset(nm, resolution, uv, slots, count, time) == Zero
  {
    var idx := ActiveBelow(slots, count, time, MaxRipples);
    SumOfZeros(nm, resolution, uv, slots, time, idx);
  }
}
