/**
 The pointermove handler's conversion of a pointer position into a ripple impulse
 (main.js, the `pointermove` listener). The client position is taken relative to the
 container's bounding rectangle, divided by the current scale to get design pixels,
 and divided by the design size; the vertical axis is flipped so that the origin is
 the bottom-left corner. The timestamp is `performance.now()` in seconds.
 */
module Pointer {
  import opened Layout
  import opened RippleBuffer

  /** `performance.now() * 0.001`: a clock reading in milliseconds, as seconds. */
  function Seconds(ms: real): (s: real)
    ensures s * 1000.0 == ms
  {
    ms * 0.001
  }

  /**
   The impulse for a pointer at (clientX, clientY) over a container whose bounding
   rectangle starts at (rectLeft, rectTop), drawn at `scale`. A pointer over the
   scaled container lands in the unit square, its top-left corner at (0, 1).
   */
  function Normalise(clientX: real, clientY: real, rectLeft: real, rectTop: real, scale: real, nowMs: real): (v: Impulse)
    requires 0.0 < scale
    ensures v.t * 1000.0 == nowMs
    ensures rectLeft <= clientX <= rectLeft + scale * DesignWidth ==> 0.0 <= v.x <= 1.0
    ensures rectTop <= clientY <= rectTop + scale * DesignHeight ==> 0.0 <= v.y <= 1.0
    ensures clientX == rectLeft ==> v.x == 0.0
    ensures clientY == rectTop ==> v.y == 1.0
  {
    var dx := (clientX - rectLeft) / scale;
    var dy := (clientY - rectTop) / scale;
    UnitRange(clientX - rectLeft, scale, DesignWidth);
    UnitRange(clientY - rectTop, scale, DesignHeight);
    Impulse(dx / DesignWidth, 1.0 - dy / DesignHeight, Seconds(nowMs))
  }

  /** For 0 <= d <= s * size, (d / s) / size lies in [0, 1]. */
  lemma UnitRange(d: real, s: real, size: real)
    requires 0.0 < s && 0.0 < size
    ensures 0.0 <= d <= s * size ==> 0.0 <= (d / s) / size <= 1.0
  {
    var q := d / s;
    assert q * s == d;
    if 0.0 <= d <= s * size {
      Quotient(d, s, size);
    }
  }

  lemma Quotient(d: real, s: real, size: real)
    requires 0.0 < s && 0.0 < size
    requires 0.0 <= d <= s * size
    ensures 0.0 <= d / s <= size
  {
    assert (s * size) / s == size;
    assert d / s <= (s * size) / s;
  }

  /** The client position a ripple at (x, y) comes from: the inverse of `Normalise`. */
  function ClientPosition(v: Impulse, rectLeft: real, rectTop: real, scale: real): (real, real)
  {
    (rectLeft + v.x * DesignWidth * scale, rectTop + (1.0 - v.y) * DesignHeight * scale)
  }

  /** Normalising and mapping back recovers the pointer position. */
  lemma NormaliseRoundTrip(clientX: real, clientY: real, rectLeft: real, rectTop: real, scale: real, nowMs: real)
    requires 0.0 < scale
    ensures ClientPosition(Normalise(clientX, clientY, rectLeft, rectTop, scale, nowMs), rectLeft, rectTop, scale)
      == (clientX, clientY)
  {
    var v := Normalise(clientX, clientY, rectLeft, rectTop, scale, nowMs);
    ScaleBack(v.x, clientX - rectLeft, scale, DesignWidth);
    ScaleBack(1.0 - v.y, clientY - rectTop, scale, DesignHeight);
    var p := ClientPosition(v, rectLeft, rectTop, scale);
    assert p.0 == clientX;
    assert p.1 == clientY;
  }

  /** Undoing the two divisions of `Normalise`. */
  lemma ScaleBack(u: real, d: real, s: real, size: real)
    requires 0.0 < s && 0.0 < size
    requires u == (d / s) / size
    ensures u * size * s == d
  {
    var q := d / s;
    assert (q / size) * size == q;
    assert q * s == d;
  }

  /** Every ripple position comes from exactly one pointer position. */
  lemma ClientPositionRoundTrip(v: Impulse, rectLeft: real, rectTop: real, scale: real, nowMs: real)
    requires 0.0 < scale
    ensures var (cx, cy) := ClientPosition(v, rectLeft, rectTop, scale);
      var w := Normalise(cx, cy, rectLeft, rectTop, scale, nowMs);
      w.x == v.x && w.y == v.y
  {
    var p := ClientPosition(v, rectLeft, rectTop, scale);
    var cx, cy := p.0, p.1;
    var w := Normalise(cx, cy, rectLeft, rectTop, scale, nowMs);
    var ex, ey := cx - rectLeft, cy - rectTop;
    assert w.x == (ex / scale) / DesignWidth && w.y == 1.0 - (ey / scale) / DesignHeight;
    CancelScale(ex, v.x * DesignWidth, scale);
    CancelScale(ey, (1.0 - v.y) * DesignHeight, scale);
  }

  /** Dividing e = a * s by a positive s gives back a. */
  lemma CancelScale(e: real, a: real, s: real)
    requires 0.0 < s
    requires e == a * s
    ensures e / s == a
  {
    assert (e / s) * s == e;
    assert (e / s - a) * s == 0.0;
  }

  /**
   The horizontal coordinate grows with clientX and the vertical one shrinks as
   clientY grows: the y axis is flipped.
   */
  lemma NormaliseOrientation(x1: real, y1: real, x2: real, y2: real, rectLeft: real, rectTop: real, scale: real, nowMs: real)
    requires 0.0 < scale
    ensures var v1 := Normalise(x1, y1, rectLeft, rectTop, scale, nowMs);
      var v2 := Normalise(x2, y2, rectLeft, rectTop, scale, nowMs);
      && (x1 < x2 ==> v1.x < v2.x)
      && (y1 < y2 ==> v1.y > v2.y)
  {
    if x1 < x2 {
      DivideStrict(x1 - rectLeft, x2 - rectLeft, scale);
      DivideStrict((x1 - rectLeft) / scale, (x2 - rectLeft) / scale, DesignWidth);
    }
    if y1 < y2 {
      DivideStrict(y1 - rectTop, y2 - rectTop, scale);
      DivideStrict((y1 - rectTop) / scale, (y2 - rectTop) / scale, DesignHeight);
    }
  }

  /** Division by a positive number keeps strict order. */
  lemma DivideStrict(a: real, b: real, p: real)
    requires 0.0 < p
    requires a < b
    ensures a / p < b / p
  {
    assert b / p - a / p == (b - a) / p;
  }
}
