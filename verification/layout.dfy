/**
 Layout arithmetic of the scene (main.js, `updateScale`, `updatePosterSize`,
 `positionPerson`). All lengths are in pixels, as exact reals. The design canvas
 is 2560 x 1440; it is scaled by one factor to fit the browser viewport and
 centred in it. The poster is a landscape rectangle with sides in the ratio
 1 : 0.7071 (297 : 420), centred in the design canvas, and the character is
 centred on the poster.
 */
module Layout {
  import opened MinMax

  const DesignWidth: real := 2560.0
  const DesignHeight: real := 1440.0

  /** Fraction of the design width taken by the poster (`sf`). */
  const PosterFraction: real := 0.6
  /** Fraction of the poster width taken by the character. */
  const PersonFraction: real := 0.3

  datatype Rect = Rect(x: real, y: real, width: real, height: real)

  /** Result of `updateScale`: the uniform scale, the scaled container size and its offsets. */
  datatype Fit = Fit(scale: real, width: real, height: real, left: real, top: real)

  /**
   `updateScale` for a viewport of w x h pixels. The scaled canvas fits inside the
   viewport, fills at least one of its dimensions, keeps the design aspect ratio,
   and has equal margins on opposite sides.
   */
  function FitViewport(w: real, h: real): (f: Fit)
    ensures f.width == DesignWidth * f.scale && f.height == DesignHeight * f.scale
    ensures f.width <= w && f.height <= h
    ensures f.width == w || f.height == h
    ensures f.left + f.width + f.left == w && f.top + f.height + f.top == h
    ensures 0.0 <= f.left && 0.0 <= f.top
    ensures 0.0 <= w && 0.0 <= h ==> 0.0 <= f.scale
  {
    var s := Min(w / DesignWidth, h / DesignHeight);
    var sw := DesignWidth * s;
    var sh := DesignHeight * s;
    Fit(s, sw, sh, (w - sw) / 2.0, (h - sh) / 2.0)
  }

  /** No larger scale keeps the design canvas inside the viewport. */
  lemma FitViewportIsLargest(w: real, h: real, s: real)
    requires DesignWidth * s <= w && DesignHeight * s <= h
    ensures s <= FitViewport(w, h).scale
  {
  }

  /**
   `updatePosterSize`: the poster is 0.6 of the design width and is landscape, with
   height : width = 297 : 420 (about 1 : 1.414). It is centred in the design canvas
   and lies inside it.
   */
  function PosterRect(): (p: Rect)
    ensures p.width == PosterFraction * DesignWidth
    ensures p.height * 420.0 == p.width * 297.0
    ensures p.x == DesignWidth - (p.x + p.width)
    ensures p.y == DesignHeight - (p.y + p.height)
    ensures 0.0 <= p.x && p.x + p.width <= DesignWidth
    ensures 0.0 <= p.y && p.y + p.height <= DesignHeight
  {
    var w := DesignWidth * PosterFraction;
    var h := w * (297.0 / 420.0);
    Rect((DesignWidth - w) / 2.0, (DesignHeight - h) / 2.0, w, h)
  }

  /**
   `positionPerson`: the character is 0.3 of the poster width, `ph` pixels high
   (the element's rendered height, read back from the page), and centred on the
   poster in both directions. It lies inside the poster horizontally whenever the
   poster has non-negative width, and vertically whenever `ph` fits in the poster.
   */
  function PersonRect(poster: Rect, ph: real): (r: Rect)
    ensures r.width == PersonFraction * poster.width && r.height == ph
    ensures r.x - poster.x == (poster.x + poster.width) - (r.x + r.width)
    ensures r.y - poster.y == (poster.y + poster.height) - (r.y + r.height)
    ensures 0.0 <= poster.width ==> poster.x <= r.x && r.x + r.width <= poster.x + poster.width
    ensures 0.0 <= ph <= poster.height ==> poster.y <= r.y && r.y + r.height <= poster.y + poster.height
  {
    var pw := poster.width * PersonFraction;
    var left := poster.x + (poster.width - pw) / 2.0;
    var top := poster.y + (poster.height - ph) / 2.0;
    Rect(left, top, pw, ph)
  }

  /** A character no taller than the poster stays inside the design canvas. */
  lemma PersonInsideCanvas(ph: real)
    requires 0.0 <= ph <= PosterRect().height
    ensures var r := PersonRect(PosterRect(), ph);
      0.0 <= r.x && r.x + r.width <= DesignWidth && 0.0 <= r.y && r.y + r.height <= DesignHeight
  {
  }
}
