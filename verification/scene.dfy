/**
 The scene as one immutable record, and the four things that change it in main.js:
 a pointer move (ripple history), a click on the character (image index), an
 animation tick of the character (bob), and a resize or pixel-ratio change (layout).
 Values the page reads from the browser (viewport size, the container's bounding
 rectangle, the character's rendered height, the clock) arrive with the event.
 */
module Scene {
  import opened MinMax
  import opened Layout
  import opened RippleBuffer
  import opened ImageCycle
  import opened Bob
  import opened Pointer
  import RippleShader

  datatype SceneState = SceneState(
    ripples: RippleState,
    index: int,
    bob: BobState,
    fit: Fit,
    poster: Rect,
    person: Rect,
    resolution: RippleShader.Vec2)

  datatype Event =
    | PointerMove(clientX: real, clientY: real, rectLeft: real, rectTop: real, nowMs: real)
    | Click
    | Tick
    | Resize(w: real, h: real, personHeight: real)

  /** The properties every reachable scene has. */
  predicate SceneInv(s: SceneState)
  {
    && Wf(s.ripples)
    && 1 <= s.index <= MaxIndex
    && BobInv(s.bob)
    && 0.0 < s.fit.scale
    && s.poster == PosterRect()
    && s.resolution == DesignResolution
  }

  /** `uResolution` as the page always sets it: the design size. */
  const DesignResolution := RippleShader.Vec2(DesignWidth, DesignHeight)

  /** The layout the page computes for a viewport and a rendered character height. */
  function ComputeLayout(w: real, h: real, personHeight: real): (Fit, Rect, Rect)
  {
    var poster := PosterRect();
    (FitViewport(w, h), poster, PersonRect(poster, personHeight))
  }

  /**
   The scene once the module has run: the layout for the initial viewport, image 1,
   one bob tick already taken, no ripples, and the shader resolution at the design size.
   */
  function InitialScene(w: real, h: real, personHeight: real): (s: SceneState)
    requires 0.0 < w && 0.0 < h
    ensures SceneInv(s)
    ensures s.index == FirstIndex && s.ripples == RippleStart() && s.ripples.count == 0
    ensures s.bob == BobStep(BobStart)
    ensures s.fit == FitViewport(w, h) && s.fit.width <= w && s.fit.height <= h
    ensures s.person == PersonRect(PosterRect(), personHeight)
  {
    RippleStartWf();
    var (fit, poster, person) := ComputeLayout(w, h, personHeight);
    SceneState(RippleStart(), FirstIndex, BobStep(BobStart), fit, poster, person, DesignResolution)
  }

  /**
   The events the model covers. A resize to a viewport with a zero side makes
   `currentScale` 0 in JavaScript, and the pointer handler's later division by it
   gives Infinity or NaN, which reals do not represent; such resizes are left out.
   */
  predicate Admissible(e: Event)
  {
    e.Resize? ==> 0.0 < e.w && 0.0 < e.h
  }

  /** The pointermove listener: one more impulse in the ripple buffer, nothing else changes. */
  function OnPointerMove(s: SceneState, clientX: real, clientY: real, rectLeft: real, rectTop: real, nowMs: real)
    : (s': SceneState)
    requires SceneInv(s)
    ensures SceneInv(s')
    ensures s' == s.(ripples := s'.ripples)
    ensures var v := Normalise(clientX, clientY, rectLeft, rectTop, s.fit.scale, nowMs);
      s'.ripples.history == LastN(s.ripples.history + [v], MaxRipples)
    ensures s'.ripples.count == MinNat(s.ripples.count + 1, MaxRipples)
    ensures s'.ripples.history[s'.ripples.count - 1] == Normalise(clientX, clientY, rectLeft, rectTop, s.fit.scale, nowMs)
  {
    var v := Normalise(clientX, clientY, rectLeft, rectTop, s.fit.scale, nowMs);
    s.(ripples := OnImpulse(s.ripples, v))
  }

  /** The click listener on the character: the next image index, nothing else changes. */
  function OnClick(s: SceneState): (s': SceneState)
    requires SceneInv(s)
    ensures SceneInv(s')
    ensures s' == s.(index := s'.index)
    ensures s'.index == (if s.index == MaxIndex then FirstIndex else s.index + 1)
  {
    s.(index := NextIndex(s.index))
  }

  /** One `animatePerson` frame: the bob moves, nothing else changes. */
  function OnTick(s: SceneState): (s': SceneState)
    requires SceneInv(s)
    ensures SceneInv(s')
    ensures s' == s.(bob := s'.bob)
    ensures s'.bob == BobStep(s.bob)
  {
    s.(bob := BobStep(s.bob))
  }

  /**
   `onResizeOrDPR`: the layout is recomputed for the new viewport; the ripples, image
   index and bob are untouched, and the shader resolution is set to the design size
   again, not to the viewport size.
   */
  function OnResize(s: SceneState, w: real, h: real, personHeight: real): (s': SceneState)
    requires SceneInv(s)
    requires 0.0 < w && 0.0 < h
    ensures SceneInv(s')
    ensures s'.ripples == s.ripples && s'.index == s.index && s'.bob == s.bob
    ensures s'.resolution == DesignResolution
    ensures s'.fit == FitViewport(w, h) && s'.poster == PosterRect()
    ensures s'.person == PersonRect(PosterRect(), personHeight)
    ensures s'.fit.width <= w && s'.fit.height <= h && (s'.fit.width == w || s'.fit.height == h)
  {
    var (fit, poster, person) := ComputeLayout(w, h, personHeight);
    s.(fit := fit, poster := poster, person := person, resolution := DesignResolution)
  }

  /** One event, handed to its listener. */
  function Step(s: SceneState, e: Event): (s': SceneState)
    requires SceneInv(s) && Admissible(e)
    ensures SceneInv(s')
  {
    match e
    case PointerMove(cx, cy, left, top, now) => OnPointerMove(s, cx, cy, left, top, now)
    case Click => OnClick(s)
    case Tick => OnTick(s)
    case Resize(w, h, ph) => OnResize(s, w, h, ph)
  }

  /** A run of events from a reachable scene. */
  function Run(s: SceneState, events: seq<Event>): SceneState
    requires SceneInv(s)
    requires forall k :: 0 <= k < |events| ==> Admissible(events[k])
    decreases |events|
  {
    if |events| == 0 then s else Run(Step(s, events[0]), events[1..])
  }

  /**
   Every scene reached by a run keeps the invariant: at most 20 ripples mirrored into
   the uniform slots with sentinels after them, the image index in 1..8 and the bob
   offset in [-0.15, 20.15].
   */
  lemma {:induction false} RunKeepsInv(s: SceneState, events: seq<Event>)
    requires SceneInv(s)
    requires forall k :: 0 <= k < |events| ==> Admissible(events[k])
    ensures SceneInv(Run(s, events))
    ensures -0.15 <= Run(s, events).bob.dy <= 20.15
    decreases |events|
  {
    if |events| > 0 {
      RunKeepsInv(Step(s, events[0]), events[1..]);
    }
  }
}
