# Ripple poster scene — a Dafny model of its state and arithmetic

The page shows a poster and a clickable, bobbing character on a 2560 × 1440 design canvas. The canvas is scaled to fit the browser viewport. A full-screen fragment shader adds water ripples wherever the pointer has moved. Almost all of `main.js` is DOM and WebGL glue. This project models the deterministic part:

- **`RippleBuffer`** (`ripples.dfy`): the ripple history. It is a FIFO of at most 20 impulses (`maxRipples`). The history is copied into the 20-slot `uRipples` uniform array, which starts filled with the sentinel (-1, -1, 0), and `uRippleCount` holds its length.
- **`Pointer`** (`pointer.dfy`): turning a pointer position into a normalised impulse. The y axis is flipped and the timestamp is in seconds.
- **`ImageCycle`** (`image_cycle.dfy`): the click-driven image index, `(currentIndex % 8) + 1`. JavaScript's truncating `%` is written out.
- **`Bob`** (`bob.dfy`): the character's bob, i.e. the `dir`/`dy` state machine. An exact integer picture of it gives its range and its period of 270 ticks.
- **`Layout`** (`layout.dfy`): fitting the viewport (`updateScale`), placing the poster (`updatePosterSize`) and placing the character (`positionPerson`).
- **`Glsl`** (`glsl.dfy`): `clamp` and `smoothstep` as defined in section 8.3 ("Common Functions") of the OpenGL ES Shading Language 1.00 specification.
- **`RippleShader`** (`shader.dfy`): the fragment shader. It contains the `fade` and `mask` envelopes and the per-impulse `ripple`. It also contains the loop that keeps only slots below `uRippleCount` whose age is at most 8 s, and the texture lookup at `uv + totalOffset`.
- **`Scene`** (`scene.dfy`): one immutable record of the state above, with one pure step function per event listener and an invariant that every run preserves.

All JavaScript doubles are modelled as exact `real`s. Values the page reads from the browser are parameters: the viewport size, the container's bounding rectangle, the character's rendered height, and clock readings. `sin`, `length` and `normalize` are uninterpreted functions in a `Numerics` record, and texture sampling is a function parameter. The model assumes only that `length` is never negative.

Two details of the code are easy to misread:

- On resize, `uResolution` is set back to the design size 2560 × 1440, not to the viewport size (`main.js:69`, `main.js:110`). `Scene.OnResize` states this.
- The sentinel slots have time 0 (`main.js:112`). The shader loop breaks at `uRippleCount` (`main.js:143`) before its age test, so the sentinel slots, which sit at or past the count, never reach the sum (`RippleShader.SlotTakesPart`, `RippleBuffer.Wf`). Their time 0 alone would not keep them out during the first 8 s.

## Model

| member | source | states |
|---|---|---|
| Layout.FitViewport | main.js:18-31 | The scaled canvas keeps the 16:9 design ratio, fits inside the viewport, fills its width or its height, and has equal non-negative margins on opposite sides. |
| Layout.FitViewportIsLargest | main.js:22 | No scale larger than `currentScale` keeps the design canvas inside the viewport. |
| Layout.PosterRect | main.js:34-41 | The poster is 0.6 of the design width and landscape, with height : width = 297 : 420 (1 : √2). It is centred in the design canvas and lies inside it. |
| Layout.PersonRect | main.js:44-56 | The character is 0.3 of the poster width and `ph` high, and is centred on the poster. It lies inside the poster horizontally, and vertically when `ph` fits. |
| Layout.PersonInsideCanvas | main.js:34-56 | A character no taller than the poster lies inside the design canvas. |
| Bob.BobStep | main.js:77-79 | One tick moves `dy` by exactly 0.15, down the page (`dy` grows) while `dir = 1` and up while `dir = -1`, and reverses `dir` exactly when the new offset leaves [0, 20]. It keeps `dir` in {1, -1}, `dy` in [-0.15, 20.15], `dy <= 20` while `dir = 1`, and `dy >= 0` while `dir = -1`. |
| Bob.BobIterPreservesInv | main.js:76-79 | After any number of ticks the bob invariant still holds, so `dy` stays in [-0.15, 20.15]. |
| Bob.PersonTop | main.js:80 | The drawn top of the character stays within [initTop - 0.15, initTop + 20.15]. |
| Bob.TickStepPictures | main.js:76-79 | One tick of the real bob matches one tick of its integer picture: `dy` is 0.15 times a whole number of steps, and the tests `dy > 20` and `dy < 0` become k > 133 and k < 0. |
| Bob.TickIterPictures | main.js:76-79 | The real bob and its integer picture stay in step for any number of ticks, and the picture keeps k in [-1, 134]. |
| Bob.BobExactRange | main.js:76-79 | Starting from `dir = 1`, `dy = 0`, the offset stays in [-0.15, 20.1]. |
| Bob.BobPeriod | main.js:76-79 | 270 ticks bring the bob back to `dir = 1`, `dy = 0`. |
| ImageCycle.JsRem | main.js:185 | JavaScript's `%` for a positive divisor. It agrees with the Euclidean remainder for non-negative dividends and lies in (-m, 0] for negative ones. |
| ImageCycle.NextIndex | main.js:185 | A click maps k to k + 1 for k in 1..7 and maps 8 to 1, so the index stays in 1..8. |
| ImageCycle.ClicksAdvance | main.js:184-188 | n clicks from index k give `(k - 1 + n) mod 8 + 1`. |
| ImageCycle.ClicksInRange | main.js:12-13 | The index stays in 1..8 after any number of clicks. |
| ImageCycle.ClicksPeriod | main.js:184-188 | n clicks return to the starting index exactly when n is a multiple of 8. |
| RippleBuffer.Sentinels | main.js:111-112 | The initial uniform array: every slot holds (-1, -1, 0). |
| RippleBuffer.Push | main.js:199-200 | After push and shift, the new impulse is last. From a history within capacity, the result is the last 20 of the old history followed by the new impulse. |
| RippleBuffer.Mirror | main.js:201 | Slot i takes `history[i]` for every index of the history, and every other slot keeps its old value. |
| RippleBuffer.MirrorLoop | main.js:201 | The `forEach` copy loop computes exactly `Mirror`. |
| RippleBuffer.RippleStartWf | main.js:105-114 | The initial state is well formed: no history, count 0, and 20 sentinel slots. |
| RippleBuffer.OnImpulse | main.js:199-202 | A pointer move makes the history the last 20 of the old history plus the new impulse, which comes last. The count is the history length, the first slots mirror the history, and the other slots keep their values. On a well-formed buffer the result is well formed, with the history within 20, the rest of the slots holding the sentinel, and the count grown by one up to 20. |
| RippleBuffer.FeedKeepsLast | main.js:191-203 | After any n pointer moves, the history is exactly the last min(n, 20) impulses, oldest first, and `uRippleCount` is min(n, 20). |
| RippleBuffer.FeedSlots | main.js:106-113 | After any n pointer moves, slot i holds the i-th of the last min(n, 20) impulses if i < min(n, 20), and the sentinel otherwise. |
| Pointer.Seconds | main.js:197 | A millisecond clock reading, converted to seconds. |
| Pointer.Normalise | main.js:192-196 | A pointer over the scaled container lands in the unit square. The container's top-left corner maps to x = 0 and y = 1. |
| Pointer.NormaliseRoundTrip | main.js:192-196 | Mapping a normalised impulse back through the container geometry recovers the pointer position. |
| Pointer.ClientPositionRoundTrip | main.js:192-196 | Every normalised position comes from a pointer position, so normalisation is a bijection. |
| Pointer.NormaliseOrientation | main.js:192-196 | x grows with clientX, and y shrinks as clientY grows: the y axis is flipped. |
| Glsl.Clamp | main.js:133 | `clamp` stays within its bounds, leaves values inside them unchanged, and saturates values outside them. |
| Glsl.ClampContracts | main.js:133 | `clamp` keeps order and never moves two points further apart. |
| Glsl.Smoothstep | main.js:134 | `smoothstep` lies in [0, 1]. It is 0 at or below edge0 and 1 at or above edge1. |
| Glsl.HermiteSlope | main.js:134 | On [0, 1] the Hermite polynomial of `smoothstep` is non-decreasing with slope at most 3/2. |
| Glsl.SmoothstepMonotone | main.js:134 | `smoothstep` is non-decreasing. |
| Glsl.SmoothstepSlope | main.js:134 | `smoothstep` is continuous. It rises by at most 3/2 · (b - a) / (edge1 - edge0) between a and b. |
| RippleShader.FragUv | main.js:140 | A fragment inside the viewport gets texture coordinates in the unit square. |
| RippleShader.Fade | main.js:133 | `fade` lies in [0, 1]. It is 1 for age <= 0, 0 for age >= 12, and linear in between. |
| RippleShader.FadeMonotone | main.js:133 | `fade` never grows with age. |
| RippleShader.Mask | main.js:134 | `mask` lies in [0, 1]. It is 1 for dist <= 0.075 and 0 for dist >= 0.15. |
| RippleShader.MaskMonotone | main.js:134 | `mask` never grows with distance. |
| RippleShader.MaskSlope | main.js:134 | `mask` is continuous, with no jump at half the radius. It changes by at most 40 times the change in distance. |
| RippleShader.Diff | main.js:131 | Both components of `diff` are the pixel offset from the impulse divided by the viewport height (the vertical one is just `uv.y - center.y`), so distances are round on screen. A pixel on the impulse has zero offset. |
| RippleShader.Wave | main.js:135 | The wave times the damping factor 1 + 80 · dist is exactly 0.1 times the sine of 30 · dist − 3 · age, so the wave is positive, negative or zero exactly when the sine is. For a sine in [-1, 1] the amplitude is at most 0.1 and decays like 1 / (1 + 80 · dist). |
| RippleShader.Ripple | main.js:130-137 | An impulse at least 12 s old, or a pixel at least the radius 0.15 away from the impulse, gets zero displacement. |
| RippleShader.ActiveBelow | main.js:142-146 | The slots the loop sums are exactly those i with i < `uRippleCount` and age <= 8, in increasing order, each once. |
| RippleShader.TotalOffset | main.js:141-148 | With `uRippleCount` 0 no slot is active, the displacement is zero and the texture shows undistorted. |
| RippleShader.Shade | main.js:139-148 | The shader loop, with its `break` and `continue`, computes the sum of `ripple` over exactly the active slots. |
| RippleShader.ShadePixel | main.js:139-150 | The output colour is the texture sampled at uv plus the total displacement. |
| RippleShader.SlotTakesPart | main.js:142-146 | Slot i takes part (`Active`) exactly when i < `uRippleCount` and its impulse is at most 8 s old. A slot at or past the count, or an older impulse, never takes part. |
| RippleShader.OnlyActiveSlotsContribute | main.js:141-148 | Two uniform arrays with the same active slots, holding the same impulses there, displace every pixel equally, whatever the other slots hold. |
| RippleShader.FarPixelUndisturbed | main.js:130-148 | A pixel at least the radius away from every active impulse is not displaced. |
| Scene.InitialScene | main.js:84-88 | After start-up the scene is well formed: image 1, the initial ripple buffer, the fitted canvas, the centred character, and the bob one tick past (1, 0). |
| Scene.OnPointerMove | main.js:191-203 | A pointer move makes the history the last 20 of the old history plus the normalised impulse. It grows the count by one up to 20 and changes nothing else. |
| Scene.OnClick | main.js:184-188 | A click advances the index cyclically and changes nothing else. |
| Scene.OnTick | main.js:76-82 | A bob tick applies one `animatePerson` step to the bob, changes nothing else, and keeps the scene invariant. |
| Scene.OnResize | main.js:62-70 | A resize refits the canvas to the new viewport, recomputes the poster and re-centres the character. It leaves ripples, index and bob untouched and sets the shader resolution to the design size. |
| Scene.Step | main.js:62-203 | Every event listener keeps the scene invariant. |
| Scene.RunKeepsInv | main.js:62-203 | After any sequence of admissible events the scene is well formed. It holds at most 20 mirrored ripples, the index stays in 1..8, and the bob stays in [-0.15, 20.15]. |

## Left out

- Three.js and WebGL setup is not modelled because it consists of foreign library calls. This covers the scene, camera, renderer, `ShaderMaterial` compilation, `CanvasTexture` and the draw call (main.js:90-101, 115-153, 175, 208).
- `sin`, `length`, `normalize` and `texture2D` are uninterpreted because they are GPU floating-point numerics. Nothing is stated about the sine's values, or about the direction or size of a displacement. `normalize` is a total function here, although GLSL leaves `normalize` of a zero vector undefined, which happens when a pixel lies exactly on an impulse. `Wave` bounds the wave's amplitude only where the sine value lies in [-1, 1].
- `loadCompositeTexture` is not modelled because it is asynchronous image loading. This covers the `loaded == 2` join, the drawing of the poster and shadow, and the shadow rectangle, which depends on decoded image sizes and on `offsetWidth`.
- DOM style writes, asset URL strings, listener registration and `requestAnimationFrame` scheduling are not modelled because they are side effects without state that the model needs. `performance.now()` and frame timestamps are inputs.
- The render loop's `uTime` update is not modelled. The shader takes the time as a parameter. The first `render()` call, which has no timestamp argument, is also not modelled.
- IEEE-754 rounding is left out. The bob's reversal points, its period and the layout identities hold for exact reals. With doubles, the accumulated `0.15` steps drift slightly.
- Pointer.Normalise: requires a positive scale. A zero-sized viewport makes `currentScale` 0, and JavaScript then produces infinite or NaN coordinates, which reals cannot represent.
- Scene.InitialScene: requires a viewport with positive sides. With a zero side, `currentScale` is 0 and pointer normalisation divides by it.
- Scene.OnResize: requires a viewport with positive sides, for the same reason.
- Scene.Step: resize events with a zero-sized viewport are excluded (`Admissible`) for the same reason.
- RippleShader.Ripple: assumes only that `length` is non-negative, so the `wave` denominator is positive. Because `sin` and `normalize` are uninterpreted, it states when the displacement is zero, not its size. Its 12-second clause covers the impulse's own pixel only because `normalize` of the zero vector is a value in the model. No shader output depends on this, since the loop skips every impulse older than 8 s (`main.js:146`) and never evaluates `ripple` that late.
- ImageCycle.JsRem: states only the range of the remainder for negative dividends. The index never becomes negative.
