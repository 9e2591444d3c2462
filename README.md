# yunglabz-vue helpers in Dafny

A model of the two helper modules of a Vue portfolio site that hold real
logic:

- `src/helpers/animation.js`: the frame-driven `animationLoop(duration,
  callback, easeFunc)`, which fixes its start time on the first frame and
  reports `{progress, duration, delta}` to the callback on every frame,
  clamping progress above at the duration and requesting another frame only
  while progress is below it. The file also holds `lerp` and the easing table
  `ease` (`inOutParametric`, `inOutQuad`).
- `src/helpers/three.js`: `getNested(obj, levels)`, which takes the first
  child `levels + 1` times, and the angle conversions `radToDeg` and
  `degreeToRadian`.

Files:

- `easing.dfy`, module `Easing`: `Lerp`, `InOutParametric` and `InOutQuad`
  as exact real functions, with their fixed points, symmetry, range and
  monotonicity.
- `animation.dfy`, module `Animation`: the class `AnimationLoop`. Its fields
  are the closure variable `start` (an `Option`, `None` for `null`), the
  samples the callback has received, and whether a frame is requested.
  `Frame(timestamp)` is one call of the inner `loop`. `Drive(timestamps)` is
  the host scheduler: it delivers frames while one is requested. The pure
  function `Run` gives the samples that a sequence of frame timestamps
  produces. `Drive` is proved to produce exactly `Run`, and the loop's
  promises are proved as lemmas about `Run`.
- `three.dfy`, module `Three`: the conversions, a `Node(children)` tree, and
  `GetNested` as the source's loop. The loop is proved equal to the function
  `Nested`, and the lemmas are about `Nested`.

Modelling choices:

- JavaScript numbers are exact `real`s. `Math.PI` is the constant `Three.Pi`,
  the shortest decimal of the double, `3.141592653589793`.
- The callback is modelled by recording every sample it receives. The easing
  argument is an `Option<real -> real>`: `None` stands for a missing
  (falsy) `easeFunc`.
- `AnimationLoop.Frame` requires that a frame was requested. The inner
  `loop` is private to `animationLoop`, and only the scheduler calls it, for
  a frame that `requestAnimationFrame` asked for.
- A duration of zero is excluded by a precondition, because `0 / 0` is
  `NaN` in the source. A negative duration is allowed and follows the code:
  the first frame has elapsed time `0 >= duration`, so it reports progress
  `duration` and raw fraction 1, and no more frames are requested.
- `getNested` has three outcomes in JavaScript. Reading `children[0]` of an
  object with no children gives `undefined`. Reading `.children` of
  `undefined` on a later pass throws a `TypeError`. The model returns
  `Found(node)`, `Undefined` or `TypeError` and has no precondition. A lemma
  says exactly which chains give which outcome.

## Model

| member | source | states |
|---|---|---|
| Animation.Progress | src/helpers/animation.js:8-9 | progress is the minimum of the elapsed time and the duration: at most both, equal to one of them, and below the duration exactly when the elapsed time is |
| Animation.Run | src/helpers/animation.js:4-22 | samples produced by a sequence of frames: at most one per frame, and at least one when a frame is delivered |
| Animation.AnimationLoop.constructor | src/helpers/animation.js:1-22 | a new run has start null, no samples, and a frame requested; it keeps the duration and the ease |
| Animation.AnimationLoop.Frame | src/helpers/animation.js:4-21 | one frame sets start if it was null, appends the clamped sample, and keeps a frame requested exactly when progress is below the duration; the invariant Valid (one start, progress at most the duration, only the last sample reaching it) is preserved |
| Animation.AnimationLoop.Drive | src/helpers/animation.js:18-22 | delivering frames while one is requested appends exactly the samples of Run; start becomes the first delivered frame's start (its timestamp if start was null) and is otherwise unchanged |
| Animation.RunFromStart | src/helpers/animation.js:2-7 | once start is set, no later frame changes it: sample k is computed from that start and timestamp k |
| Animation.RunFreshStart | src/helpers/animation.js:5-7 | a fresh run uses its first frame's timestamp as start |
| Animation.RunShape | src/helpers/animation.js:8-20 | every sample carries the duration and a progress at most the duration; every sample but the last is below it; a run that ends early ends at progress equal to the duration |
| Animation.RunStopsAtDuration | src/helpers/animation.js:8-20 | frames before the last have elapsed time below the duration; a run that ends early ends at the first frame whose elapsed time reaches it, with progress equal to the duration and raw fraction 1 |
| Animation.SampleCompletes | src/helpers/animation.js:8-10 | a sample reaches the duration exactly when its elapsed time does, and then has raw fraction 1 |
| Animation.RunFirstFrame | src/helpers/animation.js:5-19 | with a positive duration the first frame reports progress 0 and raw fraction 0 and requests another frame |
| Animation.RunNegativeDuration | src/helpers/animation.js:8-18 | with a negative duration exactly one sample is reported, with progress equal to the duration and raw fraction 1 |
| Animation.RunMonotone | src/helpers/animation.js:8-9 | for non-decreasing timestamps, progress stays in [0, duration] and never decreases across frames |
| Animation.RunRawDelta | src/helpers/animation.js:8-16 | with no ease and non-decreasing timestamps, delta is progress over duration, lies in [0, 1], never decreases, starts at 0, and is 1 on the frame whose progress reaches the duration |
| Animation.ExampleRun | src/helpers/animation.js:1-22 | a 1000 ms run with inOutQuad fed frames at 0, 500, 1000, 1500 reports progress 0, 500, 1000 with delta 0, 0.5, 1, and then stops |
| Easing.Lerp | src/helpers/animation.js:29-31 | lerp moves the fraction amt from start to end; amt 0 gives start and amt 1 gives end |
| Easing.LerpMidpoint | src/helpers/animation.js:29-31 | lerp at one half is the average of the ends |
| Easing.LerpConstant | src/helpers/animation.js:29-31 | lerp between equal ends is that value |
| Easing.LerpSwap | src/helpers/animation.js:29-31 | swapping the ends is the same as using 1 - amt |
| Easing.ParametricDenominator | src/helpers/animation.js:36 | the denominator 2(n^2 - n) + 1 is at least one half, so it is never zero |
| Easing.InOutParametric | src/helpers/animation.js:34-37 | the value lies in [0, 1] for every input; 0 maps to 0 and 1 maps to 1 |
| Easing.ParametricDenominatorSymmetric | src/helpers/animation.js:36 | the denominator is the same at n and 1 - n |
| Easing.InOutParametricSymmetric | src/helpers/animation.js:34-37 | inOutParametric(1 - n) = 1 - inOutParametric(n) |
| Easing.InOutParametricMidpoint | src/helpers/animation.js:34-37 | inOutParametric(0.5) = 0.5 |
| Easing.InOutQuad | src/helpers/animation.js:38-43 | 2n^2 up to one half, the mirrored parabola 1 - 2(1 - n)^2 above |
| Easing.InOutQuadValues | src/helpers/animation.js:38-43 | inOutQuad maps 0, 0.5 and 1 to themselves |
| Easing.InOutQuadContinuousAtHalf | src/helpers/animation.js:38-43 | on [0, 1], inOutQuad(n) is on the same side of 0.5 as n and at most 2·abs(n - 0.5) away from 0.5, so both branches meet at 0.5 and the curve is continuous there |
| Easing.InOutQuadSymmetric | src/helpers/animation.js:38-43 | inOutQuad(1 - n) = 1 - inOutQuad(n) for every n |
| Easing.InOutQuadMonotone | src/helpers/animation.js:38-43 | on [0, 1] inOutQuad stays in [0, 1] and never decreases |
| Three.RadToDeg | src/helpers/three.js:27-29 | degrees times Pi equal radians times 180 |
| Three.DegreeToRadian | src/helpers/three.js:31-33 | radians times 180 equal degrees times Pi |
| Three.AngleRoundTrips | src/helpers/three.js:27-33 | the two conversions undo each other in both orders |
| Three.AngleValues | src/helpers/three.js:27-33 | 180 degrees is Pi radians, Pi radians is 180 degrees, and 0 maps to 0 |
| Three.GetNested | src/helpers/three.js:43-51 | the loop's result equals Nested(obj, levels), the outcome of levels + 1 first-child steps |
| Three.DescendFromError | src/helpers/three.js:46-48 | once thrown, the error stays an error |
| Three.DescendAdd | src/helpers/three.js:46-48 | i steps then j steps equal i + j steps |
| Three.NestedNegative | src/helpers/three.js:44-46 | a negative levels returns obj itself |
| Three.NestedZero | src/helpers/three.js:43-51 | getNested(obj, 0) is obj's first child, or undefined if obj has no children |
| Three.NestedOutcome | src/helpers/three.js:43-51 | a node is returned exactly when every node of the first-child chain down to depth levels has children; a TypeError exactly when one of them above depth levels has none |
| Three.NestedFirstChildren | src/helpers/three.js:43-51 | with a complete chain, getNested(obj, levels) is getNested(obj.children[0], levels - 1) and finds a node |
| Three.NestedCompose | src/helpers/three.js:46-48 | for a, b >= 0, getNested(getNested(obj, a), b) = getNested(obj, a + b + 1) when the inner call finds a node |

## Left out

- `requestAnimationFrame` and the real frame timing: the host delivers
  frames as a sequence of timestamps given to `AnimationLoop.Drive`. The
  model does not capture when frames arrive or that several runs can
  interleave.
- The callback's own side effects: the model records the samples it receives
  and nothing more.
- Exceptions from `callback` or `easeFunc`: the model assumes both always
  return. In the source, a throw from either leaves `loop` before the
  reschedule check (src/helpers/animation.js:12-20), so the run ends without
  requesting another frame. If `easeFunc` throws, the callback is not called
  for that frame. The model's rule "a frame is requested exactly while
  progress is below the duration" holds only when neither throws.
- `setCssVar` (src/helpers/animation.js:25-27): a DOM side effect.
- `Group`, `Mesh`, `V3`, `position`, `scale` and `Clone` in
  src/helpers/three.js: thin wrappers over the three.js library, which is not
  part of this model.
- `loadModel` (src/helpers/three.js:53-67): asynchronous loading through a
  foreign loader.
- `foo` (src/helpers/three.js:35-37): it returns a constant string.
- src/store/index.js, src/router/index.js and vue.config.js: a Vuex store
  with plain assignments, a static route table and build configuration.
- IEEE-754 rounding, `NaN` and `Infinity`: all arithmetic is exact over
  `real`, so a duration of 0 is excluded rather than modelled as `NaN`.
  Fractional or non-numeric `levels` in `getNested` are not modelled:
  `levels` is an integer.
- A completion callback and a bezier ease: the source has neither.
