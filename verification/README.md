# Effects: particles, fractal gestures and rubber cube

A Dafny model of the computational core of three animated Android views.

- **Particles** (`ViewParticles`). The worker step moves an emitter between random waypoints on a 4000 ms smoothstep-eased cycle. Each step it emits a batch of 100 particles into a first-in-first-out store that evicts its oldest particle once it holds more than 10000. It then advances every particle by the elapsed time, relaxing particles that are very close to the emitter, and decays their speed. The grey ramp the oldest 1000 particles are drawn with is modelled too.
- **Fractal gestures** (`ViewFractal.onTouchEvent`). Two sparse arrays record, by pointer id, where each pointer went down and where it is now. A 3×3 move matrix is recomputed on every move event:
  - one pointer: a pan;
  - two pointers: a zoom about the origin, composed with a rotation about the first pointer's position in device coordinates;
  - any other count: the matrix is kept.

  Lifting a pointer commits the move matrix into the view matrix. The in-place 3×3 `transpose` is modelled as well.
- **Rubber cube** (`ViewRubber`). Static tables give the cube's 6 faces, 16 curved lines and 20 control vertices. The constructor fills the strip buffer. Every 2000 ms the eye point and the jittered vertex targets are refreshed. The `lines` uniform of each face is assembled from the eased vertices.

Modules:

- `Options`: `Option`.
- `Numerics`: 2-vectors, π, and a `Math` record that carries `sqrt`, `acos`, `sin` and `cos` as opaque total functions, plus the value of a float division by zero.
- `Easing`: smoothstep, linear interpolation and the cycle restart shared by the particle and rubber views.
- `Matrix3`: row-major 3×3 matrices with `preConcat`, `setTranslate`, `setScale` and `preRotate` semantics.
- `PointerArray`: `SparseArray` as a strictly id-sorted sequence, so `valueAt(i)` is element `i`.
- `Fractal`, `Particles` and `Rubber`: the three views.

Modelling choices:

- Floats are `real`, with no rounding.
- `Math.random()` values are parameters, assumed to be in [0, 1) where a contract needs it.
- The clock reading `SystemClock.uptimeMillis()` is a parameter.
- The surface size is part of the gesture state.
- Arrays the source updates in place (the `float[9]` of `transpose`, the rubber strip buffer) are sequences. Each in-place write is a sequence update or an append.

Behaviours of the code worth noting:

- The particle store holds up to 10001 particles: the eviction test is `size() > 10000`, made before each insertion.
- Relaxation blends a particle's direction with the unit vector from the emitter to the particle. It pushes particles away from the emitter (`Particles.RelaxedFromRestPointsAway`).
- The rotation pivot of a two-finger gesture is `mPointersMove.valueAt(0)`, the current position of the pointer with the lowest id, whatever order the pointers went down in (`Fractal.PivotIsLowestId`).

## Model

| member | source | states |
|---|---|---|
| Easing.Restart | src/fi/harism/effects/ViewParticles.java:194-200 | the cycle start moves to the current time exactly when more than a period has elapsed; with a clock that never runs backwards, the current time is then at most one period past the start |
| Easing.SmoothstepBounds | src/fi/harism/effects/ViewParticles.java:203-204 | `t*t*(3-2t)` maps [0, 1] into [0, 1] |
| Easing.SmoothstepMonotone | src/fi/harism/effects/ViewParticles.java:203-204 | the easing curve never decreases on [0, 1], so eased motion never turns back |
| Easing.LerpBetween | src/fi/harism/effects/ViewParticles.java:206-211 | `a + (b - a) * t` for t in [0, 1] lies between a and b, whichever is larger |
| Easing.LerpEnds | src/fi/harism/effects/ViewParticles.java:206-211 | interpolation gives the source at t = 0 and the target at t = 1 |
| Easing.CycleFractionInUnit | src/fi/harism/effects/ViewParticles.java:194-203 | after the refresh check, with a clock that never runs backwards, the cycle fraction is in [0, 1] |
| Easing.EasedEnds | src/fi/harism/effects/ViewParticles.java:203-211 | an eased quantity equals its source at the cycle start and its target one period later |
| Easing.EasedBetween | src/fi/harism/effects/ViewParticles.java:203-211 | during a cycle an eased quantity stays between its source and its target |
| Particles.Refresh | src/fi/harism/effects/ViewParticles.java:194-201 | past 4000 ms the old target becomes the source and a new target is drawn in [-1, 1) × [-1, 1) with a heading in [0, 720); otherwise the emitter is unchanged |
| Particles.PoseAt | src/fi/harism/effects/ViewParticles.java:203-211 | the emitter is at its source pose when the cycle starts, at its target pose one period later, and between them coordinate by coordinate in between |
| Particles.SpreadRadians | src/fi/harism/effects/ViewParticles.java:226-227 | the emission angle is the heading plus a spread in [-20, 20) degrees, converted to radians |
| Particles.SpreadLength | src/fi/harism/effects/ViewParticles.java:228 | the direction length factor lies in [0.2, 1) |
| Particles.Insert | src/fi/harism/effects/ViewParticles.java:216-233 | the new particle goes last; the oldest particle is dropped exactly when the store already holds more than 10000; the store never grows past 10001 |
| Particles.InsertAll | src/fi/harism/effects/ViewParticles.java:214-234 | after a batch the store holds min(old size + batch, 10001) particles: the newest of the old store followed by the whole batch, in order |
| Particles.Emit | src/fi/harism/effects/ViewParticles.java:214-234 | the last 100 particles of the store are the new batch, each at the emitter's position with speed 0.8 |
| Particles.Relax | src/fi/harism/effects/ViewParticles.java:241-253 | only particles strictly within 0.2 of the emitter, and not on it, are changed; their new speed is the old speed plus 0.2 minus the distance when that is at most 0.8, and 0.8 otherwise; their position is kept |
| Particles.RelaxedFromRestPointsAway | src/fi/harism/effects/ViewParticles.java:241-248 | a particle at rest near the emitter takes the direction from the emitter to itself, divided by the distance |
| Particles.Advance | src/fi/harism/effects/ViewParticles.java:255-257 | the direction is kept; for an elapsed time in [0, 1] s a non-negative speed stays non-negative and never grows |
| Particles.StepParticle | src/fi/harism/effects/ViewParticles.java:238-258 | relaxing then advancing keeps a speed in [0, 0.8] for an elapsed time in [0, 1] s |
| Particles.Run | src/fi/harism/effects/ViewParticles.java:190-263 | one worker step remembers the clock reading, refreshes the emitter and grows the store to min(size + 100, 10001); it keeps every speed in [0, 0.8] when at most a second has passed |
| Particles.FirstRunReversesSpeed | src/fi/harism/effects/ViewParticles.java:237-257 | as written, the first step at uptime 5000 ms leaves the first emitted particle with speed -3.2, breaking the speed range |
| Particles.StartWorker | src/fi/harism/effects/ViewParticles.java:186-187 | the corrected worker takes its previous-step time from the clock and satisfies the store invariant |
| Particles.StartedWorkerKeepsSpeeds | src/fi/harism/effects/ViewParticles.java:237-260 | the corrected worker's first step within a second keeps every speed in range and holds exactly one batch |
| Particles.Colour | src/fi/harism/effects/ViewParticles.java:115-120 | particle i is drawn with grey level i/1000 below 1000 and full white from 1000 on, always in [0, 1] |
| Particles.ColourMonotone | src/fi/harism/effects/ViewParticles.java:115-120 | older particles are never drawn brighter than newer ones |
| PointerArray.Put | src/fi/harism/effects/ViewFractal.java:121-123 | `put` keeps ids sorted, maps the key to the value and leaves every other key unchanged; it grows the array only for a new key |
| PointerArray.Remove | src/fi/harism/effects/ViewFractal.java:129-130 | `remove` keeps ids sorted, unmaps the key and leaves every other key unchanged; it shrinks the array only if the key was present |
| PointerArray.LowestFirst | src/fi/harism/effects/ViewFractal.java:142-143 | `valueAt(0)` belongs to the lowest id present |
| PointerArray.PutIds | src/fi/harism/effects/ViewFractal.java:121-123 | the ids after `put` are the old ids with the key inserted in order |
| PointerArray.RemoveIds | src/fi/harism/effects/ViewFractal.java:129-130 | the ids after `remove` are the old ids with the key deleted |
| PointerArray.PutPresentKeepsIds | src/fi/harism/effects/ViewFractal.java:136-139 | overwriting a present key keeps the id sequence |
| PointerArray.AlignedIdsSameKeys | src/fi/harism/effects/ViewFractal.java:141-154 | two arrays with the same ids hold the same keys at the same positions, so `valueAt(i)` of both arrays names one pointer |
| Fractal.Initial | src/fi/harism/effects/ViewFractal.java:35-39 | the new view has no pointers and keeps the state invariant |
| Fractal.Down | src/fi/harism/effects/ViewFractal.java:117-125 | a pointer going down is recorded at its position in both arrays; other pointers and both matrices are unchanged |
| Fractal.Up | src/fi/harism/effects/ViewFractal.java:126-134 | a pointer going up leaves both arrays; the view matrix becomes `view × move`, which maps each point as the old move then the old view did; the move matrix is reset |
| Fractal.CommitIdentityKeepsView | src/fi/harism/effects/ViewFractal.java:131-132 | committing an identity move leaves the view matrix as it was |
| Fractal.UpdateMoves | src/fi/harism/effects/ViewFractal.java:136-139 | the sample loop succeeds exactly when every sampled pointer is down; each pointer's current position becomes its last sample, and the ids are kept |
| Fractal.Pivot | src/fi/harism/effects/ViewFractal.java:172-175 | the pivot maps the view's left, right, top and bottom edges to -1, 1, 1 and -1 |
| Fractal.Pan | src/fi/harism/effects/ViewFractal.java:141-149 | one-finger pan translates every point by the finger's travel scaled by 2/width and 2/height, with y inverted; it is the identity when the finger has not moved |
| Fractal.HalfWidthDragPansOneUnit | src/fi/harism/effects/ViewFractal.java:145-148 | dragging half the width to the left pans one unit to the right |
| Fractal.ZoomFactor | src/fi/harism/effects/ViewFractal.java:156-163 | the scale times the current finger distance gives the original distance; the scale is not finite when the fingers coincide, and 1 when they have not moved |
| Fractal.TurnAngle | src/fi/harism/effects/ViewFractal.java:166-170 | the rotation is 0 when neither finger has moved |
| Fractal.ZoomRotate | src/fi/harism/effects/ViewFractal.java:163-175 | the two-finger matrix is affine and, when the current fingers are apart, acts on the pivot as the zoom alone does |
| Fractal.SizesAgree | src/fi/harism/effects/ViewFractal.java:141-154 | both sparse arrays always hold the same number of pointers |
| Fractal.Derive | src/fi/harism/effects/ViewFractal.java:141-176 | one pointer down gives the pan, two give zoom-and-rotate, and any other count keeps the move matrix |
| Fractal.Move | src/fi/harism/effects/ViewFractal.java:135-181 | a move raises exactly when some sample names a pointer that is not down; otherwise it keeps the down samples and the view, sets each pointer's current position to its last sample, and recomputes the move matrix from the updated samples as `Derive` does |
| Fractal.OnTouchEvent | src/fi/harism/effects/ViewFractal.java:113-184 | the event is consumed exactly when it is a down, up or move; only an up changes the view; any other action changes nothing |
| Fractal.OnePointerAtRest | src/fi/harism/effects/ViewFractal.java:141-149 | one pointer that has not moved leaves the move matrix at the identity |
| Fractal.TwoPointersAtRest | src/fi/harism/effects/ViewFractal.java:150-176 | two separate pointers that have not moved leave the move matrix at the identity |
| Fractal.PivotIsLowestId | src/fi/harism/effects/ViewFractal.java:151-175 | with two pointers down the pivot is the current position of the pointer with the lowest id, and, when the current fingers are apart, the move matrix scales it as the zoom alone does |
| Matrix3.Mul | src/fi/harism/effects/ViewFractal.java:131 | the product of two affine matrices is affine and maps every point by the right factor first and then by the left one, which is what `preConcat` promises |
| Matrix3.MulIdentityRight | src/fi/harism/effects/ViewFractal.java:131-132 | composing with the reset move matrix changes nothing |
| Matrix3.MulIdentityLeft | src/fi/harism/effects/ViewFractal.java:164 | a unit scale composed before a matrix changes nothing |
| Matrix3.TranslateMoves | src/fi/harism/effects/ViewFractal.java:148 | `setTranslate(dx, dy)` moves every point by (dx, dy) |
| Matrix3.ScaleStretches | src/fi/harism/effects/ViewFractal.java:164 | `setScale(z, z)` multiplies both coordinates by z |
| Matrix3.RotateAboutFixesPivot | src/fi/harism/effects/ViewFractal.java:175 | a rotation about a pivot leaves the pivot in place |
| Matrix3.ScaledRotationMovesPivot | src/fi/harism/effects/ViewFractal.java:164-175 | the scale pre-concatenated with a rotation moves the pivot exactly as the scale does |
| Matrix3.Transposed | src/fi/harism/effects/ViewFractal.java:189-197 | entry (i, j) of the transpose is entry (j, i) of the matrix |
| Matrix3.TransposeInvolution | src/fi/harism/effects/ViewFractal.java:189-197 | transposing twice restores the matrix |
| Matrix3.Transpose | src/fi/harism/effects/ViewFractal.java:189-197 | the in-place swap loops leave entry (i, j) holding the original entry (j, i) |
| Rubber.TablesInRange | src/fi/harism/effects/ViewRubber.java:36-53 | every face's line numbers, cast to int, index `FACE_LINES`, and every entry there indexes `FACE_VERTICES` |
| Rubber.FaceBufferAt | src/fi/harism/effects/ViewRubber.java:70-80 | buffer position n holds corner n % 4 of vertex pair (n % 80) / 4 in strip half n / 80: even corners the line number, odd corners the curve parameter |
| Rubber.FaceBufferOddInUnit | src/fi/harism/effects/ViewRubber.java:72-79 | every second value of the strip buffer, the curve parameter, lies in [0, 1] |
| Rubber.EdgeRunGrows | src/fi/harism/effects/ViewRubber.java:72-79 | one fill-loop iteration appends exactly the next vertex pair's four floats to what the earlier iterations put |
| Rubber.FillFaceBuffer | src/fi/harism/effects/ViewRubber.java:70-80 | the two fill loops write exactly the 640 allocated bytes, position by position the layout the buffer is defined to have (pairs (0, t), (1, t), then (2, t), (3, t), with t = i/19), and every curve parameter lies in [0, 1] |
| Rubber.Jitter | src/fi/harism/effects/ViewRubber.java:111-113 | a jittered coordinate lies between 0.5 and 1.5 times the table coordinate; zero stays zero |
| Rubber.JitterIsLerp | src/fi/harism/effects/ViewRubber.java:111-113 | jittering interpolates from half to one and a half times the coordinate by the random draw |
| Rubber.Targets | src/fi/harism/effects/ViewRubber.java:108-115 | each new vertex target is the jitter of the table vertex by its own draw; with draws in [0, 1) every target coordinate lies between 0.5 and 1.5 times its table coordinate, and table zeros stay zero |
| Rubber.InitialAtRest | src/fi/harism/effects/ViewRubber.java:54-85 | the constructed scene holds twenty vertices on each side, and until the first refresh every frame has the eye at (0, 0, 5) and every control vertex at the origin |
| Rubber.Refresh | src/fi/harism/effects/ViewRubber.java:103-117 | past 2000 ms the old targets become the sources, the vertex targets are redrawn, the eye target lies in [-5, 5) and the cycle restarts; otherwise nothing changes |
| Rubber.EasedInUnit | src/fi/harism/effects/ViewRubber.java:119-120 | with a clock that never runs backwards, the frame's fraction and eased fraction are in [0, 1] |
| Rubber.Eye | src/fi/harism/effects/ViewRubber.java:122-125 | the eye is at its source when the cycle starts and at its target one period later |
| Rubber.SlotsCoverLines | src/fi/harism/effects/ViewRubber.java:148-157 | `i * 9 + j * 3 + k` maps the 4 × 3 × 3 (line, vertex, coordinate) triples one-to-one onto the 36 positions of `lines` |
| Rubber.VertexOf | src/fi/harism/effects/ViewRubber.java:150-153 | the control vertex a face line names is one of the 20 vertices |
| Rubber.AssembleLines | src/fi/harism/effects/ViewRubber.java:148-160 | every position of `lines` holds the interpolated coordinate of the control vertex its slot names |
| Rubber.LineEnds | src/fi/harism/effects/ViewRubber.java:155-157 | at t = 0 and t = 1 the assembled coordinates are the source and the target vertices |
| Rubber.RefreshIsSeamless | src/fi/harism/effects/ViewRubber.java:102-160 | the frame that starts a new cycle shows the eye and control vertices the previous cycle ended on |

## Left out

- GL and EGL calls, shaders, `loadRawString`/`showError`, the activity, `onSurfaceCreated`, `onSurfaceChanged` (apart from the surface size as state), `onDrawFrame`'s drawing calls, `setLookAtM` and `perspectiveM`: these are rendering, resources or UI.
- Threading: the particle worker is queued with `queueEvent`, so it runs on the render thread between frames. Each worker step is therefore one atomic pure function. The fractal view receives touch events on the UI thread while the render thread draws. A frame can read a half-updated move matrix between `setScale` and `preRotate`, or a view matrix mid-commit. The surface size is written on the render thread and read by touch handling. Each event is modelled as one atomic step, so these unsynchronised accesses are not modelled.
- Float rounding and the `(float)` casts: arithmetic is on `real`. The exception is the `(int)` cast of face line numbers, which is modelled as truncation.
- `Math.random`, `SystemClock.uptimeMillis`, `FloatMath.sqrt`, `sin`, `cos`, `Math.acos`: these are parameters. Their values are not modelled beyond the facts a lemma states in its requirements, such as `sin(0) = 0`. Infinity and NaN from a float division by zero are one unspecified value, `Numerics.Math.nonFinite`. Arithmetic on that value is ordinary real arithmetic, so the spread of Infinity and NaN through later sums and products is not modelled.
- `android.graphics.Matrix` internals: only the affine meaning of `setTranslate`, `setScale`, `preRotate`, `preConcat` and `reset` on row-major 3×3 matrices is modelled. `getValues` is not.
- Fractal.Initial: requires a positive surface size, and the state invariant `Valid` carries it, so the model handles no event at all on a 0 × 0 surface. In the source the width and height are 0 until `onSurfaceChanged`. A down or an up before that divides by nothing. Only a move with one or two pointers divides by the size, and that produces Infinity or NaN in the move matrix, not an exception.
- Fractal.Move: a sample for a pointer that is not down raises a `NullPointerException` (the `NullPointer` outcome). The positions of the samples before it, which the source has already stored, are not part of that outcome.
- Fractal.ZoomRotate: states the pivot equation only when the current fingers are apart. When they coincide the source divides by zero; the resulting Infinity and NaN reach every matrix entry. The model's `nonFinite` is an ordinary real, so it does not track that propagation.
- Fractal.PivotIsLowestId: states the pivot's image only when the current fingers are apart, for the same reason.
- Fractal.Up: when an earlier move left non-finite entries in the move matrix, the source spreads them into the view matrix. The model composes `nonFinite` by real arithmetic instead.
- Fractal.TwoPointersAtRest: states the identity only when the fingers are apart and `sin(0) = 0`, `cos(0) = 1`. The acos of a coinciding pair's `0/0` is not modelled.
- Particles.Run: keeps the speed invariant only when at most one second has passed since the previous step. A longer gap makes the decay factor `1 - dt` negative in the source as well.
- Particles.Advance: bounds the speed only for an elapsed time in [0, 1] s and a non-negative speed; outside that range only the new position and speed are defined.
- The rubber view's vertex arrays are static and shared between instances; the model gives each scene its own.
- The particle view's and fractal view's constructors are modelled only for the state they initialise. Their quad buffers are not modelled.

## Findings

| source | as written | input that shows it | evidently intended | confidence | as-written member | corrected member |
|---|---|---|---|---|---|---|
| src/fi/harism/effects/ViewParticles.java:187 | `mRenderTimeLast` starts at 0, so the first step's elapsed time is the whole uptime in seconds | first worker step at uptime 5000 ms: dt = 5, and a fresh particle's speed becomes 0.8 × (1 − 5) = −3.2 | the first step measures from when the worker started, so dt stays small and speeds stay in [0, 0.8] | not executed | Particles.FirstRunReversesSpeed | Particles.StartWorker |
