# Scene of a path tracer, modelled in Dafny

This project models the `Scene` of a stochastic path tracer (`pt/scene.go`):
its build-then-compile lifecycle, its three queries against the shape tree
and the light tree, next-event estimation of direct light, the recursive
radiance estimator and the stratified top-level sampler. The model proves
properties about all of these.

The model is split over five files:

- `wrappers.dfy` holds `Option`.
- `colors.dfy` holds `Color`: a triple of reals with `Add`, `Mul`, `MulColor` and `Div`, and non-negativity lemmas.
- `geometry.dfy` holds the geometric value types. It also holds `Env`, the bundle of collaborators the scene calls but does not define.
- `scene.dfy` holds module `Scenes`: the `Scene` class and the functions that specify it.
- `properties.dfy` holds module `SceneProperties`: lemmas relating the operations, and independent reference definitions.

Modelling choices:

- **Collaborators.** These are the fields of `Env`:
  - tree `Intersect` and `Shadow`;
  - `Shape.Color`, `Shape.Material` and `Shape.RandomPoint`;
  - `Ray.Bounce`;
  - `Vector.Length` and `Vector.Normalize`;
  - the uniform draws of the random generator.

  They are uninterpreted. Only two predicates constrain them:
  - `Env.Valid()`: draws lie in [0,1), and an empty tree neither hits nor shadows.
  - `Env.Physical()`: colours are non-negative and tints lie in [0,1].
- **Trees.** A tree is modelled as the list it was built from (`Tree(shapes)`). Before the first `Compile` it is `None`, which stands for Go's nil pointer.
- **Random generator.** The generator is a position `Rng` on a tape of draws (`env.draws`). Each estimator receives a position and returns the position after its last draw. `RandomPoint` returns the new position, so the order of draws is part of every result.
- **Imperative and pure parts.**
  - `Scene` is a class whose methods change its fields: `Compile`, `AddShape` and `AddLight`.
  - `DirectLight` and `Sample` are methods with loops. Each is proved equal to a fold over a value snapshot `SceneState` of the scene: `LightsSum` and `Accumulate` over `GridCells` respectively.
  - `SampleRow` and `SampleCell` are the inner loop and the loop body of `Sample`.
  - `IntersectShapes`, `IntersectLights`, `Shadow` and `RecursiveSample` are pure functions of that snapshot. `RecursiveSample` terminates by `decreases depth + 1`.
- **Snapshot behaviour.** `DirectLight` iterates the live `lights` list, not the light tree. Lights added after `Compile` therefore change direct lighting at once. The trees are snapshots: later `AddShape`/`AddLight` calls do not change what the three tree queries see until `Compile` runs again (`TreeQueriesReadOnlyTrees`, `SnapshotScenario`). Next-event estimation is the exception, because it reads the list itself (`DirectLightIgnoresLightTree`).

## Model

| member | source | states |
|---|---|---|
| Scenes.Scene.constructor | pt/scene.go:8-13 | a new scene has empty shape and light lists and no trees (Go's zero value) |
| Scenes.Scene.Compile | pt/scene.go:15-18 | afterwards the shape tree is built from the current shapes and the light tree from the current lights; the lists are unchanged |
| Scenes.Scene.AddShape | pt/scene.go:20-22 | appends exactly one shape to the end of `shapes`; `lights` and both trees are unchanged |
| Scenes.Scene.AddLight | pt/scene.go:24-26 | appends exactly one light to the end of `lights`; `shapes` and both trees are unchanged |
| SceneProperties.SnapshotScenario | pt/scene.go:15-22 | after add, compile, add: the list holds both shapes, the tree only the first, and every shape query answers from the first alone |
| SceneProperties.TreeQueriesReadOnlyTrees | pt/scene.go:28-47 | IntersectShapes, IntersectLights and Shadow depend only on the two trees, so list changes after Compile do not alter them |
| Scenes.IntersectShapes | pt/scene.go:28-30 | the shape tree's nearest hit; depends only on the shape tree (`TreeQueriesReadOnlyTrees`); misses on an empty tree (`EmptyScene`) |
| Scenes.IntersectLights | pt/scene.go:32-42 | always returns the light tree's hit; found iff the light tree hits and the shape tree either misses or hits strictly farther away; because the comparison is strict, a light that is also a shape at the same distance is never reported (`SharedLightNeverReported`) |
| Scenes.Shadow | pt/scene.go:44-47 | true iff the shape tree's shadow distance is finite and strictly less than `max` |
| SceneProperties.SharedLightNeverReported | pt/scene.go:36-38 | with the light tree built from the same list as the shape tree, a light ties with itself and is never reported, so a reflected ray is traced like an unreflected one |
| SceneProperties.ShadowMonotone | pt/scene.go:44-47 | a shadow found within a distance is found within every larger distance |
| Scenes.ShadowRay | pt/scene.go:53-54 | the ray from the shading point towards the sampled light point, with normalised direction |
| Scenes.Occluded | pt/scene.go:53-55 | the shadow test towards the sampled point, with the distance to that point as the limit |
| Scenes.Max | pt/scene.go:58 | `math.Max` on reals: at least both arguments and equal to one of them |
| Scenes.Cosine | pt/scene.go:58 | the light weight is non-negative, at least the cosine, and equal to either zero or the cosine |
| Scenes.LightsSum | pt/scene.go:50-60 | the direct-light loop as a left fold over the light list: one RandomPoint per light, occluded lights adding nothing (proved equal to an independent per-light sum by `LightsSumIsPerLightSum`) |
| Scenes.DirectLightSpec | pt/scene.go:49-62 | direct light as the fold's sum divided by the number of lights (its meaning: `DirectLightIsMean`) |
| Scenes.Scene.DirectLight | pt/scene.go:49-62 | equals `DirectLightSpec`: the loop over the live light list, where an occluded light adds nothing, divided by the light count |
| SceneProperties.LightsSumIsPerLightSum | pt/scene.go:51-60 | the loop's running sum is the sum of independent per-light contributions (zero when occluded, colour times clamped cosine otherwise); the generator moves once per light, in list order, whatever is occluded |
| SceneProperties.DirectLightIsMean | pt/scene.go:49-62 | direct light is the per-light sum divided by the number of lights; its draws are exactly one RandomPoint per light |
| SceneProperties.DirectLightIgnoresLightTree | pt/scene.go:51 | next-event estimation reads the light list, never the light tree |
| SceneProperties.DirectLightNonNegative | pt/scene.go:58-59 | with non-negative emitters, direct light is non-negative: no light is weighted negatively |
| Scenes.DrawAndBounce | pt/scene.go:81-82 | a bounce consumes exactly three uniforms |
| Scenes.RecursiveSample | pt/scene.go:64-96 | defined below depth 0, on a miss and at a light reached by reflection whatever the light count; black when depth < 0; after a reflection, a visible light returns its colour at the hit point with no recursion and no draws; black on a miss |
| SceneProperties.PathBounces | pt/scene.go:64-83 | the path recurses with depth - 1 at each bounce, so it makes no bounce below depth 0 and at most depth + 1 bounces |
| SceneProperties.ReflectionsOnlyDraws | pt/scene.go:81-91 | on a path made only of reflections RecursiveSample moves the generator by exactly three draws per bounce |
| SceneProperties.SpecularShortcut | pt/scene.go:68-91 | a chain of untinted mirror bounces ending on a visible light yields exactly that light's colour and draws only three uniforms per bounce |
| SceneProperties.MirrorEnd | pt/scene.go:68-73 | the end of a mirror chain is a ray that sees a light |
| Scenes.Specular | pt/scene.go:84-91 | the reflection blend: tint <= 0 returns exactly `indirect`; tint 1 gives `color*indirect`; a white surface passes `indirect` through |
| Scenes.Diffuse | pt/scene.go:93-94 | the diffuse rule `color*(direct+indirect)`: a white surface passes direct plus indirect through, a black one gives black, non-negative inputs give a non-negative result |
| Scenes.Shade | pt/scene.go:84-95 | the combination rule shared by both samplers: the reflection blend with no further draw, or one direct-light estimate at the surface followed by the diffuse rule (its draws: `ShadeDraws`) |
| SceneProperties.ShadeDraws | pt/scene.go:84-95 | direct light is estimated only on the diffuse branch: a reflection draws nothing more, a diffuse bounce draws one point per light |
| SceneProperties.SpecularNonNegative | pt/scene.go:85-88 | the tint blend of non-negative colours with a tint in [0,1] is non-negative |
| SceneProperties.ShadeNonNegative | pt/scene.go:84-95 | both branches of the combination rule keep colour non-negative |
| SceneProperties.RecursiveSampleNonNegative | pt/scene.go:64-96 | for physical surfaces the recursive estimate is non-negative at every depth |
| Scenes.StrataPerAxis | pt/scene.go:110 | `n = floor(sqrt(samples))`: n*n <= samples < (n+1)*(n+1) |
| SceneProperties.StrataOfSquare | pt/scene.go:110 | for a perfect square k*k the grid side is exactly k |
| Scenes.Jitter | pt/scene.go:114-115 | a draw in [0,1) puts the jittered coordinate of cell k in [k/n, (k+1)/n) |
| Scenes.RowCells | pt/scene.go:112 | the inner loop visits (u, 0), ..., (u, n-1) in order |
| Scenes.GridCells | pt/scene.go:111-112 | row-major order over n rows: n*n cells, the k-th being the cell with u*n + v == k |
| SceneProperties.GridCovers | pt/scene.go:111-112 | every cell of the first `rows` rows is visited |
| SceneProperties.GridVisitsEveryCellOnce | pt/scene.go:111-112 | Sample evaluates exactly n*n strata, every cell of the n-by-n grid exactly once |
| Scenes.EvaluateCell | pt/scene.go:113-129 | one stratum as a function: lobe draw, jitter draws inside the cell, bounce from the primary hit, recursion at depth - 1, combination rule |
| Scenes.Accumulate | pt/scene.go:109-131 | the strata evaluated in order and summed from a starting colour, each stratum drawing where the previous one stopped |
| Scenes.Scene.SampleCell | pt/scene.go:113-129 | one stratum: the lobe draw, two jitter draws, the bounce from the primary hit, the recursion at depth - 1, the combination rule |
| Scenes.Scene.SampleRow | pt/scene.go:112-130 | the inner loop adds its n strata, in order, to the running sum |
| Scenes.AccumulateAppend | pt/scene.go:111-131 | summing two stretches of strata equals summing the second from where the first left the sum and the generator |
| Scenes.SampleSpec | pt/scene.go:98-105 | black when depth < 0 or when the primary ray misses, without any draw |
| Scenes.Scene.Sample | pt/scene.go:98-133 | callable below depth 0 and on a miss whatever the light count and `samples`; equals `SampleSpec`: black below depth 0 or on a miss, otherwise the sum over the n*n grid in row-major order divided by n*n (not by `samples`) |
| SceneProperties.SampleNonNegative | pt/scene.go:98-133 | for physical surfaces the top-level estimate is non-negative |
| SceneProperties.EmptyScene | pt/scene.go:98-105 | a scene compiled with no shapes never shadows and samples black for any light count and any `samples`; with no lights either, every recursive sample is black |
| SceneProperties.ZeroSceneIsBlack | pt/scene.go:98-105 | a scene compiled with nothing added samples black for every `samples` and depth, and so does every recursive sample |

## Left out

- Floating point: colours, distances and tints are reals, so rounding, NaN and infinities are not modelled.
- Zero lights: Go's `DirectLight` then divides by zero and returns NaN components. `DirectLight` requires at least one light (`SceneState.Ready`).
- Scenes.RecursiveSample: at depth >= 0 it requires compiled trees, and a light whenever the ray reaches a surface (`Traceable`). Go needs a light only once a diffuse bounce happens further down, so a purely reflecting path in a scene without lights, which Go evaluates without dividing, is not covered.
- Scenes.Scene.Sample: at depth >= 0 it requires compiled trees, and on a primary hit a light and `samples >= 1` (`Sampleable`). With a hit and `samples < 1` Go divides by n*n = 0, or takes the square root of a negative number, and returns NaN; on a miss nothing is required beyond compiled trees. Go divides by the light count only in strata whose path makes a diffuse bounce, so a primary hit in a scene without lights whose strata all reflect, which Go evaluates to black without dividing, is not covered.
- Scenes.SampleSpec: same requirement as `Scene.Sample`, and the same uncovered reflection-only case without lights.
- Queries before the first `Compile`: every query requires compiled trees (`SceneState.Compiled`). In Go such a query calls a method on a nil tree pointer (pt/scene.go:29, 33, 45), whose behaviour depends on the tree code, which is not part of this model.
- Scenes.StrataPerAxis: it is the exact integer square root. `int(math.Sqrt(float64(samples)))` agrees with it only while float64 rounding is exact, which excludes very large `samples`.
- Trees, shapes, `Bounce` and vectors: `NewTree`, tree traversal, shape geometry, materials and `Ray.Bounce` are defined in other files. They are not part of this model and appear only as fields of `Env`.
- `math/rand` internals: the generator is a tape of draws. Only `Env.Valid` assumes each draw is in [0,1).
- Statistics: convergence and variance of the estimators cannot be stated as deterministic contracts.
- Concurrency: parallel use by the renderer is out of scope; the scene does no synchronisation.
- Shadow epsilon: self-intersection offsets live in the tree and shape code, not in pt/scene.go.
- The incoming ray `i` of `DirectLight` is accepted and unused, as in pt/scene.go.
- Scenes.Scene.Compile, Scenes.Scene.AddShape, Scenes.Scene.AddLight: appending is modelled as reassigning a `seq` field. Go slice aliasing and capacity are not modelled.
