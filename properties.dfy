/**
 * Properties of the scene's estimators: what next-event estimation adds up
 * and in which order it draws, non-negativity of every estimate, the
 * specular shortcut, the shape of the stratification grid, and the
 * build-then-compile snapshot.
 */
module SceneProperties {
  import opened Wrappers
  import opened Colors
  import opened Geometry
  import opened Scenes

  // ---------------------------------------------------------------------
  // Direct light: an independent, per-light definition
  // ---------------------------------------------------------------------

  /** The generator position after one RandomPoint call per light of `ls`, in list order. */
  function Consume(env: Env, ls: seq<Shape>, g: Rng): Rng
    decreases |ls|
  {
    if ls == [] then g else Consume(env, ls[1..], env.randomPoint(ls[0], g).1)
  }

  /** What one light adds when its point is drawn at position `g`: nothing if occluded, else its colour weighted by the clamped cosine. */
  function Contribution(sc: SceneState, env: Env, light: Shape, n: Ray, g: Rng): Color
    requires sc.Compiled()
  {
    var p := env.randomPoint(light, g).0;
    if Occluded(sc, env, n, p) then Black else env.colorAt(light, p).Mul(Cosine(env, n, p))
  }

  /** The sum of every light's contribution, light k drawing where lights 0..k-1 left the generator. */
  function PerLightSum(sc: SceneState, env: Env, ls: seq<Shape>, n: Ray, g: Rng): Color
    requires sc.Compiled()
    decreases |ls|
  {
    if ls == [] then Black
    else Contribution(sc, env, ls[0], n, g).Add(PerLightSum(sc, env, ls[1..], n, env.randomPoint(ls[0], g).1))
  }

  lemma {:induction false} ConsumeAppend(env: Env, ls: seq<Shape>, light: Shape, g: Rng)
    ensures Consume(env, ls + [light], g) == env.randomPoint(light, Consume(env, ls, g)).1
    decreases |ls|
  {
    if ls == [] {
      assert (ls + [light])[1..] == [];
    } else {
      assert (ls + [light])[1..] == ls[1..] + [light];
      ConsumeAppend(env, ls[1..], light, env.randomPoint(ls[0], g).1);
    }
  }

  lemma {:induction false} PerLightSumAppend(sc: SceneState, env: Env, ls: seq<Shape>, light: Shape, n: Ray, g: Rng)
    requires sc.Compiled()
    ensures PerLightSum(sc, env, ls + [light], n, g) ==
            PerLightSum(sc, env, ls, n, g).Add(Contribution(sc, env, light, n, Consume(env, ls, g)))
    decreases |ls|
  {
    if ls == [] {
      assert (ls + [light])[1..] == [];
    } else {
      assert (ls + [light])[1..] == ls[1..] + [light];
      PerLightSumAppend(sc, env, ls[1..], light, n, env.randomPoint(ls[0], g).1);
    }
  }

  /**
   * The direct-light loop computes the plain sum of the per-light
   * contributions, and leaves the generator exactly one RandomPoint call per
   * light further on, in list order, whatever is occluded.
   */
  lemma {:induction false} LightsSumIsPerLightSum(sc: SceneState, env: Env, ls: seq<Shape>, n: Ray, g: Rng)
    requires sc.Compiled()
    ensures LightsSum(sc, env, ls, n, g) == (PerLightSum(sc, env, ls, n, g), Consume(env, ls, g))
    decreases |ls|
  {
    if ls != [] {
      var init, light := ls[..|ls| - 1], ls[|ls| - 1];
      assert ls == init + [light];
      LightsSumIsPerLightSum(sc, env, init, n, g);
      ConsumeAppend(env, init, light, g);
      PerLightSumAppend(sc, env, init, light, n, g);
    }
  }

  /** DirectLight is the mean of the per-light contributions over the live light list. */
  lemma DirectLightIsMean(sc: SceneState, env: Env, n: Ray, g: Rng)
    requires sc.Ready()
    ensures DirectLightSpec(sc, env, n, g) ==
            (PerLightSum(sc, env, sc.lights, n, g).Div(|sc.lights| as real), Consume(env, sc.lights, g))
  {
    LightsSumIsPerLightSum(sc, env, sc.lights, n, g);
  }

  /** Next-event estimation iterates the live light list and never consults the light tree. */
  lemma DirectLightIgnoresLightTree(sc: SceneState, env: Env, n: Ray, g: Rng, t: Tree)
    requires sc.Ready()
    ensures DirectLightSpec(sc.(lightTree := Some(t)), env, n, g) == DirectLightSpec(sc, env, n, g)
  {
    LightsSumIsPerLightSum(sc, env, sc.lights, n, g);
    LightsSumIsPerLightSum(sc.(lightTree := Some(t)), env, sc.lights, n, g);
    PerLightSumIgnoresLightTree(sc, env, sc.lights, n, g, t);
  }

  lemma {:induction false} PerLightSumIgnoresLightTree(sc: SceneState, env: Env, ls: seq<Shape>, n: Ray, g: Rng, t: Tree)
    requires sc.Compiled()
    ensures PerLightSum(sc.(lightTree := Some(t)), env, ls, n, g) == PerLightSum(sc, env, ls, n, g)
    decreases |ls|
  {
    if ls != [] {
      PerLightSumIgnoresLightTree(sc, env, ls[1..], n, env.randomPoint(ls[0], g).1, t);
    }
  }

  /** The combination rule draws nothing on a reflected bounce and exactly the direct-light draws on a diffuse one. */
  lemma ShadeDraws(sc: SceneState, env: Env, surface: Ray, color: Color, material: Material, reflected: bool, indirect: Color, g: Rng)
    requires sc.Ready()
    ensures Shade(sc, env, surface, color, material, reflected, indirect, g).1 ==
            if reflected then g else Consume(env, sc.lights, g)
  {
    if !reflected {
      DirectLightIsMean(sc, env, surface, g);
    }
  }

  // ---------------------------------------------------------------------
  // Non-negativity
  // ---------------------------------------------------------------------

  lemma {:induction false} LightsSumNonNegative(sc: SceneState, env: Env, ls: seq<Shape>, n: Ray, g: Rng)
    requires sc.Compiled() && env.Physical()
    ensures LightsSum(sc, env, ls, n, g).0.NonNegative()
    decreases |ls|
  {
    if ls != [] {
      var init, light := ls[..|ls| - 1], ls[|ls| - 1];
      LightsSumNonNegative(sc, env, init, n, g);
      var (acc, g1) := LightsSum(sc, env, init, n, g);
      var p := env.randomPoint(light, g1).0;
      assert env.colorAt(light, p).NonNegative();
      MulNonNegative(env.colorAt(light, p), Cosine(env, n, p));
      AddNonNegative(acc, env.colorAt(light, p).Mul(Cosine(env, n, p)));
    }
  }

  /** Every light is weighted by a clamped cosine, so with non-negative emitters the direct estimate is non-negative. */
  lemma DirectLightNonNegative(sc: SceneState, env: Env, n: Ray, g: Rng)
    requires sc.Ready() && env.Physical()
    ensures DirectLightSpec(sc, env, n, g).0.NonNegative()
  {
    LightsSumNonNegative(sc, env, sc.lights, n, g);
    DivNonNegative(LightsSum(sc, env, sc.lights, n, g).0, |sc.lights| as real);
  }

  lemma SpecularNonNegative(color: Color, tint: real, indirect: Color)
    requires color.NonNegative() && indirect.NonNegative() && 0.0 <= tint <= 1.0
    ensures Specular(color, tint, indirect).NonNegative()
  {
    if tint > 0.0 {
      MulNonNegative(indirect, tint);
      MulColorNonNegative(color, indirect.Mul(tint));
      MulNonNegative(indirect, 1.0 - tint);
      AddNonNegative(color.MulColor(indirect.Mul(tint)), indirect.Mul(1.0 - tint));
    }
  }

  lemma ShadeNonNegative(sc: SceneState, env: Env, surface: Ray, color: Color, material: Material, reflected: bool, indirect: Color, g: Rng)
    requires sc.Ready() && env.Physical()
    requires color.NonNegative() && indirect.NonNegative() && 0.0 <= material.tint <= 1.0
    ensures Shade(sc, env, surface, color, material, reflected, indirect, g).0.NonNegative()
  {
    if reflected {
      SpecularNonNegative(color, material.tint, indirect);
    } else {
      var direct := DirectLightSpec(sc, env, surface, g).0;
      DirectLightNonNegative(sc, env, surface, g);
      AddNonNegative(direct, indirect);
      MulColorNonNegative(color, direct.Add(indirect));
    }
  }

  /** With non-negative colours and tints in [0,1], the recursive estimate is non-negative at every depth. */
  lemma {:induction false} RecursiveSampleNonNegative(sc: SceneState, env: Env, r: Ray, reflected: bool, depth: int, g: Rng)
    requires Traceable(sc, env, r, reflected, depth) && env.Physical()
    ensures RecursiveSample(sc, env, r, reflected, depth, g).0.NonNegative()
    decreases depth + 1
  {
    if depth >= 0 && !(reflected && IntersectLights(sc, env, r).ok) {
      var h := IntersectShapes(sc, env, r);
      if h.ok {
        var color := ColorAt(env, h.hit);
        var material := MaterialAt(env, h.hit);
        assert color.NonNegative() && 0.0 <= material.tint <= 1.0;
        var ((ray, bounced), g1) := DrawAndBounce(env, h.hit.ray, r, material, g);
        RecursiveSampleNonNegative(sc, env, ray, bounced, depth - 1, g1);
        var (indirect, g2) := RecursiveSample(sc, env, ray, bounced, depth - 1, g1);
        ShadeNonNegative(sc, env, h.hit.ray, color, material, bounced, indirect, g2);
      }
    } else if depth >= 0 {
      var hit := IntersectLights(sc, env, r).hit;
      assert env.colorAt(hit.shape, hit.ray.origin).NonNegative();
    }
  }

  lemma {:induction false} AccumulateNonNegative(sc: SceneState, env: Env, pr: Primary, n: nat, depth: int, cells: seq<Cell>, acc: Color, g: Rng)
    requires sc.Ready() && n > 0 && env.Physical()
    requires pr.color.NonNegative() && 0.0 <= pr.material.tint <= 1.0 && acc.NonNegative()
    ensures Accumulate(sc, env, pr, n, depth, cells, acc, g).0.NonNegative()
    decreases |cells|
  {
    if cells != [] {
      AccumulateNonNegative(sc, env, pr, n, depth, cells[..|cells| - 1], acc, g);
      var (sum, g1) := Accumulate(sc, env, pr, n, depth, cells[..|cells| - 1], acc, g);
      var cell := cells[|cells| - 1];
      var fu := Jitter(cell.u, env.draws(g1 + 1), n);
      var fv := Jitter(cell.v, env.draws(g1 + 2), n);
      var (ray, reflected) := env.bounce(pr.surface, pr.incoming, pr.material, env.draws(g1), fu, fv);
      RecursiveSampleNonNegative(sc, env, ray, reflected, depth - 1, g1 + 3);
      var (indirect, g2) := RecursiveSample(sc, env, ray, reflected, depth - 1, g1 + 3);
      ShadeNonNegative(sc, env, pr.surface, pr.color, pr.material, reflected, indirect, g2);
      AddNonNegative(sum, EvaluateCell(sc, env, pr, n, depth, cell, g1).0);
    }
  }

  /** The top-level estimate is non-negative for physically meaningful surfaces. */
  lemma SampleNonNegative(sc: SceneState, env: Env, r: Ray, samples: int, depth: int, g: Rng)
    requires Sampleable(sc, env, r, samples, depth) && env.Physical()
    ensures SampleSpec(sc, env, r, samples, depth, g).0.NonNegative()
  {
    if depth >= 0 && IntersectShapes(sc, env, r).ok {
      var hit := IntersectShapes(sc, env, r).hit;
      var pr := Primary(r, hit.ray, ColorAt(env, hit), MaterialAt(env, hit));
      assert pr.color.NonNegative() && 0.0 <= pr.material.tint <= 1.0;
      var n := StrataPerAxis(samples);
      assert n >= 1;
      AccumulateNonNegative(sc, env, pr, n, depth, GridCells(n, n), Black, g);
      DivNonNegative(Accumulate(sc, env, pr, n, depth, GridCells(n, n), Black, g).0, (n * n) as real);
    }
  }

  // ---------------------------------------------------------------------
  // Recursion depth
  // ---------------------------------------------------------------------

  /**
   * The number of bounces RecursiveSample makes along its path: none below
   * depth zero, at a light reached by reflection or on a miss, and at most
   * depth + 1 in all. Termination itself is RecursiveSample's
   * `decreases depth + 1`; ReflectionsOnlyDraws ties this count to the
   * generator position RecursiveSample returns.
   */
  ghost function PathBounces(sc: SceneState, env: Env, r: Ray, reflected: bool, depth: int, g: Rng): (b: nat)
    requires Traceable(sc, env, r, reflected, depth)
    ensures depth < 0 ==> b == 0
    ensures depth >= 0 ==> b <= depth + 1
    decreases depth + 1
  {
    if depth < 0 || (reflected && IntersectLights(sc, env, r).ok) then 0
    else
      var h := IntersectShapes(sc, env, r);
      if !h.ok then 0
      else
        var ((ray, bounced), g1) := DrawAndBounce(env, h.hit.ray, r, MaterialAt(env, h.hit), g);
        1 + PathBounces(sc, env, ray, bounced, depth - 1, g1)
  }

  /** Every bounce RecursiveSample makes along its path is a reflection, so no direct-light estimate is made. */
  ghost predicate ReflectionsOnly(sc: SceneState, env: Env, r: Ray, reflected: bool, depth: int, g: Rng)
    requires Traceable(sc, env, r, reflected, depth)
    decreases depth + 1
  {
    if depth < 0 || (reflected && IntersectLights(sc, env, r).ok) then true
    else
      var h := IntersectShapes(sc, env, r);
      if !h.ok then true
      else
        var ((ray, bounced), g1) := DrawAndBounce(env, h.hit.ray, r, MaterialAt(env, h.hit), g);
        bounced && ReflectionsOnly(sc, env, ray, bounced, depth - 1, g1)
  }

  /**
   * On a path that only reflects, RecursiveSample draws exactly the three
   * uniforms of each of its bounces and nothing else.
   */
  lemma {:induction false} ReflectionsOnlyDraws(sc: SceneState, env: Env, r: Ray, reflected: bool, depth: int, g: Rng)
    requires Traceable(sc, env, r, reflected, depth) && ReflectionsOnly(sc, env, r, reflected, depth, g)
    ensures RecursiveSample(sc, env, r, reflected, depth, g).1 == g + 3 * PathBounces(sc, env, r, reflected, depth, g)
    decreases depth + 1
  {
    if depth >= 0 && !(reflected && IntersectLights(sc, env, r).ok) {
      var h := IntersectShapes(sc, env, r);
      if h.ok {
        var ((ray, bounced), g1) := DrawAndBounce(env, h.hit.ray, r, MaterialAt(env, h.hit), g);
        ReflectionsOnlyDraws(sc, env, ray, bounced, depth - 1, g1);
      }
    }
  }

  // ---------------------------------------------------------------------
  // The specular shortcut
  // ---------------------------------------------------------------------

  /**
   * A chain of neutral mirror bounces (tint at most zero, a reflected bounce
   * each time) within the depth budget that ends on a directly visible light.
   */
  ghost predicate MirrorPath(sc: SceneState, env: Env, r: Ray, depth: int, g: Rng)
    requires sc.Compiled()
    decreases depth + 1
  {
    depth >= 0 &&
    (IntersectLights(sc, env, r).ok ||
     (IntersectShapes(sc, env, r).ok &&
      var hit := IntersectShapes(sc, env, r).hit;
      var material := MaterialAt(env, hit);
      var ((ray, reflected), g1) := DrawAndBounce(env, hit.ray, r, material, g);
      material.tint <= 0.0 && reflected && MirrorPath(sc, env, ray, depth - 1, g1)))
  }

  /** The last ray of a mirror chain, which sees a light, and the generator position there. */
  ghost function MirrorEnd(sc: SceneState, env: Env, r: Ray, depth: int, g: Rng): (end: (Ray, Rng))
    requires sc.Compiled() && MirrorPath(sc, env, r, depth, g)
    ensures IntersectLights(sc, env, end.0).ok
    decreases depth + 1
  {
    if IntersectLights(sc, env, r).ok then (r, g)
    else
      var hit := IntersectShapes(sc, env, r).hit;
      var ((ray, _), g1) := DrawAndBounce(env, hit.ray, r, MaterialAt(env, hit), g);
      MirrorEnd(sc, env, ray, depth - 1, g1)
  }

  /**
   * A path of neutral mirror bounces that ends on a visible light carries
   * exactly that light's colour at its hit point, and draws only the three
   * uniforms of each bounce: no direct-light estimate is made along it.
   */
  lemma {:induction false} SpecularShortcut(sc: SceneState, env: Env, r: Ray, depth: int, g: Rng)
    requires sc.Ready() && MirrorPath(sc, env, r, depth, g)
    ensures RecursiveSample(sc, env, r, true, depth, g) ==
            (ColorAt(env, IntersectLights(sc, env, MirrorEnd(sc, env, r, depth, g).0).hit), MirrorEnd(sc, env, r, depth, g).1)
    decreases depth + 1
  {
    if !IntersectLights(sc, env, r).ok {
      var hit := IntersectShapes(sc, env, r).hit;
      var material := MaterialAt(env, hit);
      var ((ray, reflected), g1) := DrawAndBounce(env, hit.ray, r, material, g);
      SpecularShortcut(sc, env, ray, depth - 1, g1);
    }
  }

  // ---------------------------------------------------------------------
  // Combination rule, queries and empty scenes
  // ---------------------------------------------------------------------

  /**
   * When the light tree is built from the same list as the shape tree, every
   * light hit ties with itself, the strict comparison never reports it, and a
   * reflected ray is traced exactly like an unreflected one.
   */
  lemma SharedLightNeverReported(sc: SceneState, env: Env, r: Ray, depth: int, g: Rng)
    requires sc.Compiled() && sc.lightTree == sc.shapeTree
    ensures !IntersectLights(sc, env, r).ok
    ensures sc.Ready() ==> RecursiveSample(sc, env, r, true, depth, g) == RecursiveSample(sc, env, r, false, depth, g)
  {
  }

  /** A shadow test that succeeds for some distance succeeds for every larger one. */
  lemma ShadowMonotone(sc: SceneState, env: Env, r: Ray, near: real, far: real)
    requires sc.Compiled() && near <= far && Shadow(sc, env, r, near)
    ensures Shadow(sc, env, r, far)
  {
  }

  /** The three tree queries are determined by the trees alone: the lists may change after Compile without affecting them. */
  lemma TreeQueriesReadOnlyTrees(sc: SceneState, other: SceneState, env: Env, r: Ray, max: real)
    requires sc.Compiled() && other.Compiled()
    requires sc.shapeTree == other.shapeTree && sc.lightTree == other.lightTree
    ensures IntersectShapes(sc, env, r) == IntersectShapes(other, env, r)
    ensures IntersectLights(sc, env, r) == IntersectLights(other, env, r)
    ensures Shadow(sc, env, r, max) == Shadow(other, env, r, max)
  {
  }

  /**
   * A scene compiled with no shapes casts no shadows and samples black, with
   * any light count and any number of samples; with no lights either, every
   * recursive sample is black too.
   */
  lemma EmptyScene(sc: SceneState, env: Env, r: Ray, reflected: bool, max: real, samples: int, depth: int, g: Rng)
    requires env.Valid() && sc.Compiled() && sc.shapeTree == Some(Tree([]))
    ensures !Shadow(sc, env, r, max)
    ensures Sampleable(sc, env, r, samples, depth) && SampleSpec(sc, env, r, samples, depth, g) == (Black, g)
    ensures sc.lightTree == Some(Tree([])) ==>
      Traceable(sc, env, r, reflected, depth) && RecursiveSample(sc, env, r, reflected, depth, g) == (Black, g)
  {
    assert !env.intersect([], r).ok;
    assert env.shadow([], r) == Infinite;
  }

  /** The scene Compile builds from a Scene to which nothing was added samples black. */
  lemma ZeroSceneIsBlack(env: Env, r: Ray, reflected: bool, samples: int, depth: int, g: Rng)
    requires env.Valid()
    ensures var sc := SceneState([], [], Some(Tree([])), Some(Tree([])));
            Sampleable(sc, env, r, samples, depth) && SampleSpec(sc, env, r, samples, depth, g) == (Black, g) &&
            Traceable(sc, env, r, reflected, depth) && RecursiveSample(sc, env, r, reflected, depth, g) == (Black, g)
  {
    EmptyScene(SceneState([], [], Some(Tree([])), Some(Tree([]))), env, r, reflected, 0.0, samples, depth, g);
  }

  // ---------------------------------------------------------------------
  // Stratification
  // ---------------------------------------------------------------------

  lemma {:induction false} GridCovers(n: nat, rows: nat, a: nat, b: nat)
    requires a < rows && b < n
    ensures Cell(a, b) in GridCells(n, rows)
    decreases rows
  {
    if a == rows - 1 {
      assert RowCells(a, n)[b] == Cell(a, b);
      assert GridCells(n, rows) == GridCells(n, rows - 1) + RowCells(a, n);
    } else {
      GridCovers(n, rows - 1, a, b);
    }
  }

  /** Sample evaluates n*n strata, every cell of the n-by-n grid exactly once. */
  lemma GridVisitsEveryCellOnce(n: nat)
    ensures |GridCells(n, n)| == n * n
    ensures forall a: nat, b: nat :: a < n && b < n ==> Cell(a, b) in GridCells(n, n)
    ensures forall i, j :: 0 <= i < j < |GridCells(n, n)| ==> GridCells(n, n)[i] != GridCells(n, n)[j]
  {
    forall a: nat, b: nat | a < n && b < n
      ensures Cell(a, b) in GridCells(n, n)
    {
      GridCovers(n, n, a, b);
    }
  }

  lemma SquareMonotone(a: nat, b: nat)
    requires a <= b
    ensures a * a <= b * b
  {
    assert a * a <= a * b by {
      assert a * (b - a) >= 0;
    }
    assert a * b <= b * b by {
      assert (b - a) * b >= 0;
    }
  }

  /** For a perfect square k*k the grid side is exactly k, so exactly k*k strata are sampled. */
  lemma StrataOfSquare(k: nat)
    ensures StrataPerAxis(k * k) == k
  {
    var n := StrataPerAxis(k * k);
    if n < k {
      SquareMonotone(n + 1, k);
    } else if n > k {
      SquareMonotone(k + 1, n);
    }
  }

  // ---------------------------------------------------------------------
  // Lifecycle
  // ---------------------------------------------------------------------

  /**
   * A shape added after Compile is in the shape list but not in the tree the
   * queries use, until Compile runs again.
   */
  method SnapshotScenario(env: Env, a: Shape, b: Shape) returns (s: Scene)
    ensures s.shapes == [a, b] && s.lights == [a]
    ensures s.shapeTree == Some(Tree([a])) && s.lightTree == Some(Tree([a]))
    ensures forall r: Ray :: IntersectShapes(s.State(), env, r) == env.intersect([a], r)
  {
    s := new Scene();
    s.AddShape(a);
    s.AddLight(a);
    s.Compile();
    s.AddShape(b);
  }
}
