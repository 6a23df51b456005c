/**
 * The scene of the path tracer: its build-then-compile lifecycle, the three
 * queries against its two spatial indexes, next-event estimation of direct
 * light, the recursive estimator and the stratified top-level sampler.
 *
 * Random generators are threaded explicitly: every estimator takes the
 * generator's position and returns the position after its last draw.
 */
module Scenes {
  import opened Wrappers
  import opened Colors
  import opened Geometry

  /** math.Max on the reals. */
  function Max(a: real, b: real): (m: real)
    ensures m >= a && m >= b
    ensures m == a || m == b
  {
    if a < b then b else a
  }

  /**
   * A reflected bounce: the surface colour tints the fraction `tint` of the
   * indirect light and the rest passes through; a tint of zero or less skips
   * the blend and returns the indirect light itself.
   */
  function Specular(color: Color, tint: real, indirect: Color): (s: Color)
    ensures tint <= 0.0 ==> s == indirect
    ensures tint == 1.0 ==> s == color.MulColor(indirect)
    ensures color == White ==> s == indirect
  {
    if tint > 0.0 then
      color.MulColor(indirect.Mul(tint)).Add(indirect.Mul(1.0 - tint))
    else
      indirect
  }

  /** A diffuse bounce: the surface colour filters direct plus indirect light. */
  function Diffuse(color: Color, direct: Color, indirect: Color): (d: Color)
    ensures color == White ==> d == direct.Add(indirect)
    ensures color == Black ==> d == Black
    ensures color.NonNegative() && direct.NonNegative() && indirect.NonNegative() ==> d.NonNegative()
  {
    color.MulColor(direct.Add(indirect))
  }

  /** The side `n` of the stratification grid, int(math.Sqrt(samples)), as an integer square root. */
  function StrataPerAxis(samples: nat): (n: nat)
    ensures n * n <= samples < (n + 1) * (n + 1)
  {
    if samples == 0 then 0
    else
      var k := StrataPerAxis(samples - 1);
      assert samples <= (k + 1) * (k + 1) < (k + 2) * (k + 2);
      if (k + 1) * (k + 1) <= samples then k + 1 else k
  }

  /** The jittered coordinate of cell `k` of `n`: a draw `x` in [0,1) lands inside the cell. */
  function Jitter(k: nat, x: real, n: nat): (f: real)
    requires n > 0
    ensures 0.0 <= x < 1.0 ==> k as real / n as real <= f < (k + 1) as real / n as real
  {
    var w := 1.0 / n as real;
    assert w * n as real == 1.0;
    assert (k as real + x) * w == k as real * w + x * w;
    assert k as real / n as real == k as real * w;
    assert (k + 1) as real / n as real == k as real * w + w;
    assert 0.0 <= x < 1.0 ==> 0.0 <= x * w < w;
    (k as real + x) * w
  }

  /** A stratum of the sampling grid: column `u`, row `v`. */
  datatype Cell = Cell(u: nat, v: nat)

  /** The cells (u, 0), ..., (u, v-1), in the order of the inner sampling loop. */
  function RowCells(u: nat, v: nat): (cs: seq<Cell>)
    ensures |cs| == v
    ensures forall k :: 0 <= k < v ==> cs[k] == Cell(u, k)
  {
    if v == 0 then [] else RowCells(u, v - 1) + [Cell(u, v - 1)]
  }

  /**
   * The cells of the first `rows` rows of an n-by-n grid in row-major order:
   * the k-th cell visited is the one with u * n + v == k, so every cell of
   * those rows is visited exactly once.
   */
  function GridCells(n: nat, rows: nat): (cs: seq<Cell>)
    ensures |cs| == rows * n
    ensures forall k :: 0 <= k < |cs| ==> cs[k].u < rows && cs[k].v < n && cs[k].u * n + cs[k].v == k
  {
    if rows == 0 then []
    else
      var done := GridCells(n, rows - 1);
      var row := RowCells(rows - 1, n);
      assert |done| == (rows - 1) * n == rows * n - n;
      assert forall k :: |done| <= k < |done| + n ==> (done + row)[k] == Cell(rows - 1, k - |done|);
      done + row
  }

  /** What Sample knows about its primary hit: the camera ray, the surface ray, and the surface's colour and material. */
  datatype Primary = Primary(incoming: Ray, surface: Ray, color: Color, material: Material)

  /** Shape.Color at the hit point. */
  function ColorAt(env: Env, hit: Hit): Color {
    env.colorAt(hit.shape, hit.ray.origin)
  }

  /** Shape.Material at the hit point. */
  function MaterialAt(env: Env, hit: Hit): Material {
    env.materialAt(hit.shape, hit.ray.origin)
  }

  /** Draws p, u, v, in that order, and asks the bounce decision for the next ray. */
  function DrawAndBounce(env: Env, surface: Ray, incoming: Ray, material: Material, g: Rng): (res: ((Ray, bool), Rng))
    ensures res.1 == g + 3
  {
    (env.bounce(surface, incoming, material, env.draws(g), env.draws(g + 1), env.draws(g + 2)), g + 3)
  }

  /** The ray from the shading point `n.origin` towards `p`. */
  function ShadowRay(env: Env, n: Ray, p: Vector): Ray {
    Ray(n.origin, env.normalize(p.Sub(n.origin)))
  }

  /**
   * The four fields of a Scene as one value: the shape and light lists and the
   * two trees (None until the first Compile). Everything the estimators read.
   */
  datatype SceneState = SceneState(shapes: seq<Shape>, lights: seq<Shape>, shapeTree: Option<Tree>, lightTree: Option<Tree>) {

    predicate Compiled() {
      shapeTree.Some? && lightTree.Some?
    }

    /** Compiled and with at least one light: the estimators divide by the light count. */
    predicate Ready() {
      Compiled() && |lights| > 0
    }
  }

  /** The nearest hit of the shape tree. */
  function IntersectShapes(sc: SceneState, env: Env, r: Ray): HitResult
    requires sc.Compiled()
  {
    env.intersect(sc.shapeTree.value.shapes, r)
  }

  /**
   * The light tree's hit, reported as found only when no shape of the shape
   * tree lies strictly closer along the ray.
   */
  function IntersectLights(sc: SceneState, env: Env, r: Ray): (res: HitResult)
    requires sc.Compiled()
    ensures res.hit == env.intersect(sc.lightTree.value.shapes, r).hit
    ensures res.ok <==>
      env.intersect(sc.lightTree.value.shapes, r).ok &&
      (env.intersect(sc.shapeTree.value.shapes, r).ok ==>
         env.intersect(sc.lightTree.value.shapes, r).hit.t < env.intersect(sc.shapeTree.value.shapes, r).hit.t)
  {
    var lightHit := env.intersect(sc.lightTree.value.shapes, r);
    if lightHit.ok then
      var shapeHit := IntersectShapes(sc, env, r);
      if shapeHit.ok then HitResult(lightHit.hit, lightHit.hit.t < shapeHit.hit.t) else lightHit
    else
      lightHit
  }

  /** Whether the shape tree reports something strictly nearer than `max` along `r`. */
  function Shadow(sc: SceneState, env: Env, r: Ray, max: real): (b: bool)
    requires sc.Compiled()
    ensures b <==> env.shadow(sc.shapeTree.value.shapes, r).Finite? && env.shadow(sc.shapeTree.value.shapes, r).t < max
  {
    match env.shadow(sc.shapeTree.value.shapes, r)
    case Finite(t) => t < max
    case Infinite => false
  }

  /** Whether the point `p` sampled on a light is hidden from the shading point of `n`. */
  predicate Occluded(sc: SceneState, env: Env, n: Ray, p: Vector)
    requires sc.Compiled()
  {
    Shadow(sc, env, ShadowRay(env, n, p), env.length(p.Sub(n.origin)))
  }

  /** The cosine weight of a light sample, clamped at zero. */
  function Cosine(env: Env, n: Ray, p: Vector): (w: real)
    ensures w >= 0.0
    ensures w >= ShadowRay(env, n, p).direction.Dot(n.direction)
    ensures w == 0.0 || w == ShadowRay(env, n, p).direction.Dot(n.direction)
  {
    Max(0.0, ShadowRay(env, n, p).direction.Dot(n.direction))
  }

  /**
   * The running sum of the direct-light loop after the lights `ls`, with the
   * generator position after their samples: each light gets one RandomPoint
   * call and adds nothing when occluded.
   */
  function LightsSum(sc: SceneState, env: Env, ls: seq<Shape>, n: Ray, g: Rng): (Color, Rng)
    requires sc.Compiled()
  {
    if ls == [] then (Black, g)
    else
      var (acc, g1) := LightsSum(sc, env, ls[..|ls| - 1], n, g);
      var light := ls[|ls| - 1];
      var (p, g2) := env.randomPoint(light, g1);
      if Occluded(sc, env, n, p) then (acc, g2)
      else (acc.Add(env.colorAt(light, p).Mul(Cosine(env, n, p))), g2)
  }

  /** Direct light at the shading point of `n`: the sum over the live light list divided by its length. */
  function DirectLightSpec(sc: SceneState, env: Env, n: Ray, g: Rng): (Color, Rng)
    requires sc.Ready()
  {
    var (sum, g1) := LightsSum(sc, env, sc.lights, n, g);
    (sum.Div(|sc.lights| as real), g1)
  }

  /**
   * The combination rule shared by both samplers: a reflected bounce blends
   * by tint and draws nothing more; a diffuse bounce adds one direct-light
   * estimate at the surface.
   */
  function Shade(sc: SceneState, env: Env, surface: Ray, color: Color, material: Material, reflected: bool, indirect: Color, g: Rng): (Color, Rng)
    requires sc.Ready()
  {
    if reflected then (Specular(color, material.tint, indirect), g)
    else
      var (direct, g1) := DirectLightSpec(sc, env, surface, g);
      (Diffuse(color, direct, indirect), g1)
  }

  /**
   * When RecursiveSample is defined: always below depth zero; otherwise the
   * trees must be compiled, and a path that reaches a surface needs a light
   * to divide the direct-light sum by.
   */
  predicate Traceable(sc: SceneState, env: Env, r: Ray, reflected: bool, depth: int) {
    depth < 0 ||
    (sc.Compiled() && ((reflected && IntersectLights(sc, env, r).ok) || !IntersectShapes(sc, env, r).ok || sc.Ready()))
  }

  /**
   * The recursive estimator. Below depth zero it is black; after a reflected
   * bounce a visible light ends the path with its own colour and no draws; a
   * ray that hits nothing is black; otherwise three draws decide the bounce
   * and the estimator recurses with one less depth.
   */
  function RecursiveSample(sc: SceneState, env: Env, r: Ray, reflected: bool, depth: int, g: Rng): (res: (Color, Rng))
    requires Traceable(sc, env, r, reflected, depth)
    ensures depth < 0 ==> res == (Black, g)
    ensures depth >= 0 && reflected && IntersectLights(sc, env, r).ok ==>
      res == (ColorAt(env, IntersectLights(sc, env, r).hit), g)
    ensures depth >= 0 && !(reflected && IntersectLights(sc, env, r).ok) && !IntersectShapes(sc, env, r).ok ==>
      res == (Black, g)
    decreases depth + 1
  {
    if depth < 0 then (Black, g)
    else if reflected && IntersectLights(sc, env, r).ok then
      (ColorAt(env, IntersectLights(sc, env, r).hit), g)
    else
      var h := IntersectShapes(sc, env, r);
      if !h.ok then (Black, g)
      else
        var color := ColorAt(env, h.hit);
        var material := MaterialAt(env, h.hit);
        var ((ray, bounced), g1) := DrawAndBounce(env, h.hit.ray, r, material, g);
        var (indirect, g2) := RecursiveSample(sc, env, ray, bounced, depth - 1, g1);
        Shade(sc, env, h.hit.ray, color, material, bounced, indirect, g2)
  }

  /** One stratum of Sample: a lobe draw and a jittered position inside the cell, a bounce, the recursion and the combination rule. */
  function EvaluateCell(sc: SceneState, env: Env, pr: Primary, n: nat, depth: int, cell: Cell, g: Rng): (Color, Rng)
    requires sc.Ready() && n > 0
  {
    var p := env.draws(g);
    var fu := Jitter(cell.u, env.draws(g + 1), n);
    var fv := Jitter(cell.v, env.draws(g + 2), n);
    var (ray, reflected) := env.bounce(pr.surface, pr.incoming, pr.material, p, fu, fv);
    var (indirect, g1) := RecursiveSample(sc, env, ray, reflected, depth - 1, g + 3);
    Shade(sc, env, pr.surface, pr.color, pr.material, reflected, indirect, g1)
  }

  /** The sum `acc` plus the strata `cells`, evaluated in order: a left fold over the grid. */
  function Accumulate(sc: SceneState, env: Env, pr: Primary, n: nat, depth: int, cells: seq<Cell>, acc: Color, g: Rng): (Color, Rng)
    requires sc.Ready() && n > 0
  {
    if cells == [] then (acc, g)
    else
      var (sum, g1) := Accumulate(sc, env, pr, n, depth, cells[..|cells| - 1], acc, g);
      var (c, g2) := EvaluateCell(sc, env, pr, n, depth, cells[|cells| - 1], g1);
      (sum.Add(c), g2)
  }

  lemma AccumulateStep(sc: SceneState, env: Env, pr: Primary, n: nat, depth: int, done: seq<Cell>, cell: Cell, acc: Color, g: Rng)
    requires sc.Ready() && n > 0
    ensures var (sum, g1) := Accumulate(sc, env, pr, n, depth, done, acc, g);
            var (c, g2) := EvaluateCell(sc, env, pr, n, depth, cell, g1);
            Accumulate(sc, env, pr, n, depth, done + [cell], acc, g) == (sum.Add(c), g2)
  {
    assert (done + [cell])[..|done|] == done;
  }

  /** Folding over `a + b` is folding over `b` from where the fold over `a` stopped. */
  lemma {:induction false} AccumulateAppend(sc: SceneState, env: Env, pr: Primary, n: nat, depth: int, a: seq<Cell>, b: seq<Cell>, acc: Color, g: Rng)
    requires sc.Ready() && n > 0
    ensures var (sum, g1) := Accumulate(sc, env, pr, n, depth, a, acc, g);
            Accumulate(sc, env, pr, n, depth, a + b, acc, g) == Accumulate(sc, env, pr, n, depth, b, sum, g1)
    decreases |b|
  {
    if b == [] {
      assert a + b == a;
    } else {
      var init := b[..|b| - 1];
      AccumulateAppend(sc, env, pr, n, depth, a, init, acc, g);
      assert (a + b)[..|a + b| - 1] == a + init;
      assert (a + b)[|a + b| - 1] == b[|b| - 1];
    }
  }

  /**
   * When Sample is defined: always below depth zero; otherwise the trees must
   * be compiled, and a primary hit needs a light and at least one sample,
   * since the strata sum is divided by n*n.
   */
  predicate Sampleable(sc: SceneState, env: Env, r: Ray, samples: int, depth: int) {
    depth < 0 || (sc.Compiled() && (IntersectShapes(sc, env, r).ok ==> sc.Ready() && samples >= 1))
  }

  /**
   * The top-level estimate: black below depth zero or on a miss; otherwise
   * the mean over the n*n strata of the grid, n = floor(sqrt(samples)).
   */
  function SampleSpec(sc: SceneState, env: Env, r: Ray, samples: int, depth: int, g: Rng): (res: (Color, Rng))
    requires Sampleable(sc, env, r, samples, depth)
    ensures depth < 0 ==> res == (Black, g)
    ensures depth >= 0 && !IntersectShapes(sc, env, r).ok ==> res == (Black, g)
  {
    if depth < 0 then (Black, g)
    else
      var h := IntersectShapes(sc, env, r);
      if !h.ok then (Black, g)
      else
        var pr := Primary(r, h.hit.ray, ColorAt(env, h.hit), MaterialAt(env, h.hit));
        var n := StrataPerAxis(samples);
        assert n >= 1;
        var (sum, g1) := Accumulate(sc, env, pr, n, depth, GridCells(n, n), Black, g);
        (sum.Div((n * n) as real), g1)
  }

  class Scene {
    var shapes: seq<Shape>
    var lights: seq<Shape>
    // None until the first Compile; then the lists as they were at the last Compile
    var shapeTree: Option<Tree>
    var lightTree: Option<Tree>

    /** The zero Scene: no shapes, no lights, no trees. */
    constructor ()
      ensures shapes == [] && lights == []
      ensures shapeTree == None && lightTree == None
    {
      shapes, lights := [], [];
      shapeTree, lightTree := None, None;
    }

    function State(): SceneState
      reads this
    {
      SceneState(shapes, lights, shapeTree, lightTree)
    }

    /** Builds both trees from snapshots of the current lists. */
    method Compile()
      modifies this
      ensures shapeTree == Some(Tree(shapes)) && lightTree == Some(Tree(lights))
      ensures shapes == old(shapes) && lights == old(lights)
    {
      shapeTree := Some(Tree(shapes));
      lightTree := Some(Tree(lights));
    }

    method AddShape(shape: Shape)
      modifies this
      ensures shapes == old(shapes) + [shape]
      ensures lights == old(lights)
      ensures shapeTree == old(shapeTree) && lightTree == old(lightTree)
    {
      shapes := shapes + [shape];
    }

    method AddLight(shape: Shape)
      modifies this
      ensures lights == old(lights) + [shape]
      ensures shapes == old(shapes)
      ensures shapeTree == old(shapeTree) && lightTree == old(lightTree)
    {
      lights := lights + [shape];
    }

    /** DirectLight; the incoming ray `i` is not used, as in pt/scene.go. */
    method DirectLight(env: Env, i: Ray, n: Ray, g: Rng) returns (c: Color, g': Rng)
      requires State().Ready()
      ensures (c, g') == DirectLightSpec(State(), env, n, g)
    {
      ghost var sc := State();
      c := Black;
      g' := g;
      for k := 0 to |lights|
        invariant (c, g') == LightsSum(sc, env, lights[..k], n, g)
      {
        assert lights[..k + 1][..k] == lights[..k];
        var light := lights[k];
        var sampled := env.randomPoint(light, g');
        var p := sampled.0;
        g' := sampled.1;
        var d := p.Sub(n.origin);
        var lr := Ray(n.origin, env.normalize(d));
        if Shadow(State(), env, lr, env.length(d)) {
          continue;
        }
        var diffuse := Max(0.0, lr.direction.Dot(n.direction));
        c := c.Add(env.colorAt(light, p).Mul(diffuse));
      }
      assert lights[..|lights|] == lights;
      c := c.Div(|lights| as real);
    }

    /** The body of Sample's inner loop: the stratum (u, v) of the grid. */
    method SampleCell(env: Env, r: Ray, surface: Ray, color: Color, material: Material, n: nat, depth: int, u: nat, v: nat, g: Rng)
      returns (c: Color, g': Rng)
      requires State().Ready() && n > 0
      ensures (c, g') == EvaluateCell(State(), env, Primary(r, surface, color, material), n, depth, Cell(u, v), g)
    {
      var p := env.draws(g);
      var fu := Jitter(u, env.draws(g + 1), n);
      var fv := Jitter(v, env.draws(g + 2), n);
      g' := g + 3;
      var bounced := env.bounce(surface, r, material, p, fu, fv);
      var ray, reflected := bounced.0, bounced.1;
      var rec := RecursiveSample(State(), env, ray, reflected, depth - 1, g');
      var indirect := rec.0;
      g' := rec.1;
      if reflected {
        c := Specular(color, material.tint, indirect);
      } else {
        var direct;
        direct, g' := DirectLight(env, r, surface, g');
        c := Diffuse(color, direct, indirect);
      }
    }

    /** The inner loop of Sample: the strata (u, 0), ..., (u, n-1) added, in order, to `acc`. */
    method SampleRow(env: Env, r: Ray, surface: Ray, color: Color, material: Material, n: nat, depth: int, u: nat, acc: Color, g: Rng)
      returns (result: Color, g': Rng)
      requires State().Ready() && n > 0
      ensures (result, g') == Accumulate(State(), env, Primary(r, surface, color, material), n, depth, RowCells(u, n), acc, g)
    {
      ghost var sc, pr := State(), Primary(r, surface, color, material);
      result, g' := acc, g;
      for v := 0 to n
        invariant (result, g') == Accumulate(sc, env, pr, n, depth, RowCells(u, v), acc, g)
      {
        var contribution;
        contribution, g' := SampleCell(env, r, surface, color, material, n, depth, u, v, g');
        AccumulateStep(sc, env, pr, n, depth, RowCells(u, v), Cell(u, v), acc, g);
        result := result.Add(contribution);
      }
    }

    method Sample(env: Env, r: Ray, samples: int, depth: int, g: Rng) returns (c: Color, g': Rng)
      requires Sampleable(State(), env, r, samples, depth)
      ensures (c, g') == SampleSpec(State(), env, r, samples, depth, g)
    {
      if depth < 0 {
        return Black, g;
      }
      var h := IntersectShapes(State(), env, r);
      if !h.ok {
        return Black, g;
      }
      var shape := h.hit.shape;
      var color := env.colorAt(shape, h.hit.ray.origin);
      var material := env.materialAt(shape, h.hit.ray.origin);
      var n := StrataPerAxis(samples);
      assert n >= 1;
      ghost var sc, pr := State(), Primary(r, h.hit.ray, color, material);
      var result := Black;
      g' := g;
      for u := 0 to n
        invariant (result, g') == Accumulate(sc, env, pr, n, depth, GridCells(n, u), Black, g)
      {
        AccumulateAppend(sc, env, pr, n, depth, GridCells(n, u), RowCells(u, n), Black, g);
        result, g' := SampleRow(env, r, h.hit.ray, color, material, n, depth, u, result, g');
      }
      c := result.Div((n * n) as real);
    }
  }
}
