/**
 * The values the scene exchanges with its collaborators, and the
 * collaborators themselves. Shapes, the spatial index, the bounce decision,
 * vector length and normalisation and the random generator are implemented
 * outside the scene; here they are the fields of `Env`, functions about which
 * only the contracts in `Env.Valid` are assumed.
 */
module Geometry {
  import opened Colors

  datatype Vector = Vector(x: real, y: real, z: real) {

    function Sub(v: Vector): Vector {
      Vector(x - v.x, y - v.y, z - v.z)
    }

    function Dot(v: Vector): real {
      x * v.x + y * v.y + z * v.z
    }
  }

  datatype Ray = Ray(origin: Vector, direction: Vector)

  /** A shape, known to the scene only by its identity. */
  datatype Shape = Shape(id: nat)

  /**
   * Surface parameters. The scene itself reads only `tint`; `params` stands
   * for everything else, which only the bounce decision interprets.
   */
  datatype Material = Material(tint: real, params: nat)

  /**
   * An intersection: the shape hit, the distance `t` along the ray, and the
   * surface ray whose origin is the hit point and whose direction is the normal.
   */
  datatype Hit = Hit(shape: Shape, t: real, ray: Ray)

  /** The pair `(Hit, bool)`; the hit is meaningful only when `ok` holds. */
  datatype HitResult = HitResult(hit: Hit, ok: bool)

  /** What a tree's shadow query answers: a distance, or infinity when nothing is hit. */
  datatype Distance = Finite(t: real) | Infinite

  /** A spatial index, identified with the ordered list of shapes it was built from. */
  datatype Tree = Tree(shapes: seq<Shape>)

  /** The state of a random generator: a position on the tape `Env.draws`. */
  type Rng = nat

  datatype Env = Env(
    // Tree.Intersect and Tree.Shadow on the tree built from the given list
    intersect: (seq<Shape>, Ray) -> HitResult,
    shadow: (seq<Shape>, Ray) -> Distance,
    // Shape.Color, Shape.Material and Shape.RandomPoint
    colorAt: (Shape, Vector) -> Color,
    materialAt: (Shape, Vector) -> Material,
    randomPoint: (Shape, Rng) -> (Vector, Rng),
    // surfaceRay.Bounce(incoming, material, p, u, v) returns (outgoing, reflected)
    bounce: (Ray, Ray, Material, real, real, real) -> (Ray, bool),
    // Vector.Length and Vector.Normalize
    length: Vector -> real,
    normalize: Vector -> Vector,
    // rand.Float64 at every position of the generator
    draws: nat -> real)
  {
    /** The collaborator contracts: uniform draws lie in [0,1); a tree built from no shapes hits nothing. */
    ghost predicate Valid() {
      (forall i: nat :: 0.0 <= draws(i) < 1.0) &&
      (forall r: Ray :: !intersect([], r).ok) &&
      (forall r: Ray :: shadow([], r) == Infinite)
    }

    /** Physically meaningful surfaces: no negative colour, tint within [0,1]. */
    ghost predicate Physical() {
      (forall s: Shape, p: Vector :: colorAt(s, p).NonNegative()) &&
      (forall s: Shape, p: Vector :: 0.0 <= materialAt(s, p).tint <= 1.0)
    }
  }
}
