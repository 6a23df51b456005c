/**
 * RGB radiance and reflectance values. Components are exact reals: the
 * rounding of the float64 components in pt/scene.go is not modelled.
 */
module Colors {

  datatype Color = Color(r: real, g: real, b: real) {

    function Add(c: Color): Color {
      Color(r + c.r, g + c.g, b + c.b)
    }

    /** Scales every component by `k`. */
    function Mul(k: real): Color {
      Color(r * k, g * k, b * k)
    }

    /** Component-wise product: a surface colour filtering incoming light. */
    function MulColor(c: Color): Color {
      Color(r * c.r, g * c.g, b * c.b)
    }

    function Div(k: real): Color
      requires k != 0.0
    {
      Color(r / k, g / k, b / k)
    }

    predicate NonNegative() {
      r >= 0.0 && g >= 0.0 && b >= 0.0
    }
  }

  /** The zero value `Color{}`: no light. */
  const Black: Color := Color(0.0, 0.0, 0.0)

  /** A colour that passes every component through unchanged under MulColor. */
  const White: Color := Color(1.0, 1.0, 1.0)

  lemma ProductNonNegative(x: real, y: real)
    requires x >= 0.0 && y >= 0.0
    ensures x * y >= 0.0
  {
  }

  lemma AddNonNegative(a: Color, c: Color)
    requires a.NonNegative() && c.NonNegative()
    ensures a.Add(c).NonNegative()
  {
  }

  lemma MulNonNegative(a: Color, k: real)
    requires a.NonNegative() && k >= 0.0
    ensures a.Mul(k).NonNegative()
  {
    ProductNonNegative(a.r, k);
    ProductNonNegative(a.g, k);
    ProductNonNegative(a.b, k);
  }

  lemma MulColorNonNegative(a: Color, c: Color)
    requires a.NonNegative() && c.NonNegative()
    ensures a.MulColor(c).NonNegative()
  {
    ProductNonNegative(a.r, c.r);
    ProductNonNegative(a.g, c.g);
    ProductNonNegative(a.b, c.b);
  }

  lemma DivNonNegative(a: Color, k: real)
    requires a.NonNegative() && k > 0.0
    ensures a.Div(k).NonNegative()
  {
  }
}
