/**
 A unit value: a dimension together with the factor that converts one of the
 unit into SI base units. Scales are exact reals; the operations that divide
 (or raise to a negative power) need a nonzero divisor scale, which every unit
 of the registry has.
 */
module Units {
  import Dimensions
  import opened Powers
  import opened Options

  datatype Unit = Unit(dimension: Dimensions.Dimension, scale: real)

  /** The dimensionless unit of scale 1: the neutral element of `Mul`. */
  const ONE := Unit(Dimensions.DIMENSIONLESS, 1.0)

  /**
   `self.convert(to)`: succeeds exactly when both units have the same dimension,
   and then gives the factor by which a quantity in `u` is `to`-many.
   */
  function Convert(u: Unit, to: Unit): (r: Option<Unit>)
    requires u.dimension == to.dimension ==> to.scale != 0.0
    ensures r.Some? <==> u.dimension == to.dimension
    ensures r.Some? ==> r.value.dimension == u.dimension && r.value.scale * to.scale == u.scale
  {
    if u.dimension == to.dimension then
      Some(Unit(u.dimension, u.scale / to.scale))
    else
      None
  }

  /** `self.pow(exp)`: the dimension scaled by `exp`, the scale raised to `exp`. */
  function Pow(u: Unit, exp: int): (r: Unit)
    requires exp >= 0 || u.scale != 0.0
    ensures u.scale > 0.0 ==> r.scale > 0.0
    ensures u.scale != 0.0 ==> r.scale != 0.0
  {
    Unit(Dimensions.Pow(u.dimension, exp), IntPow(u.scale, exp))
  }

  /** `u * v`: scales multiply and dimensions compose. */
  function Mul(u: Unit, v: Unit): (r: Unit)
    ensures u.scale > 0.0 && v.scale > 0.0 ==> r.scale > 0.0
  {
    Unit(Dimensions.MulOp(u.dimension, v.dimension), u.scale * v.scale)
  }

  /** `u / v`: the unit that composed with `v` gives back `u`. */
  function Div(u: Unit, v: Unit): (r: Unit)
    requires v.scale != 0.0
    ensures Mul(r, v) == u
    ensures u.scale > 0.0 && v.scale > 0.0 ==> r.scale > 0.0
  {
    Unit(Dimensions.DivOp(u.dimension, v.dimension), u.scale / v.scale)
  }

  /**
   The `Display` rendering keeps only the six exponents, in the order time,
   mass, length, temperature, current, amount; the scale is not shown.
   */
  function DisplayExponents(u: Unit): (r: seq<int>)
    ensures |r| == 6
  {
    var d := u.dimension;
    [d.time, d.mass, d.length, d.temperature, d.current, d.amount]
  }

  /** Reads a dimension back from the `Display` exponent order. */
  function DimensionOfDisplay(s: seq<int>): Dimensions.Dimension
    requires |s| == 6
  {
    Dimensions.Dimension(s[2], s[1], s[0], s[4], s[3], s[5])
  }

  /** Each base dimension shows its 1 in its own column of the rendering, whatever the scale. */
  lemma DisplayOrder(s: real)
    ensures DisplayExponents(Unit(Dimensions.TIME, s)) == [1, 0, 0, 0, 0, 0]
    ensures DisplayExponents(Unit(Dimensions.MASS, s)) == [0, 1, 0, 0, 0, 0]
    ensures DisplayExponents(Unit(Dimensions.LENGTH, s)) == [0, 0, 1, 0, 0, 0]
    ensures DisplayExponents(Unit(Dimensions.TEMPERATURE, s)) == [0, 0, 0, 1, 0, 0]
    ensures DisplayExponents(Unit(Dimensions.CURRENT, s)) == [0, 0, 0, 0, 1, 0]
    ensures DisplayExponents(Unit(Dimensions.AMOUNT, s)) == [0, 0, 0, 0, 0, 1]
  {
  }

  /** The rendering determines the dimension and nothing else. */
  lemma DisplayDeterminesDimension(u: Unit, v: Unit)
    ensures DimensionOfDisplay(DisplayExponents(u)) == u.dimension
    ensures DisplayExponents(u) == DisplayExponents(v) <==> u.dimension == v.dimension
  {
  }

  lemma ConvertToSelf(u: Unit)
    requires u.scale != 0.0
    ensures Convert(u, u) == Some(Unit(u.dimension, 1.0))
  {
    assert u.scale / u.scale == 1.0;
  }

  /** Converting there and back multiplies to 1. */
  lemma ConvertInverse(a: Unit, b: Unit)
    requires a.scale != 0.0 && b.scale != 0.0
    requires a.dimension == b.dimension
    ensures Convert(a, b).value.scale * Convert(b, a).value.scale == 1.0
  {
    assert (a.scale / b.scale) * (b.scale / a.scale) == 1.0;
  }

  /** Conversion factors compose along a chain of compatible units. */
  lemma ConvertCompose(a: Unit, b: Unit, c: Unit)
    requires b.scale != 0.0 && c.scale != 0.0
    requires a.dimension == b.dimension == c.dimension
    ensures Convert(a, b).value.scale * Convert(b, c).value.scale == Convert(a, c).value.scale
  {
    assert (a.scale / b.scale) * (b.scale / c.scale) == a.scale / c.scale;
  }

  lemma PowZero(u: Unit)
    ensures Pow(u, 0) == ONE
  {
  }

  lemma PowOne(u: Unit)
    ensures Pow(u, 1) == u
  {
    IntPowOneAndMinusOne(u.scale);
  }

  lemma PowPow(u: Unit, j: int, k: int)
    requires u.scale != 0.0
    ensures Pow(Pow(u, j), k) == Pow(u, j * k)
  {
    Dimensions.PowPow(u.dimension, j, k);
    IntPowMul(u.scale, j, k);
  }

  lemma PowDistributesOverMul(u: Unit, v: Unit, k: int)
    requires u.scale != 0.0 && v.scale != 0.0
    ensures Pow(Mul(u, v), k) == Mul(Pow(u, k), Pow(v, k))
  {
    PowMulDimension(u, v, k);
    PowMulScale(u, v, k);
  }

  lemma PowMulDimension(u: Unit, v: Unit, k: int)
    requires u.scale != 0.0 && v.scale != 0.0
    ensures Pow(Mul(u, v), k).dimension == Mul(Pow(u, k), Pow(v, k)).dimension
  {
    var d, e := u.dimension, v.dimension;
    Dimensions.OperatorsAgree(d, e);
    Dimensions.OperatorsAgree(Dimensions.Pow(d, k), Dimensions.Pow(e, k));
    Dimensions.PowDistributesOverMul(d, e, k);
  }

  lemma PowMulScale(u: Unit, v: Unit, k: int)
    requires u.scale != 0.0 && v.scale != 0.0
    ensures Pow(Mul(u, v), k).scale == Mul(Pow(u, k), Pow(v, k)).scale
  {
    IntPowProduct(u.scale, v.scale, Mul(u, v).scale, k);
  }

  lemma PowOfOne(k: int)
    ensures Pow(ONE, k) == ONE
  {
    IntPowOfOne(k);
  }

  /**
   Division is multiplication by the inverse power. The evaluator never divides:
   it multiplies by operands evaluated under a negative exponent.
   */
  lemma DivIsMulByInverse(u: Unit, v: Unit)
    requires v.scale != 0.0
    ensures Div(u, v) == Mul(u, Pow(v, -1))
  {
    IntPowOneAndMinusOne(v.scale);
    assert u.scale / v.scale == u.scale * (1.0 / v.scale);
  }

  lemma MulCommutative(u: Unit, v: Unit)
    ensures Mul(u, v) == Mul(v, u)
  {
  }

  lemma MulAssociative(u: Unit, v: Unit, w: Unit)
    ensures Mul(Mul(u, v), w) == Mul(u, Mul(v, w))
  {
  }

  lemma MulIdentity(u: Unit)
    ensures Mul(u, ONE) == u && Mul(ONE, u) == u
  {
  }
}
