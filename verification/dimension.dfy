/**
 The dimension algebra: a physical dimension is a vector of six integer
 exponents over the SI base dimensions. Composition adds vectors, division
 subtracts them and an integer power scales them.
 */
module Dimensions {

  datatype Dimension = Dimension(
    length: int,      // metre
    mass: int,        // kilogram
    time: int,        // second
    current: int,     // ampere
    temperature: int, // kelvin
    amount: int       // mole
  )

  // The `std::ops::Mul` and `std::ops::Div` implementations (the `*` and `/` operators).

  function MulOp(a: Dimension, b: Dimension): Dimension {
    Dimension(a.length + b.length, a.mass + b.mass, a.time + b.time,
              a.current + b.current, a.temperature + b.temperature, a.amount + b.amount)
  }

  function DivOp(a: Dimension, b: Dimension): Dimension {
    Dimension(a.length - b.length, a.mass - b.mass, a.time - b.time,
              a.current - b.current, a.temperature - b.temperature, a.amount - b.amount)
  }

  // The `const fn` versions used to build the named constants.

  function Mul(a: Dimension, b: Dimension): Dimension {
    Dimension(a.length + b.length, a.mass + b.mass, a.time + b.time,
              a.current + b.current, a.temperature + b.temperature, a.amount + b.amount)
  }

  function Div(a: Dimension, b: Dimension): Dimension {
    Dimension(a.length - b.length, a.mass - b.mass, a.time - b.time,
              a.current - b.current, a.temperature - b.temperature, a.amount - b.amount)
  }

  function Pow(d: Dimension, k: int): Dimension {
    Dimension(d.length * k, d.mass * k, d.time * k,
              d.current * k, d.temperature * k, d.amount * k)
  }

  const DIMENSIONLESS := Dimension(0, 0, 0, 0, 0, 0)
  // The base dimensions are DIMENSIONLESS with a single exponent set to 1 (see BaseDimensions).
  const LENGTH := Dimension(1, 0, 0, 0, 0, 0)
  const MASS := Dimension(0, 1, 0, 0, 0, 0)
  const TIME := Dimension(0, 0, 1, 0, 0, 0)
  const CURRENT := Dimension(0, 0, 0, 1, 0, 0)
  const TEMPERATURE := Dimension(0, 0, 0, 0, 1, 0)
  const AMOUNT := Dimension(0, 0, 0, 0, 0, 1)
  // The derived dimensions, written out as exponent vectors; the lemmas at the
  // end of this module show each is the combination the crate defines it by.
  const AREA := Dimension(2, 0, 0, 0, 0, 0)
  const VOLUME := Dimension(3, 0, 0, 0, 0, 0)
  const VELOCITY := Dimension(1, 0, -1, 0, 0, 0)
  // As the crate defines them; neither is the physical dimension of its name.
  const ACCELERATION := Dimension(0, 1, -2, 0, 0, 0)
  const ENERGY := Dimension(-2, 1, 2, 0, 0, 0)
  const POWER := Dimension(-2, 1, 1, 0, 0, 0)

  /** The operators and the `const fn`s compute the same dimensions. */
  lemma OperatorsAgree(a: Dimension, b: Dimension)
    ensures MulOp(a, b) == Mul(a, b)
    ensures DivOp(a, b) == Div(a, b)
  {
  }

  lemma MulCommutative(a: Dimension, b: Dimension)
    ensures Mul(a, b) == Mul(b, a)
  {
  }

  lemma MulAssociative(a: Dimension, b: Dimension, c: Dimension)
    ensures Mul(Mul(a, b), c) == Mul(a, Mul(b, c))
  {
  }

  lemma MulIdentity(d: Dimension)
    ensures Mul(d, DIMENSIONLESS) == d && Mul(DIMENSIONLESS, d) == d
  {
  }

  /** Division is composition with the inverse, and undoes composition. */
  lemma DivIsMulByInverse(a: Dimension, b: Dimension)
    ensures Div(a, b) == Mul(a, Pow(b, -1))
    ensures Div(Mul(a, b), b) == a
  {
  }

  lemma PowZeroAndOne(d: Dimension)
    ensures Pow(d, 0) == DIMENSIONLESS
    ensures Pow(d, 1) == d
  {
  }

  lemma PowPow(d: Dimension, j: int, k: int)
    ensures Pow(Pow(d, j), k) == Pow(d, j * k)
  {
    assert (d.length * j) * k == d.length * (j * k);
    assert (d.mass * j) * k == d.mass * (j * k);
    assert (d.time * j) * k == d.time * (j * k);
    assert (d.current * j) * k == d.current * (j * k);
    assert (d.temperature * j) * k == d.temperature * (j * k);
    assert (d.amount * j) * k == d.amount * (j * k);
  }

  lemma PowDistributesOverMul(a: Dimension, b: Dimension, k: int)
    ensures Pow(Mul(a, b), k) == Mul(Pow(a, k), Pow(b, k))
  {
    assert (a.length + b.length) * k == a.length * k + b.length * k;
    assert (a.mass + b.mass) * k == a.mass * k + b.mass * k;
    assert (a.time + b.time) * k == a.time * k + b.time * k;
    assert (a.current + b.current) * k == a.current * k + b.current * k;
    assert (a.temperature + b.temperature) * k == a.temperature * k + b.temperature * k;
    assert (a.amount + b.amount) * k == a.amount * k + b.amount * k;
  }

  /** Each base dimension has exactly one exponent equal to 1 and all others 0. */
  lemma BaseDimensions()
    ensures LENGTH == DIMENSIONLESS.(length := 1)
    ensures MASS == DIMENSIONLESS.(mass := 1)
    ensures TIME == DIMENSIONLESS.(time := 1)
    ensures CURRENT == DIMENSIONLESS.(current := 1)
    ensures TEMPERATURE == DIMENSIONLESS.(temperature := 1)
    ensures AMOUNT == DIMENSIONLESS.(amount := 1)
  {
  }

  /** AREA is LENGTH squared and VOLUME is LENGTH cubed. */
  lemma AreaAndVolume()
    ensures AREA == Pow(LENGTH, 2)
    ensures VOLUME == Pow(LENGTH, 3)
  {
  }

  /** VELOCITY is LENGTH over TIME. */
  lemma Velocity()
    ensures VELOCITY == Div(LENGTH, TIME)
  {
  }

  /** ACCELERATION is defined as MASS over TIME squared: it has no length exponent. */
  lemma Acceleration()
    ensures ACCELERATION == Div(MASS, Pow(TIME, 2))
    ensures ACCELERATION.length == 0
  {
  }

  /** ENERGY is defined as MASS over VELOCITY squared, so its length and time exponents are inverted. */
  lemma Energy()
    ensures ENERGY == Div(MASS, Pow(VELOCITY, 2))
    ensures ENERGY.length == -2 && ENERGY.time == 2
  {
  }

  /** POWER is ENERGY over TIME. */
  lemma Power()
    ensures POWER == Div(ENERGY, TIME)
  {
  }
}
