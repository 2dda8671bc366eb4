/**
 Worked evaluations against the generated registry. The text grammar is a
 parameter, so each example states the tree it gives for its text. The trees
 follow the operator table: chains of `*` and `/` nest to the right, and a
 trailing `^` takes only the operand just before it (`kg*m2/s^2` is
 `kg*(m2/(s^2))`).
 */
module Examples {
  import opened Options
  import opened Powers
  import Dimensions
  import opened Units
  import opened Build
  import opened Generated
  import opened Parser

  /** An atom known to the registry evaluates to its unit raised to the ambient exponent. */
  lemma KnownAtom(s: string, x: int, u: Unit)
    requires Lookup(s) == Some(u)
    ensures UnitOfExpr(Atom(s), x, Registry()) == Resolved(Units.Pow(u, x))
  {
  }

  /** `a/b` of two known atoms at the top level: dimensions subtract and scales divide. */
  lemma Quotient(a: string, b: string, ua: Unit, ub: Unit)
    requires Lookup(a) == Some(ua) && Lookup(b) == Some(ub)
    ensures UnitOfExpr(BinOp(Atom(a), Divide, Atom(b)), 1, Registry())
         == Resolved(Unit(Dimensions.Div(ua.dimension, ub.dimension), ua.scale / ub.scale))
  {
    KnownAtom(a, 1, ua);
    KnownAtom(b, -1, ub);
    assert UnitOfExpr(BinOp(Atom(a), Divide, Atom(b)), 1, Registry())
        == Combine(Resolved(Units.Pow(ua, 1)), Resolved(Units.Pow(ub, -1)));
    QuotientUnit(ua, ub);
  }

  lemma QuotientUnit(ua: Unit, ub: Unit)
    requires ub.scale != 0.0
    ensures Units.Mul(Units.Pow(ua, 1), Units.Pow(ub, -1))
         == Unit(Dimensions.Div(ua.dimension, ub.dimension), ua.scale / ub.scale)
  {
    PowOne(ua);
    IntPowOneAndMinusOne(ub.scale);
  }

  /** A tree with numeric exponents is evaluated with ambient exponent 1. */
  lemma ParsesTo(text: string, grammar: string -> Option<Expr>, tree: Expr)
    requires grammar(text) == Some(tree) && NumericExponents(tree)
    ensures ParseUnit(text, grammar) == UnitOfExpr(tree, 1, Registry())
  {
  }

  lemma MetrePerSecondTree()
    ensures UnitOfExpr(BinOp(Atom("m"), Divide, Atom("s")), 1, Registry()) == Resolved(Unit(Dimensions.VELOCITY, 1.0))
  {
    var m, s := Unit(Dimensions.LENGTH, 1.0), Unit(Dimensions.TIME, 1.0);
    MetreLookup();
    SecondLookup();
    Quotient("m", "s", m, s);
  }

  /** "m/s" is VELOCITY with scale 1. */
  lemma MetrePerSecond(grammar: string -> Option<Expr>)
    requires grammar("m/s") == Some(BinOp(Atom("m"), Divide, Atom("s")))
    ensures ParseUnit("m/s", grammar) == Resolved(Unit(Dimensions.VELOCITY, 1.0))
  {
    MetrePerSecondTree();
    ParsesTo("m/s", grammar, BinOp(Atom("m"), Divide, Atom("s")));
  }

  lemma KilometrePerHourTree()
    ensures UnitOfExpr(BinOp(Atom("km"), Divide, Atom("h")), 1, Registry())
         == Resolved(Unit(Dimensions.VELOCITY, 1000.0 / 3600.0))
  {
    var km, h := Unit(Dimensions.LENGTH, 1000.0), Unit(Dimensions.TIME, 3600.0);
    KilometreLookup();
    HourLookup();
    Quotient("km", "h", km, h);
  }

  /** "km/h" is VELOCITY with scale 1000/3600. */
  lemma KilometrePerHour(grammar: string -> Option<Expr>)
    requires grammar("km/h") == Some(BinOp(Atom("km"), Divide, Atom("h")))
    ensures ParseUnit("km/h", grammar) == Resolved(Unit(Dimensions.VELOCITY, 1000.0 / 3600.0))
  {
    KilometrePerHourTree();
    ParsesTo("km/h", grammar, BinOp(Atom("km"), Divide, Atom("h")));
  }

  lemma StandardCubicMetre()
    ensures Lookup("Sm3") == Some(Unit(Dimensions.VOLUME, 1.0))
  {
    LookupBase(UNITS[5]);
  }

  lemma MegajoulePerStandardCubicMetreTree()
    ensures UnitOfExpr(BinOp(Atom("MJ"), Divide, Atom("Sm3")), 1, Registry())
         == Resolved(Unit(Dimensions.Div(Dimensions.ENERGY, Dimensions.VOLUME), 1000000.0))
  {
    var mj, sm3 := Unit(Dimensions.ENERGY, 1000000.0), Unit(Dimensions.VOLUME, 1.0);
    MegajouleLookup();
    StandardCubicMetre();
    Quotient("MJ", "Sm3", mj, sm3);
  }

  /** "MJ/Sm3" is ENERGY over VOLUME with scale 10^6. */
  lemma MegajoulePerStandardCubicMetre(grammar: string -> Option<Expr>)
    requires grammar("MJ/Sm3") == Some(BinOp(Atom("MJ"), Divide, Atom("Sm3")))
    ensures ParseUnit("MJ/Sm3", grammar)
         == Resolved(Unit(Dimensions.Div(Dimensions.ENERGY, Dimensions.VOLUME), 1000000.0))
  {
    MegajoulePerStandardCubicMetreTree();
    ParsesTo("MJ/Sm3", grammar, BinOp(Atom("MJ"), Divide, Atom("Sm3")));
  }

  lemma PowMinusOne(u: Unit)
    requires u.scale != 0.0
    ensures Units.Pow(u, -1) == Unit(Dimensions.Pow(u.dimension, -1), 1.0 / u.scale)
  {
    IntPowOneAndMinusOne(u.scale);
  }

  /** Conversion between units of one dimension gives the ratio of scales; across dimensions it fails. */
  lemma ConvertExamples()
    ensures Convert(Unit(Dimensions.ENERGY, 1000000.0), Unit(Dimensions.ENERGY, 1.0))
         == Some(Unit(Dimensions.ENERGY, 1000000.0))
    ensures Convert(Unit(Dimensions.ENERGY, 1.0), Unit(Dimensions.VOLUME, 1.0)) == None
  {
  }

  /** `s ^ 2` on the right of `/` at the top level is seconds to the power -2. */
  lemma PerSecondSquared()
    ensures UnitOfExpr(BinOp(Atom("s"), Exponent, Num(2)), -1, Registry())
         == Resolved(Unit(Dimensions.Dimension(0, 0, -2, 0, 0, 0), 1.0))
  {
    var s := Unit(Dimensions.TIME, 1.0);
    LookupAdditional(ADDITIONAL_UNITS[0]);
    KnownAtom("s", -1, s);
    assert UnitOfExpr(BinOp(Atom("s"), Exponent, Num(2)), -1, Registry())
        == UnitOfBinOp(Atom("s"), Exponent, Num(2), -1, Registry());
    PowMinusOne(s);
  }

  /**
   Because ENERGY is defined as mass over velocity squared, a joule cannot be
   converted to kg*m2/s^2 (which nests as `kg*(m2/(s^2))`): the two dimensions differ.
   */
  lemma JouleIsNotKilogramSquareMetrePerSecondSquared()
    ensures var kgm2s2 := UnitOfExpr(
              BinOp(Atom("kg"), Multiply, BinOp(Atom("m2"), Divide, BinOp(Atom("s"), Exponent, Num(2)))),
              1, Registry());
      && kgm2s2.Resolved?
      && kgm2s2.unit.dimension == Dimensions.Dimension(2, 1, -2, 0, 0, 0)
      && Lookup("J").Some?
      && Convert(Lookup("J").value, kgm2s2.unit) == None
  {
    var R := Registry();
    var kg, m2 := Unit(Dimensions.MASS, 1.0), Unit(Dimensions.AREA, 1.0);
    KilogramLookup();
    LookupBase(UNITS[3]);
    LookupBase(UNITS[8]);
    KnownAtom("kg", 1, kg);
    KnownAtom("m2", 1, m2);
    PowOne(kg);
    PowOne(m2);
    PerSecondSquared();
    var sq := BinOp(Atom("s"), Exponent, Num(2));
    var quot := BinOp(Atom("m2"), Divide, sq);
    assert UnitOfExpr(quot, 1, R) == UnitOfBinOp(Atom("m2"), Divide, sq, 1, R);
    var e := BinOp(Atom("kg"), Multiply, quot);
    assert UnitOfExpr(e, 1, R) == UnitOfBinOp(Atom("kg"), Multiply, quot, 1, R);
  }
}
