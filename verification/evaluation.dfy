/**
 What the evaluator computes, stated independently of its recursion: which
 trees abort, fail or resolve; for a tree that resolves, that its unit is the
 product of the registry units of its atoms, each raised to an effective
 power fixed by the tree's shape; and that from the top level, in a tree
 without `^`, every such power is 1 or -1.
 */
module Evaluation {
  import Units
  import opened Build
  import opened Parser

  // ---------------------------------------------------------------------------
  // Which trees abort, fail or resolve

  /** Every atom the evaluator looks up is in the registry (the right operand of `^` is never looked at). */
  predicate Known(e: Expr, reg: Map) {
    match e
    case Atom(s) => s in reg
    case Num(_) => true
    case Paren(inner) => Known(inner, reg)
    case BinOp(l, op, rr) => Known(l, reg) && (op != Exponent ==> Known(rr, reg))
  }

  /**
   The evaluation reaches an abort: a number evaluated as a unit, or a `^`
   whose left side aborts, has an unknown atom, or whose right side is no number.
   */
  predicate Aborts(e: Expr, reg: Map) {
    match e
    case Atom(_) => false
    case Num(_) => true
    case Paren(inner) => Aborts(inner, reg)
    case BinOp(l, op, rr) =>
      if op == Exponent then Aborts(l, reg) || !Known(l, reg) || !rr.Num?
      else Aborts(l, reg) || Aborts(rr, reg)
  }

  /**
   The outcome kind depends only on the tree and the registry, never on the
   ambient exponent: it aborts exactly when `Aborts`, and otherwise resolves
   exactly when every looked-up atom is known.
   */
  lemma {:induction false} Classification(e: Expr, x: int, reg: Map)
    requires PositiveScales(reg)
    ensures UnitOfExpr(e, x, reg).Panicked? <==> Aborts(e, reg)
    ensures UnitOfExpr(e, x, reg).Resolved? <==> !Aborts(e, reg) && Known(e, reg)
    decreases e
  {
    match e
    case Atom(_) =>
    case Num(_) =>
    case Paren(inner) =>
      Classification(inner, 1, reg);
    case BinOp(l, op, rr) =>
      Classification(l, x, reg);
      if op == Multiply {
        Classification(rr, x, reg);
      } else if op == Divide {
        Classification(rr, -Abs(x), reg);
      }
  }

  /** An unknown symbol on the left of `^` aborts instead of giving no unit. */
  lemma UnknownUnderExponentAborts(l: Expr, k: int, x: int, reg: Map)
    requires PositiveScales(reg)
    requires !Aborts(l, reg) && !Known(l, reg)
    ensures UnitOfExpr(BinOp(l, Exponent, Num(k)), x, reg) == Panicked(UnreachableExponent)
  {
    Classification(l, x, reg);
  }

  /** Outside `^`, an unknown symbol gives no unit as long as nothing aborts. */
  lemma UnknownGivesNoUnit(e: Expr, x: int, reg: Map)
    requires PositiveScales(reg)
    requires !Aborts(e, reg) && !Known(e, reg)
    ensures UnitOfExpr(e, x, reg) == Unresolved
  {
    Classification(e, x, reg);
  }

  // ---------------------------------------------------------------------------
  // The flattened product

  /** An atom together with the power it is effectively raised to. */
  datatype Factor = Factor(symbol: string, power: int)

  /** Every factor's power multiplied by `k`. */
  function Scaled(fs: seq<Factor>, k: int): (r: seq<Factor>)
    ensures |r| == |fs|
    ensures forall i | 0 <= i < |fs| :: r[i].symbol == fs[i].symbol
  {
    seq(|fs|, i requires 0 <= i < |fs| => Factor(fs[i].symbol, fs[i].power * k))
  }

  /**
   The looked-up atoms of `e` in evaluation order, with the power each ends
   up raised to: `*` keeps the ambient power, the right of `/` takes
   `-|x|`, a group and a `^ k` multiply the powers inside them by the ambient
   power and by `k`.
   */
  function Factors(e: Expr, x: int): seq<Factor> {
    match e
    case Atom(s) => [Factor(s, x)]
    case Num(_) => []
    case Paren(inner) => Scaled(Factors(inner, 1), x)
    case BinOp(l, op, rr) =>
      if op == Multiply then Factors(l, x) + Factors(rr, x)
      else if op == Divide then Factors(l, x) + Factors(rr, -Abs(x))
      else if rr.Num? then Scaled(Factors(l, x), rr.value)
      else Factors(l, x)
  }

  predicate AllKnown(fs: seq<Factor>, reg: Map) {
    forall i | 0 <= i < |fs| :: fs[i].symbol in reg
  }

  /** The product of the registry units of the factors, each raised to its power. */
  function Product(fs: seq<Factor>, reg: Map): (u: Units.Unit)
    requires PositiveScales(reg) && AllKnown(fs, reg)
    ensures u.scale > 0.0
  {
    if |fs| == 0 then Units.ONE
    else Units.Mul(Units.Pow(reg[fs[0].symbol], fs[0].power), Product(fs[1..], reg))
  }

  lemma {:induction false} ProductAppend(a: seq<Factor>, b: seq<Factor>, reg: Map)
    requires PositiveScales(reg) && AllKnown(a, reg) && AllKnown(b, reg)
    ensures AllKnown(a + b, reg)
    ensures Product(a + b, reg) == Units.Mul(Product(a, reg), Product(b, reg))
  {
    if |a| == 0 {
      assert a + b == b;
      Units.MulIdentity(Product(b, reg));
    } else {
      assert (a + b)[1..] == a[1..] + b;
      ProductAppend(a[1..], b, reg);
      Units.MulAssociative(Units.Pow(reg[a[0].symbol], a[0].power), Product(a[1..], reg), Product(b, reg));
    }
  }

  lemma {:induction false} ProductScaled(fs: seq<Factor>, k: int, reg: Map)
    requires PositiveScales(reg) && AllKnown(fs, reg)
    ensures AllKnown(Scaled(fs, k), reg)
    ensures Product(Scaled(fs, k), reg) == Units.Pow(Product(fs, reg), k)
  {
    if |fs| == 0 {
      Units.PowOfOne(k);
    } else {
      var u := reg[fs[0].symbol];
      var head := Units.Pow(u, fs[0].power);
      assert Scaled(fs, k)[1..] == Scaled(fs[1..], k);
      ProductScaled(fs[1..], k, reg);
      Units.PowDistributesOverMul(head, Product(fs[1..], reg), k);
      Units.PowPow(u, fs[0].power, k);
    }
  }

  /** The claim of `EvaluatesToProduct` for one tree. */
  predicate IsProduct(e: Expr, x: int, reg: Map)
    requires PositiveScales(reg)
  {
    AllKnown(Factors(e, x), reg) && UnitOfExpr(e, x, reg) == Resolved(Product(Factors(e, x), reg))
  }

  lemma AtomIsProduct(s: string, x: int, reg: Map)
    requires PositiveScales(reg) && s in reg
    ensures IsProduct(Atom(s), x, reg)
  {
    Units.MulIdentity(Units.Pow(reg[s], x));
  }

  lemma ParenIsProduct(inner: Expr, x: int, reg: Map)
    requires PositiveScales(reg) && IsProduct(inner, 1, reg)
    ensures IsProduct(Paren(inner), x, reg)
  {
    ProductScaled(Factors(inner, 1), x, reg);
  }

  lemma CombineIsProduct(l: Expr, rr: Expr, x: int, y: int, reg: Map)
    requires PositiveScales(reg) && IsProduct(l, x, reg) && IsProduct(rr, y, reg)
    ensures AllKnown(Factors(l, x) + Factors(rr, y), reg)
    ensures Combine(UnitOfExpr(l, x, reg), UnitOfExpr(rr, y, reg))
         == Resolved(Product(Factors(l, x) + Factors(rr, y), reg))
  {
    ProductAppend(Factors(l, x), Factors(rr, y), reg);
  }

  lemma MultiplyIsProduct(l: Expr, rr: Expr, x: int, reg: Map)
    requires PositiveScales(reg) && IsProduct(l, x, reg) && IsProduct(rr, x, reg)
    ensures IsProduct(BinOp(l, Multiply, rr), x, reg)
  {
    var e := BinOp(l, Multiply, rr);
    var fs := Factors(l, x) + Factors(rr, x);
    assert Factors(e, x) == fs;
    assert UnitOfExpr(e, x, reg) == Combine(UnitOfExpr(l, x, reg), UnitOfExpr(rr, x, reg));
    CombineIsProduct(l, rr, x, x, reg);
  }

  lemma DivideIsProduct(l: Expr, rr: Expr, x: int, reg: Map)
    requires PositiveScales(reg) && IsProduct(l, x, reg) && IsProduct(rr, -Abs(x), reg)
    ensures IsProduct(BinOp(l, Divide, rr), x, reg)
  {
    var e, y := BinOp(l, Divide, rr), -Abs(x);
    var fs := Factors(l, x) + Factors(rr, y);
    assert Factors(e, x) == fs;
    assert UnitOfExpr(e, x, reg) == Combine(UnitOfExpr(l, x, reg), UnitOfExpr(rr, y, reg));
    CombineIsProduct(l, rr, x, y, reg);
  }

  lemma ExponentIsProduct(l: Expr, k: int, x: int, reg: Map)
    requires PositiveScales(reg) && IsProduct(l, x, reg)
    ensures IsProduct(BinOp(l, Exponent, Num(k)), x, reg)
  {
    ProductScaled(Factors(l, x), k, reg);
  }

  /**
   A tree that neither aborts nor looks up an unknown atom evaluates to the
   product of its factors.
   */
  lemma {:induction false} EvaluatesToProduct(e: Expr, x: int, reg: Map)
    requires PositiveScales(reg) && !Aborts(e, reg) && Known(e, reg)
    ensures AllKnown(Factors(e, x), reg)
    ensures UnitOfExpr(e, x, reg) == Resolved(Product(Factors(e, x), reg))
    decreases e, 1
  {
    match e
    case Atom(s) =>
      AtomIsProduct(s, x, reg);
    case Paren(inner) =>
      EvaluatesToProduct(inner, 1, reg);
      ParenIsProduct(inner, x, reg);
    case BinOp(l, op, rr) =>
      BinOpEvaluatesToProduct(l, op, rr, x, reg);
  }

  /** The `*`, `/` and `^` cases of `EvaluatesToProduct`. */
  lemma {:induction false} BinOpEvaluatesToProduct(l: Expr, op: Op, rr: Expr, x: int, reg: Map)
    requires PositiveScales(reg) && !Aborts(BinOp(l, op, rr), reg) && Known(BinOp(l, op, rr), reg)
    ensures IsProduct(BinOp(l, op, rr), x, reg)
    decreases BinOp(l, op, rr), 0
  {
    EvaluatesToProduct(l, x, reg);
    match op
    case Multiply =>
      EvaluatesToProduct(rr, x, reg);
      MultiplyIsProduct(l, rr, x, reg);
    case Divide =>
      EvaluatesToProduct(rr, -Abs(x), reg);
      DivideIsProduct(l, rr, x, reg);
    case Exponent =>
      ExponentIsProduct(l, rr.value, x, reg);
  }

  // ---------------------------------------------------------------------------
  // Effective powers

  /** The tree holds no `^`. */
  predicate ExponentFree(e: Expr) {
    match e
    case Atom(_) => true
    case Num(_) => true
    case Paren(inner) => ExponentFree(inner)
    case BinOp(l, op, rr) => op != Exponent && ExponentFree(l) && ExponentFree(rr)
  }

  /**
   Started at 1 or -1, a tree without `^` raises each atom it looks up to 1
   or -1: `*` keeps the ambient exponent, `/` passes `-|x|` and a group
   restarts at 1 before multiplying by the ambient exponent.
   */
  lemma {:induction false} FactorPowersAreUnit(e: Expr, x: int)
    requires x == 1 || x == -1
    requires ExponentFree(e)
    ensures forall i | 0 <= i < |Factors(e, x)| :: Factors(e, x)[i].power == 1 || Factors(e, x)[i].power == -1
  {
    match e
    case Atom(_) =>
    case Num(_) =>
    case Paren(inner) =>
      FactorPowersAreUnit(inner, 1);
    case BinOp(l, op, rr) =>
      var y := if op == Divide then -Abs(x) else x;
      FactorPowersAreUnit(l, x);
      FactorPowersAreUnit(rr, y);
      assert Factors(e, x) == Factors(l, x) + Factors(rr, y);
  }

  /**
   From the top level, a resolved tree without `^` is a product of registry
   units each raised to 1 or -1.
   */
  lemma TopLevelPowersAreUnit(e: Expr, reg: Map)
    requires PositiveScales(reg) && ExponentFree(e) && !Aborts(e, reg) && Known(e, reg)
    ensures AllKnown(Factors(e, 1), reg)
    ensures UnitOfExpr(e, 1, reg) == Resolved(Product(Factors(e, 1), reg))
    ensures forall i | 0 <= i < |Factors(e, 1)| :: Factors(e, 1)[i].power == 1 || Factors(e, 1)[i].power == -1
  {
    EvaluatesToProduct(e, 1, reg);
    FactorPowersAreUnit(e, 1);
  }
}
