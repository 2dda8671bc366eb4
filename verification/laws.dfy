/**
 Algebraic laws of the evaluator that follow from the ambient exponent:
 right-nested division chains, grouping, and `^`.
 */
module Laws {
  import Dimensions
  import Units
  import opened Build
  import opened Parser
  import opened Evaluation

  // ---------------------------------------------------------------------------
  // Factors of small trees

  /**
   Two trees that do not abort, look up the same atoms and have the same
   factors evaluate alike.
   */
  lemma SameFactorsSameOutcome(e1: Expr, x1: int, e2: Expr, x2: int, reg: Map)
    requires PositiveScales(reg) && !Aborts(e1, reg) && !Aborts(e2, reg)
    requires Known(e1, reg) <==> Known(e2, reg)
    requires Factors(e1, x1) == Factors(e2, x2)
    ensures UnitOfExpr(e1, x1, reg) == UnitOfExpr(e2, x2, reg)
  {
    Classification(e1, x1, reg);
    Classification(e2, x2, reg);
    if Known(e1, reg) {
      EvaluatesToProduct(e1, x1, reg);
      EvaluatesToProduct(e2, x2, reg);
    }
  }

  /** Factors, aborts and known-ness of two atoms joined by `*` or `/`. */
  lemma TwoAtoms(b: string, op: Op, c: string, x: int, reg: Map)
    requires op != Exponent
    ensures Factors(BinOp(Atom(b), op, Atom(c)), x)
         == [Factor(b, x), Factor(c, if op == Divide then -Abs(x) else x)]
    ensures !Aborts(BinOp(Atom(b), op, Atom(c)), reg)
    ensures Known(BinOp(Atom(b), op, Atom(c)), reg) <==> b in reg && c in reg
  {
    assert Factors(Atom(b), x) == [Factor(b, x)];
    assert Factors(Atom(c), if op == Divide then -Abs(x) else x) == [Factor(c, if op == Divide then -Abs(x) else x)];
  }

  /** Factors, aborts and known-ness of an atom joined by `*` or `/` to a tree. */
  lemma AtomThen(a: string, op: Op, rest: Expr, x: int, reg: Map)
    requires op != Exponent
    ensures Factors(BinOp(Atom(a), op, rest), x)
         == [Factor(a, x)] + Factors(rest, if op == Divide then -Abs(x) else x)
    ensures Aborts(BinOp(Atom(a), op, rest), reg) <==> Aborts(rest, reg)
    ensures Known(BinOp(Atom(a), op, rest), reg) <==> a in reg && Known(rest, reg)
  {
    assert Factors(Atom(a), x) == [Factor(a, x)];
  }

  /** The product of three factors. */
  lemma ProductOfThree(f1: Factor, f2: Factor, f3: Factor, reg: Map)
    requires PositiveScales(reg) && f1.symbol in reg && f2.symbol in reg && f3.symbol in reg
    ensures AllKnown([f1, f2, f3], reg)
    ensures Product([f1, f2, f3], reg)
         == Units.Mul(Units.Pow(reg[f1.symbol], f1.power),
                      Units.Mul(Units.Pow(reg[f2.symbol], f2.power), Units.Pow(reg[f3.symbol], f3.power)))
  {
    var p1, p2, p3 := Units.Pow(reg[f1.symbol], f1.power), Units.Pow(reg[f2.symbol], f2.power), Units.Pow(reg[f3.symbol], f3.power);
    assert [f1, f2, f3][1..] == [f2, f3] && [f2, f3][1..] == [f3] && [f3][1..] == [];
    assert Product([f3], reg) == Units.Mul(p3, Units.ONE);
    Units.MulIdentity(p3);
    assert Product([f2, f3], reg) == Units.Mul(p2, p3);
  }

  // ---------------------------------------------------------------------------
  // Division chains

  /** Under a non-positive ambient exponent `/` and `*` evaluate alike. */
  lemma DivideIsMultiplyWhenNonPositive(b: Expr, c: Expr, y: int, reg: Map)
    requires PositiveScales(reg) && y <= 0
    ensures UnitOfExpr(BinOp(b, Divide, c), y, reg) == UnitOfExpr(BinOp(b, Multiply, c), y, reg)
  {
    assert UnitOfExpr(BinOp(b, Divide, c), y, reg) == UnitOfBinOp(b, Divide, c, y, reg);
    assert UnitOfExpr(BinOp(b, Multiply, c), y, reg) == UnitOfBinOp(b, Multiply, c, y, reg);
  }

  /**
   Chain law: the right-nested `a/b/c` evaluates as `a/(b*c)` with no group,
   for any sub-trees and any ambient exponent, aborts included.
   */
  lemma ChainLaw(a: Expr, b: Expr, c: Expr, x: int, reg: Map)
    requires PositiveScales(reg)
    ensures UnitOfExpr(BinOp(a, Divide, BinOp(b, Divide, c)), x, reg)
         == UnitOfExpr(BinOp(a, Divide, BinOp(b, Multiply, c)), x, reg)
  {
    DivideIsMultiplyWhenNonPositive(b, c, -Abs(x), reg);
    assert UnitOfExpr(BinOp(a, Divide, BinOp(b, Divide, c)), x, reg)
        == UnitOfBinOp(a, Divide, BinOp(b, Divide, c), x, reg);
    assert UnitOfExpr(BinOp(a, Divide, BinOp(b, Multiply, c)), x, reg)
        == UnitOfBinOp(a, Divide, BinOp(b, Multiply, c), x, reg);
  }

  /** Chain law with the group written out: `a/b/c` equals `a/(b*c)` for atoms. */
  lemma ChainLawGrouped(a: string, b: string, c: string, x: int, reg: Map)
    requires PositiveScales(reg)
    ensures UnitOfExpr(BinOp(Atom(a), Divide, BinOp(Atom(b), Divide, Atom(c))), x, reg)
         == UnitOfExpr(BinOp(Atom(a), Divide, Paren(BinOp(Atom(b), Multiply, Atom(c)))), x, reg)
  {
    var y := -Abs(x);
    var chained := BinOp(Atom(a), Divide, BinOp(Atom(b), Divide, Atom(c)));
    var grouped := BinOp(Atom(a), Divide, Paren(BinOp(Atom(b), Multiply, Atom(c))));
    TwoAtoms(b, Divide, c, y, reg);
    AtomThen(a, Divide, BinOp(Atom(b), Divide, Atom(c)), x, reg);
    TwoAtoms(b, Multiply, c, 1, reg);
    AtomThen(a, Divide, Paren(BinOp(Atom(b), Multiply, Atom(c))), x, reg);
    assert Factors(chained, x) == [Factor(a, x), Factor(b, y), Factor(c, y)];
    assert Scaled([Factor(b, 1), Factor(c, 1)], y) == [Factor(b, y), Factor(c, y)];
    assert Factors(grouped, x) == [Factor(a, x), Factor(b, y), Factor(c, y)];
    SameFactorsSameOutcome(chained, x, grouped, x, reg);
  }

  // ---------------------------------------------------------------------------
  // Grouping

  /**
   Grouping law: at a non-negative ambient exponent (in particular at the top
   level, where it is 1) `a/(b/c)` evaluates as `a*c/b`, which nests as `a*(c/b)`.
   */
  lemma GroupingLaw(a: string, b: string, c: string, x: int, reg: Map)
    requires PositiveScales(reg) && x >= 0
    ensures UnitOfExpr(BinOp(Atom(a), Divide, Paren(BinOp(Atom(b), Divide, Atom(c)))), x, reg)
         == UnitOfExpr(BinOp(Atom(a), Multiply, BinOp(Atom(c), Divide, Atom(b))), x, reg)
  {
    var grouped := BinOp(Atom(a), Divide, Paren(BinOp(Atom(b), Divide, Atom(c))));
    var plain := BinOp(Atom(a), Multiply, BinOp(Atom(c), Divide, Atom(b)));
    TwoAtoms(b, Divide, c, 1, reg);
    AtomThen(a, Divide, Paren(BinOp(Atom(b), Divide, Atom(c))), x, reg);
    TwoAtoms(c, Divide, b, x, reg);
    AtomThen(a, Multiply, BinOp(Atom(c), Divide, Atom(b)), x, reg);
    Classification(grouped, x, reg);
    Classification(plain, x, reg);
    if a in reg && b in reg && c in reg {
      assert Scaled([Factor(b, 1), Factor(c, -1)], -x) == [Factor(b, -x), Factor(c, x)];
      assert Factors(grouped, x) == [Factor(a, x), Factor(b, -x), Factor(c, x)];
      assert Factors(plain, x) == [Factor(a, x), Factor(c, x), Factor(b, -x)];
      EvaluatesToProduct(grouped, x, reg);
      EvaluatesToProduct(plain, x, reg);
      ProductOfThree(Factor(a, x), Factor(b, -x), Factor(c, x), reg);
      ProductOfThree(Factor(a, x), Factor(c, x), Factor(b, -x), reg);
      Units.MulCommutative(Units.Pow(reg[b], -x), Units.Pow(reg[c], x));
    }
  }

  /**
   At ambient exponent -1 (the right operand of a `/`) the grouping law fails
   whenever `c` is not dimensionless: the group raises `c` to +1, the
   ungrouped form to -1.
   */
  lemma GroupingLawFailsUnderDivision(a: string, b: string, c: string, reg: Map)
    requires PositiveScales(reg) && a in reg && b in reg && c in reg
    requires reg[c].dimension != Dimensions.DIMENSIONLESS
    ensures UnitOfExpr(BinOp(Atom(a), Divide, Paren(BinOp(Atom(b), Divide, Atom(c)))), -1, reg)
         != UnitOfExpr(BinOp(Atom(a), Multiply, BinOp(Atom(c), Divide, Atom(b))), -1, reg)
  {
    var grouped := BinOp(Atom(a), Divide, Paren(BinOp(Atom(b), Divide, Atom(c))));
    var plain := BinOp(Atom(a), Multiply, BinOp(Atom(c), Divide, Atom(b)));
    TwoAtoms(b, Divide, c, 1, reg);
    AtomThen(a, Divide, Paren(BinOp(Atom(b), Divide, Atom(c))), -1, reg);
    TwoAtoms(c, Divide, b, -1, reg);
    AtomThen(a, Multiply, BinOp(Atom(c), Divide, Atom(b)), -1, reg);
    assert Scaled([Factor(b, 1), Factor(c, -1)], -1) == [Factor(b, -1), Factor(c, 1)];
    assert Factors(grouped, -1) == [Factor(a, -1), Factor(b, -1), Factor(c, 1)];
    assert Factors(plain, -1) == [Factor(a, -1), Factor(c, -1), Factor(b, -1)];
    EvaluatesToProduct(grouped, -1, reg);
    EvaluatesToProduct(plain, -1, reg);
    ProductOfThree(Factor(a, -1), Factor(b, -1), Factor(c, 1), reg);
    ProductOfThree(Factor(a, -1), Factor(c, -1), Factor(b, -1), reg);
    CExponentDiffers(reg[a], reg[b], reg[c]);
  }

  /** The two products of the failed grouping law differ by `c` squared in dimension. */
  lemma CExponentDiffers(ua: Units.Unit, ub: Units.Unit, uc: Units.Unit)
    requires ua.scale > 0.0 && ub.scale > 0.0 && uc.scale > 0.0
    requires uc.dimension != Dimensions.DIMENSIONLESS
    ensures Units.Mul(Units.Pow(ua, -1), Units.Mul(Units.Pow(ub, -1), Units.Pow(uc, 1)))
         != Units.Mul(Units.Pow(ua, -1), Units.Mul(Units.Pow(uc, -1), Units.Pow(ub, -1)))
  {
    var d := uc.dimension;
    var g := Units.Mul(Units.Pow(ua, -1), Units.Mul(Units.Pow(ub, -1), Units.Pow(uc, 1))).dimension;
    var p := Units.Mul(Units.Pow(ua, -1), Units.Mul(Units.Pow(uc, -1), Units.Pow(ub, -1))).dimension;
    assert g.length - p.length == 2 * d.length;
    assert g.mass - p.mass == 2 * d.mass;
    assert g.time - p.time == 2 * d.time;
    assert g.current - p.current == 2 * d.current;
    assert g.temperature - p.temperature == 2 * d.temperature;
    assert g.amount - p.amount == 2 * d.amount;
  }

  // ---------------------------------------------------------------------------
  // Chains of atoms

  /** The right-nested tree the operator table gives a chain of atoms joined by `ops`. */
  function Chain(atoms: seq<string>, ops: seq<Op>): Expr
    requires |atoms| == |ops| + 1
  {
    if |ops| == 0 then Atom(atoms[0])
    else BinOp(Atom(atoms[0]), ops[0], Chain(atoms[1..], ops[1..]))
  }

  /** The power of the `i`-th atom: the ambient power before the first `/`, `-|x|` after it. */
  function ChainPower(ops: seq<Op>, i: nat, x: int): int
    requires i <= |ops|
  {
    if Divide in ops[..i] then -Abs(x) else x
  }

  /**
   In a chain of `*` and `/`, every atom before the first `/` is raised to
   the ambient power and every later atom to `-|x|`.
   */
  lemma {:induction false} ChainFactors(atoms: seq<string>, ops: seq<Op>, x: int)
    requires |atoms| == |ops| + 1
    requires forall i | 0 <= i < |ops| :: ops[i] != Exponent
    ensures Factors(Chain(atoms, ops), x) == seq(|atoms|, i requires 0 <= i < |atoms| => Factor(atoms[i], ChainPower(ops, i, x)))
  {
    var want := seq(|atoms|, i requires 0 <= i < |atoms| => Factor(atoms[i], ChainPower(ops, i, x)));
    if |ops| > 0 {
      var y := if ops[0] == Divide then -Abs(x) else x;
      ChainFactors(atoms[1..], ops[1..], y);
      var got := Factors(Chain(atoms, ops), x);
      assert Chain(atoms, ops) == BinOp(Atom(atoms[0]), ops[0], Chain(atoms[1..], ops[1..]));
      AtomThen(atoms[0], ops[0], Chain(atoms[1..], ops[1..]), x, map[]);
      assert got == [Factor(atoms[0], x)] + Factors(Chain(atoms[1..], ops[1..]), y);
      forall i | 1 <= i < |atoms|
        ensures got[i] == want[i]
      {
        assert ops[..i] == [ops[0]] + ops[1..][..i - 1];
        assert ChainPower(ops, i, x) == ChainPower(ops[1..], i - 1, y);
      }
    }
  }

  /**
   From the top level, a chain of known atoms evaluates to the product of
   its atoms, raised to 1 before the first `/` and to -1 after it.
   */
  lemma ChainEvaluates(atoms: seq<string>, ops: seq<Op>, reg: Map)
    requires PositiveScales(reg) && |atoms| == |ops| + 1
    requires forall i | 0 <= i < |ops| :: ops[i] != Exponent
    requires forall i | 0 <= i < |atoms| :: atoms[i] in reg
    ensures forall i | 0 <= i < |atoms| :: ChainPower(ops, i, 1) == (if Divide in ops[..i] then -1 else 1)
    ensures var fs := seq(|atoms|, i requires 0 <= i < |atoms| => Factor(atoms[i], ChainPower(ops, i, 1)));
      AllKnown(fs, reg) && UnitOfExpr(Chain(atoms, ops), 1, reg) == Resolved(Product(fs, reg))
  {
    ChainFactors(atoms, ops, 1);
    ChainWellFormed(atoms, ops, reg);
    EvaluatesToProduct(Chain(atoms, ops), 1, reg);
  }

  lemma {:induction false} ChainWellFormed(atoms: seq<string>, ops: seq<Op>, reg: Map)
    requires |atoms| == |ops| + 1
    requires forall i | 0 <= i < |ops| :: ops[i] != Exponent
    requires forall i | 0 <= i < |atoms| :: atoms[i] in reg
    ensures !Aborts(Chain(atoms, ops), reg) && Known(Chain(atoms, ops), reg)
  {
    if |ops| > 0 {
      ChainWellFormed(atoms[1..], ops[1..], reg);
    }
  }

  // ---------------------------------------------------------------------------
  // Exponents

  /**
   `s ^ k` under ambient exponent `x` raises the registry unit to `x * k`;
   an unknown `s` aborts.
   */
  lemma ExponentLaw(s: string, k: int, x: int, reg: Map)
    requires PositiveScales(reg)
    ensures s in reg ==> UnitOfExpr(BinOp(Atom(s), Exponent, Num(k)), x, reg) == Resolved(Units.Pow(reg[s], x * k))
    ensures s !in reg ==> UnitOfExpr(BinOp(Atom(s), Exponent, Num(k)), x, reg) == Panicked(UnreachableExponent)
  {
    var e := BinOp(Atom(s), Exponent, Num(k));
    assert UnitOfExpr(e, x, reg) == UnitOfBinOp(Atom(s), Exponent, Num(k), x, reg);
    if s in reg {
      assert UnitOfExpr(Atom(s), x, reg) == Resolved(Units.Pow(reg[s], x));
      Units.PowPow(reg[s], x, k);
    } else {
      assert UnitOfExpr(Atom(s), x, reg) == Unresolved;
    }
  }
}
