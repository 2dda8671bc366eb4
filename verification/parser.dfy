/**
 The unit-expression evaluator: the syntax tree the Pratt parser produces,
 the recursive evaluation with an explicit ambient exponent, and the entry
 point that parses a string and evaluates the tree with exponent 1.

 The text grammar is not part of this model: `ParseUnit` receives it as a
 function from text to an optional tree. The operator table puts `*`, `/`
 and `^` at one precedence level, which gives the trees two shapes: chains
 of `*` and `/` nest to the right (`a/b/c` is `a/(b/c)` without a `Paren`
 node), and a trailing `^` takes only the operand just before it
 (`kg*m2/s^2` is `kg*(m2/(s^2))`).
 */
module Parser {
  import opened Options
  import Units
  import opened Build
  import Generated

  datatype Op = Multiply | Divide | Exponent

  datatype Expr =
    | Atom(symbol: string)
    | Num(value: int)
    | Paren(inner: Expr)
    | BinOp(lhs: Expr, op: Op, rhs: Expr)

  /** The three places the crate aborts instead of returning a value. */
  datatype Panic =
    | ExponentNotNum        // the assertion on the right operand of `^` while building the tree
    | UnreachableExponent   // the exponent branch of the evaluator, left side unknown or right side not a number
    | UnreachableNum        // a number evaluated as a unit

  /** `Some(unit)`, `None`, or an abort. */
  datatype Outcome = Resolved(unit: Units.Unit) | Unresolved | Panicked(reason: Panic)

  /** `i32::abs`, without its overflow at the least value. */
  function Abs(x: int): (r: int)
    ensures r >= 0 && (r == x || r == -x)
  {
    if x < 0 then -x else x
  }

  /**
   Both operands of `*` and `/` are evaluated, left first, before the results
   are matched: an abort on either side ends the evaluation; otherwise a
   missing unit on either side gives no unit.
   */
  function Combine(l: Outcome, r: Outcome): (o: Outcome)
    requires l.Resolved? ==> l.unit.scale > 0.0
    requires r.Resolved? ==> r.unit.scale > 0.0
    ensures o.Resolved? <==> l.Resolved? && r.Resolved?
    ensures o.Resolved? ==> o.unit == Units.Mul(l.unit, r.unit) && o.unit.scale > 0.0
    ensures o.Panicked? <==> l.Panicked? || r.Panicked?
    ensures l.Panicked? ==> o == l
    ensures !l.Panicked? && r.Panicked? ==> o == r
  {
    if l.Panicked? then l
    else if r.Panicked? then r
    else if l.Resolved? && r.Resolved? then Resolved(Units.Mul(l.unit, r.unit))
    else Unresolved
  }

  /** `unit_of_expr(expr, exponent)`. */
  function UnitOfExpr(e: Expr, x: int, reg: Map): (r: Outcome)
    requires PositiveScales(reg)
    ensures r.Resolved? ==> r.unit.scale > 0.0
    decreases e, 1
  {
    match e
    case Atom(s) =>
      (match Get(reg, s)
       case Some(u) => Resolved(Units.Pow(u, x))
       case None => Unresolved)
    case BinOp(l, op, rr) => UnitOfBinOp(l, op, rr, x, reg)
    case Paren(inner) =>
      (match UnitOfExpr(inner, 1, reg)
       case Resolved(u) => Resolved(Units.Pow(u, x))
       case other => other)
    case Num(_) => Panicked(UnreachableNum)
  }

  /** `unit_of_binop(lhs, op, rhs, exponent)`. */
  function UnitOfBinOp(l: Expr, op: Op, rr: Expr, x: int, reg: Map): (r: Outcome)
    requires PositiveScales(reg)
    ensures r.Resolved? ==> r.unit.scale > 0.0
    decreases BinOp(l, op, rr), 0
  {
    match op
    case Multiply => Combine(UnitOfExpr(l, x, reg), UnitOfExpr(rr, x, reg))
    case Divide => Combine(UnitOfExpr(l, x, reg), UnitOfExpr(rr, -Abs(x), reg))
    case Exponent =>
      var lu := UnitOfExpr(l, x, reg);
      if lu.Panicked? then lu
      else if lu.Resolved? && rr.Num? then Resolved(Units.Pow(lu.unit, rr.value))
      else Panicked(UnreachableExponent)
  }

  /** Every `^` in the tree has a number as its right operand (the assertion made while building it). */
  predicate NumericExponents(e: Expr) {
    match e
    case Atom(_) => true
    case Num(_) => true
    case Paren(inner) => NumericExponents(inner)
    case BinOp(l, op, rr) => NumericExponents(l) && NumericExponents(rr) && (op == Exponent ==> rr.Num?)
  }

  /**
   `parse_unit(text)`: no unit when the text does not parse; an abort while
   building a tree with a non-numeric exponent; otherwise the tree evaluated
   against the generated registry with ambient exponent 1.
   */
  function ParseUnit(text: string, grammar: string -> Option<Expr>): (r: Outcome)
    ensures grammar(text).None? ==> r == Unresolved
    ensures grammar(text).Some? && !NumericExponents(grammar(text).value) ==> r == Panicked(ExponentNotNum)
    ensures r.Resolved? ==> r.unit.scale > 0.0
  {
    match grammar(text)
    case None => Unresolved
    case Some(tree) =>
      if !NumericExponents(tree) then Panicked(ExponentNotNum)
      else UnitOfExpr(tree, 1, Generated.Registry())
  }
}
