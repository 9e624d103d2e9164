/** The syntax tree the parser builds and its meaning. */
module Ast {
  import opened Results
  import opened Arith

  /** Node kinds of `9cc.c`'s `new_node`; `>` and `>=` are kinds of their
      own, not rewritten into `<` and `<=`. */
  datatype BinOp = Add | Sub | Mul | Div | Eq | Ne | Lt | Le | Gt | Ge

  /** `new_node_num` builds a `Num`, `new_node` a `Binary`. */
  datatype Node = Num(val: int) | Binary(op: BinOp, lhs: Node, rhs: Node)

  predicate IsComparison(op: BinOp) {
    op in {Eq, Ne, Lt, Le, Gt, Ge}
  }

  /** What one operator computes from its operand values; `None` for a
      division by zero, which faults in the generated program. */
  function Apply(op: BinOp, a: int, b: int): (r: Option<int>)
    ensures r.None? <==> op == Div && b == 0
    ensures IsComparison(op) ==> r == Some(0) || r == Some(1)
  {
    match op
    case Add => Some(a + b)
    case Sub => Some(a - b)
    case Mul => Some(a * b)
    case Div => if b == 0 then None else Some(TruncDiv(a, b))
    case Eq => Some(Bool(a == b))
    case Ne => Some(Bool(a != b))
    case Lt => Some(Bool(a < b))
    case Le => Some(Bool(a <= b))
    case Gt => Some(Bool(a > b))
    case Ge => Some(Bool(a >= b))
  }

  /** The value of an expression tree: left operand, then right operand,
      then the operator. `None` when some division has a zero divisor. */
  function Eval(n: Node): Option<int> {
    match n
    case Num(v) => Some(v)
    case Binary(op, l, r) =>
      match Eval(l)
      case None => None
      case Some(a) =>
        match Eval(r)
        case None => None
        case Some(b) => Apply(op, a, b)
  }

  /** Every division in the tree has a non-zero divisor at run time. */
  predicate DivisorsNonZero(n: Node) {
    match n
    case Num(_) => true
    case Binary(op, l, r) =>
      && DivisorsNonZero(l) && DivisorsNonZero(r)
      && (op == Div ==> Eval(r) != Some(0))
  }

  /** Eval fails exactly when some divisor is zero. */
  lemma {:induction false} EvalDefined(n: Node)
    ensures Eval(n).Some? <==> DivisorsNonZero(n)
  {
    match n
    case Num(_) =>
    case Binary(op, l, r) =>
      EvalDefined(l);
      EvalDefined(r);
  }

  /** `a > b` means `b < a`, and `a >= b` means `b <= a`; either both
      fault or neither does. */
  lemma GreaterIsSwappedLess(a: Node, b: Node)
    ensures Eval(Binary(Gt, a, b)) == Eval(Binary(Lt, b, a))
    ensures Eval(Binary(Ge, a, b)) == Eval(Binary(Le, b, a))
  {
  }
}
