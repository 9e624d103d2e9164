/** The recursive-descent parser. The parse cursor is threaded through as a
    token index: each function takes the index where it starts and returns
    the tree it built with the index where it stopped. */
module Parser {
  import opened Results
  import opened Lexer
  import opened Ast

  /** What the parser reads: a token sequence ending with the end-of-input
      token, which the scanner always appends. */
  predicate Valid(toks: seq<Token>) {
    |toks| > 0 && toks[|toks| - 1].ty == EndOfInput
  }

  /** The binary precedence levels, loosest first: 0 equality, 1 relational,
      2 additive, 3 multiplicative. */
  type Prec = l: nat | l < 4

  /** The binary operator a token stands for, with the level it binds at. */
  function BinaryOperator(ty: TokenType): Option<(Prec, BinOp)> {
    match ty
    case EqualEqual => Some((0, Eq))
    case NotEqual => Some((0, Ne))
    case Less => Some((1, Lt))
    case LessEqual => Some((1, Le))
    case Greater => Some((1, Gt))
    case GreaterEqual => Some((1, Ge))
    case Plus => Some((2, Add))
    case Minus => Some((2, Sub))
    case Star => Some((3, Mul))
    case Slash => Some((3, Div))
    case _ => None
  }

  /** The operator a token stands for at level l, if it is one of that
      level's operators. */
  function OpAt(l: Prec, ty: TokenType): Option<BinOp> {
    match BinaryOperator(ty)
    case Some((l', op)) => if l' == l then Some(op) else None
    case None => None
  }

  /** A token at which parsing at level l stops: it is not a binary operator
      of level l or of any tighter level. */
  predicate Stops(l: nat, ty: TokenType) {
    BinaryOperator(ty).None? || BinaryOperator(ty).value.0 < l
  }

  /** A successful parse consumed at least one token and left the cursor on a
      token, never past the end-of-input token. */
  predicate Advanced(toks: seq<Token>, pos: nat, r: Result<(Node, nat)>) {
    r.Ok? ==> pos < r.value.1 < |toks|
  }

  /** The token t can carry a parser diagnostic of the given kind: the
      parser never reports a scanner error, a missing `)` sits on a token
      that is not `)`, and a missing primary on one that cannot start it. */
  predicate Justifies(t: Token, kind: ErrorKind) {
    && kind != Untokenizable
    && (kind == MissingCloseParen ==> t.ty != RParen)
    && (kind == ExpectedNumberOrParen ==> t.ty != Number && t.ty != LParen)
  }

  /** A parse error sits on a token at or after the start, and that token
      justifies it. */
  predicate ErrorPlaced(toks: seq<Token>, pos: nat, r: Result<(Node, nat)>) {
    r.Err? ==> pos <= r.error.at < |toks| && Justifies(toks[r.error.at], r.error.kind)
  }

  /** `consume`: advance past the current token exactly when it has type ty.
      As the last token is the end-of-input token, consuming any other type
      keeps the cursor on a token. */
  function Consume(toks: seq<Token>, pos: nat, ty: TokenType): (r: (bool, nat))
    requires Valid(toks) && pos < |toks|
    ensures r.0 <==> toks[pos].ty == ty
    ensures r.1 == if r.0 then pos + 1 else pos
    ensures ty != EndOfInput ==> r.1 < |toks|
  {
    if toks[pos].ty != ty then (false, pos) else (true, pos + 1)
  }

  /** `term`: a parenthesised expression or a number. */
  function Term(toks: seq<Token>, pos: nat): (r: Result<(Node, nat)>)
    requires Valid(toks) && pos < |toks|
    ensures Advanced(toks, pos, r) && ErrorPlaced(toks, pos, r)
    ensures r.Ok? ==> toks[pos].ty == Number || toks[pos].ty == LParen
    ensures toks[pos].ty == Number ==> r == Ok((Num(toks[pos].val), pos + 1))
    ensures toks[pos].ty == LParen && r.Ok? ==> toks[r.value.1 - 1].ty == RParen
    ensures toks[pos].ty != Number && toks[pos].ty != LParen ==>
              r == Err(Error(ExpectedNumberOrParen, pos))
    ensures toks[pos].ty == LParen && Expr(toks, pos + 1).Ok?
            && toks[Expr(toks, pos + 1).value.1].ty != RParen ==>
              r == Err(Error(MissingCloseParen, Expr(toks, pos + 1).value.1))
    decreases |toks| - pos, 1
  {
    var (open, p) := Consume(toks, pos, LParen);
    if open then
      match Expr(toks, p)
      case Err(e) => Err(e)
      case Ok((node, q)) =>
        var (close, q') := Consume(toks, q, RParen);
        if close then Ok((node, q')) else Err(Error(MissingCloseParen, q))
    else if toks[pos].ty == Number then
      Ok((Num(toks[pos].val), pos + 1))
    else
      Err(Error(ExpectedNumberOrParen, pos))
  }

  /** `unary`: an optional sign, then a term (not another unary, so `- - 1`
      is rejected); `-x` becomes `0 - x` and `+x` is x. */
  function Unary(toks: seq<Token>, pos: nat): (r: Result<(Node, nat)>)
    requires Valid(toks) && pos < |toks|
    ensures Advanced(toks, pos, r) && ErrorPlaced(toks, pos, r)
    ensures r.Ok? && (toks[pos].ty == Plus || toks[pos].ty == Minus) ==>
              toks[pos + 1].ty == Number || toks[pos + 1].ty == LParen
    ensures r.Ok? && toks[pos].ty == Minus ==>
              r.value.0.Binary? && r.value.0.op == Sub && r.value.0.lhs == Num(0)
    decreases |toks| - pos, 2
  {
    var (plus, p) := Consume(toks, pos, Plus);
    if plus then Term(toks, p)
    else
      var (minus, p') := Consume(toks, pos, Minus);
      if minus then
        match Term(toks, p')
        case Err(e) => Err(e)
        case Ok((node, q)) => Ok((Binary(Sub, Num(0), node), q))
      else Term(toks, pos)
  }

  /** The operand of a level-l operator: the next tighter level, or a unary
      below the multiplicative level. */
  function Operand(l: Prec, toks: seq<Token>, pos: nat): (r: Result<(Node, nat)>)
    requires Valid(toks) && pos < |toks|
    ensures Advanced(toks, pos, r) && ErrorPlaced(toks, pos, r)
    ensures r.Ok? ==> Stops(l + 1, toks[r.value.1].ty)
    decreases |toks| - pos, 3 + 3 * (3 - l)
  {
    if l == 3 then Unary(toks, pos) else BinaryLevel(l + 1, toks, pos)
  }

  /** The loop of `mul`, `add`, `relational` and `equality`: while the current
      token is an operator of level l, consume it, parse the operand after it
      and fold it into a node whose left child is what was built so far. */
  function Loop(l: Prec, toks: seq<Token>, lhs: Node, pos: nat): (r: Result<(Node, nat)>)
    requires Valid(toks) && pos < |toks|
    ensures ErrorPlaced(toks, pos, r)
    ensures r.Ok? ==> pos <= r.value.1 < |toks|
    ensures r.Ok? ==>
              || (r.value == (lhs, pos) && OpAt(l, toks[pos].ty).None?)
              || (pos < r.value.1 && Stops(l, toks[r.value.1].ty))
    decreases |toks| - pos, 4 + 3 * (3 - l)
  {
    match OpAt(l, toks[pos].ty)
    case None => Ok((lhs, pos))
    case Some(op) =>
      match Operand(l, toks, pos + 1)
      case Err(e) => Err(e)
      case Ok((rhs, p)) => Loop(l, toks, Binary(op, lhs, rhs), p)
  }

  /** `mul` (level 3), `add` (2), `relational` (1) and `equality` (0): one
      operand, then the loop. Parsing stops only at a token that is not an
      operator of this level or a tighter one. */
  function BinaryLevel(l: Prec, toks: seq<Token>, pos: nat): (r: Result<(Node, nat)>)
    requires Valid(toks) && pos < |toks|
    ensures Advanced(toks, pos, r) && ErrorPlaced(toks, pos, r)
    ensures r.Ok? ==> Stops(l, toks[r.value.1].ty)
    decreases |toks| - pos, 5 + 3 * (3 - l)
  {
    match Operand(l, toks, pos)
    case Err(e) => Err(e)
    case Ok((node, p)) => Loop(l, toks, node, p)
  }

  /** `expr`, which returns what `equality` parsed. It stops at the first
      token that is not a binary operator; what follows is not examined. */
  function Expr(toks: seq<Token>, pos: nat): (r: Result<(Node, nat)>)
    requires Valid(toks) && pos < |toks|
    ensures Advanced(toks, pos, r) && ErrorPlaced(toks, pos, r)
    ensures r.Ok? ==> BinaryOperator(toks[r.value.1].ty).None?
    decreases |toks| - pos, 15
  {
    BinaryLevel(0, toks, pos)
  }

  // ---------------------------------------------------------------------------
  // The unary rule and the unchecked end of input, on small token sequences
  // ---------------------------------------------------------------------------

  /** A unary expression followed by a token that is no binary operator is
      the whole expression at every level. */
  lemma {:induction false} UnaryAlone(l: Prec, toks: seq<Token>, pos: nat)
    requires Valid(toks) && pos < |toks| && Unary(toks, pos).Ok?
    requires BinaryOperator(toks[Unary(toks, pos).value.1].ty).None?
    ensures BinaryLevel(l, toks, pos) == Unary(toks, pos)
    decreases 3 - l
  {
    if l < 3 {
      UnaryAlone(l + 1, toks, pos);
    }
  }

  /** An error in the first unary expression is the error of every level. */
  lemma {:induction false} UnaryErrorPropagates(l: Prec, toks: seq<Token>, pos: nat)
    requires Valid(toks) && pos < |toks| && Unary(toks, pos).Err?
    ensures BinaryLevel(l, toks, pos) == Unary(toks, pos)
    decreases 3 - l
  {
    if l < 3 {
      UnaryErrorPropagates(l + 1, toks, pos);
    }
  }

  /** `-x` is `0 - x`, and `+x` is x. */
  lemma SignsOfNumber(v: int)
    ensures Expr([Token(Minus, 0, 0), Token(Number, v, 1), Token(EndOfInput, 0, 2)], 0)
            == Ok((Binary(Sub, Num(0), Num(v)), 2))
    ensures Expr([Token(Plus, 0, 0), Token(Number, v, 1), Token(EndOfInput, 0, 2)], 0)
            == Ok((Num(v), 2))
  {
    var minus := [Token(Minus, 0, 0), Token(Number, v, 1), Token(EndOfInput, 0, 2)];
    var plus := [Token(Plus, 0, 0), Token(Number, v, 1), Token(EndOfInput, 0, 2)];
    assert Unary(minus, 0) == Ok((Binary(Sub, Num(0), Num(v)), 2));
    assert Unary(plus, 0) == Ok((Num(v), 2));
    UnaryAlone(0, minus, 0);
    UnaryAlone(0, plus, 0);
  }

  /** `- - v` is rejected at the second sign, because a sign applies to a
      term and not to another unary expression. */
  lemma DoubleMinusRejected(v: int)
    ensures Expr([Token(Minus, 0, 0), Token(Minus, 0, 1), Token(Number, v, 2), Token(EndOfInput, 0, 3)], 0)
            == Err(Error(ExpectedNumberOrParen, 1))
  {
    var toks := [Token(Minus, 0, 0), Token(Minus, 0, 1), Token(Number, v, 2), Token(EndOfInput, 0, 3)];
    assert Term(toks, 1) == Err(Error(ExpectedNumberOrParen, 1));
    assert Unary(toks, 0) == Err(Error(ExpectedNumberOrParen, 1));
    UnaryErrorPropagates(0, toks, 0);
  }

  /** `-(-v)` is accepted. */
  lemma NegatedParenthesisedNegation(v: int)
    ensures Expr([Token(Minus, 0, 0), Token(LParen, 0, 1), Token(Minus, 0, 2), Token(Number, v, 3),
                  Token(RParen, 0, 4), Token(EndOfInput, 0, 5)], 0)
            == Ok((Binary(Sub, Num(0), Binary(Sub, Num(0), Num(v))), 5))
  {
    var toks := [Token(Minus, 0, 0), Token(LParen, 0, 1), Token(Minus, 0, 2), Token(Number, v, 3),
                 Token(RParen, 0, 4), Token(EndOfInput, 0, 5)];
    var inner := Binary(Sub, Num(0), Num(v));
    assert Unary(toks, 2) == Ok((inner, 4));
    UnaryAlone(0, toks, 2);
    assert Term(toks, 1) == Ok((inner, 5));
    assert Unary(toks, 0) == Ok((Binary(Sub, Num(0), inner), 5));
    UnaryAlone(0, toks, 0);
  }

  /** `v w`: parsing stops after v and the second number is never looked at. */
  lemma TrailingTokensIgnored(v: int, w: int)
    ensures Expr([Token(Number, v, 0), Token(Number, w, 2), Token(EndOfInput, 0, 3)], 0)
            == Ok((Num(v), 1))
  {
    var toks := [Token(Number, v, 0), Token(Number, w, 2), Token(EndOfInput, 0, 3)];
    assert Unary(toks, 0) == Ok((Num(v), 1));
    UnaryAlone(0, toks, 0);
  }

  /** `(v` fails at the end-of-input token, where `)` was expected. */
  lemma UnclosedParenthesis(v: int)
    ensures Expr([Token(LParen, 0, 0), Token(Number, v, 1), Token(EndOfInput, 0, 2)], 0)
            == Err(Error(MissingCloseParen, 2))
  {
    var toks := [Token(LParen, 0, 0), Token(Number, v, 1), Token(EndOfInput, 0, 2)];
    assert Unary(toks, 1) == Ok((Num(v), 2));
    UnaryAlone(0, toks, 1);
    assert Term(toks, 0) == Err(Error(MissingCloseParen, 2));
    assert Unary(toks, 0) == Err(Error(MissingCloseParen, 2));
    UnaryErrorPropagates(0, toks, 0);
  }

  /** `v +` fails at the end-of-input token, where an operand was expected. */
  lemma MissingOperand(v: int)
    ensures Expr([Token(Number, v, 0), Token(Plus, 0, 2), Token(EndOfInput, 0, 4)], 0)
            == Err(Error(ExpectedNumberOrParen, 2))
  {
    var toks := [Token(Number, v, 0), Token(Plus, 0, 2), Token(EndOfInput, 0, 4)];
    assert Unary(toks, 2) == Err(Error(ExpectedNumberOrParen, 2));
    UnaryErrorPropagates(3, toks, 2);
    assert Operand(2, toks, 2) == Err(Error(ExpectedNumberOrParen, 2));
    assert Operand(3, toks, 0) == Ok((Num(v), 1));
    assert Loop(3, toks, Num(v), 1) == Ok((Num(v), 1));
    assert BinaryLevel(3, toks, 0) == Ok((Num(v), 1));
    assert BinaryLevel(2, toks, 0) == Loop(2, toks, Num(v), 1);
    assert BinaryLevel(2, toks, 0) == Err(Error(ExpectedNumberOrParen, 2));
    assert Operand(1, toks, 0) == Err(Error(ExpectedNumberOrParen, 2));
    assert BinaryLevel(1, toks, 0) == Err(Error(ExpectedNumberOrParen, 2));
    assert Operand(0, toks, 0) == Err(Error(ExpectedNumberOrParen, 2));
    assert BinaryLevel(0, toks, 0) == Err(Error(ExpectedNumberOrParen, 2));
  }
}
