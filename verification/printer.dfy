/** A printer from trees back to tokens, parenthesising only where the
    grammar needs it, and the proof that the parser undoes it. The round trip
    pins down precedence, left associativity and the handling of parentheses. */
module Printer {
  import opened Results
  import opened Lexer
  import opened Ast
  import opened Parser

  /** The level an operator binds at in the parser's grammar. */
  function OpLevel(op: BinOp): Prec {
    match op
    case Eq | Ne => 0
    case Lt | Le | Gt | Ge => 1
    case Add | Sub => 2
    case Mul | Div => 3
  }

  /** The token an operator is written with. */
  function OpToken(op: BinOp): TokenType {
    match op
    case Eq => EqualEqual
    case Ne => NotEqual
    case Lt => Less
    case Le => LessEqual
    case Gt => Greater
    case Ge => GreaterEqual
    case Add => Plus
    case Sub => Minus
    case Mul => Star
    case Div => Slash
  }

  /** The printer writes each operator with the token the parser reads back
      as that operator, at that level. */
  lemma OpTokenParsesBack(op: BinOp)
    ensures BinaryOperator(OpToken(op)) == Some((OpLevel(op), op))
    ensures OpAt(OpLevel(op), OpToken(op)) == Some(op)
  {
  }

  function Tok(ty: TokenType): Token {
    Token(ty, 0, 0)
  }

  /** The tokens of n in a position that needs precedence l or tighter (4 is
      a primary). A node whose operator binds looser than l is parenthesised;
      a left operand is printed at its parent's level and a right operand one
      level tighter, so chains of one level read left to right. */
  function Print(n: Node, l: nat): seq<Token>
    requires l <= 4
  {
    match n
    case Num(v) => [Token(Number, v, 0)]
    case Binary(op, a, b) =>
      var bare := Print(a, OpLevel(op)) + [Tok(OpToken(op))] + Print(b, OpLevel(op) + 1);
      if OpLevel(op) >= l then bare else [Tok(LParen)] + bare + [Tok(RParen)]
  }

  /** Tokens of the same type and value as those of p appear in toks at
      pos (wherever in the text they were read), and some token follows. */
  predicate At(toks: seq<Token>, pos: nat, p: seq<Token>) {
    && pos + |p| < |toks|
    && forall k :: 0 <= k < |p| ==> toks[pos + k].ty == p[k].ty && toks[pos + k].val == p[k].val
  }

  lemma AtSplit(toks: seq<Token>, pos: nat, a: seq<Token>, b: seq<Token>)
    requires At(toks, pos, a + b)
    ensures At(toks, pos, a) && At(toks, pos + |a|, b)
  {
    forall k | 0 <= k < |a|
      ensures toks[pos + k].ty == a[k].ty && toks[pos + k].val == a[k].val
    {
      assert (a + b)[k] == a[k];
    }
    forall k | 0 <= k < |b|
      ensures toks[pos + |a| + k].ty == b[k].ty && toks[pos + |a| + k].val == b[k].val
    {
      assert (a + b)[|a| + k] == b[k];
    }
  }

  lemma AtHead(toks: seq<Token>, pos: nat, p: seq<Token>)
    requires At(toks, pos, p) && |p| > 0
    ensures toks[pos].ty == p[0].ty && toks[pos].val == p[0].val
  {
    assert toks[pos + 0].ty == p[0].ty;
  }

  /** A primary: a number, or a parenthesised tree. */
  lemma {:induction false} TermRoundTrip(n: Node, toks: seq<Token>, pos: nat)
    requires Valid(toks) && At(toks, pos, Print(n, 4))
    ensures Term(toks, pos) == Ok((n, pos + |Print(n, 4)|))
    decreases |Print(n, 4)|, 0
  {
    AtHead(toks, pos, Print(n, 4));
    match n
    case Num(_) =>
    case Binary(op, a, b) =>
      ParenSplit(n, toks, pos);
      LevelRoundTrip(0, n, toks, pos + 1);
  }

  /** A parenthesised tree: the bare tree stands after the opening
      parenthesis and the closing one follows it. */
  lemma ParenSplit(n: Node, toks: seq<Token>, pos: nat)
    requires n.Binary? && At(toks, pos, Print(n, 4))
    ensures toks[pos].ty == LParen
    ensures At(toks, pos + 1, Print(n, 0))
    ensures toks[pos + 1 + |Print(n, 0)|].ty == RParen
    ensures |Print(n, 4)| == |Print(n, 0)| + 2
  {
    var bare := Print(n, 0);
    assert Print(n, 4) == [Tok(LParen)] + bare + [Tok(RParen)];
    AtSplit(toks, pos, [Tok(LParen)] + bare, [Tok(RParen)]);
    AtSplit(toks, pos, [Tok(LParen)], bare);
    AtHead(toks, pos, [Tok(LParen)]);
    AtHead(toks, pos + 1 + |bare|, [Tok(RParen)]);
  }

  /** A signed primary: after `+` the unary is the primary itself, after `-`
      it is the primary subtracted from zero, and either way the cursor ends
      just past the primary. */
  lemma SignedTerm(n: Node, toks: seq<Token>, pos: nat)
    requires Valid(toks) && At(toks, pos + 1, Print(n, 4))
    ensures toks[pos].ty == Plus ==> Unary(toks, pos) == Ok((n, pos + 1 + |Print(n, 4)|))
    ensures toks[pos].ty == Minus ==>
              Unary(toks, pos) == Ok((Binary(Sub, Num(0), n), pos + 1 + |Print(n, 4)|))
  {
    TermRoundTrip(n, toks, pos + 1);
  }

  /** The operand of a level-l operator, printed one level tighter. */
  lemma {:induction false} OperandRoundTrip(l: Prec, n: Node, toks: seq<Token>, pos: nat)
    requires Valid(toks) && At(toks, pos, Print(n, l + 1))
    requires Stops(l + 1, toks[pos + |Print(n, l + 1)|].ty)
    ensures Operand(l, toks, pos) == Ok((n, pos + |Print(n, l + 1)|))
    decreases |Print(n, l + 1)|, 1 + 3 * (3 - l)
  {
    if l == 3 {
      AtHead(toks, pos, Print(n, 4));
      TermRoundTrip(n, toks, pos);
    } else {
      LevelRoundTrip(l + 1, n, toks, pos);
    }
  }

  /** Parsing a prefix at level l reaches the loop of level l with the whole
      printed tree as the left operand. */
  lemma {:induction false} LevelPrefix(l: Prec, n: Node, toks: seq<Token>, pos: nat)
    requires Valid(toks) && At(toks, pos, Print(n, l))
    requires Stops(l + 1, toks[pos + |Print(n, l)|].ty)
    ensures BinaryLevel(l, toks, pos) == Loop(l, toks, n, pos + |Print(n, l)|)
    decreases |Print(n, l)|, 2 + 3 * (3 - l)
  {
    if n.Binary? && OpLevel(n.op) == l {
      ChainPrefix(l, n, toks, pos);
    } else {
      assert Print(n, l) == Print(n, l + 1);
      OperandRoundTrip(l, n, toks, pos);
    }
  }

  /** The case of LevelPrefix where the tree's own operator has level l: its
      left operand is a shorter prefix, and the loop then reads the operator
      and the right operand. */
  lemma {:induction false} ChainPrefix(l: Prec, n: Node, toks: seq<Token>, pos: nat)
    requires n.Binary? && OpLevel(n.op) == l
    requires Valid(toks) && At(toks, pos, Print(n, l))
    requires Stops(l + 1, toks[pos + |Print(n, l)|].ty)
    ensures BinaryLevel(l, toks, pos) == Loop(l, toks, n, pos + |Print(n, l)|)
    decreases |Print(n, l)|, 1 + 3 * (3 - l)
  {
    var mid := ChainSplit(l, n, toks, pos);
    LevelPrefix(l, n.lhs, toks, pos);
    LoopStep(l, n, toks, mid);
  }

  /** Where a tree whose operator has level l is printed, its left operand
      stands first and is followed by the operator and its right operand. */
  lemma ChainSplit(l: Prec, n: Node, toks: seq<Token>, pos: nat) returns (mid: nat)
    requires n.Binary? && OpLevel(n.op) == l
    requires Valid(toks) && At(toks, pos, Print(n, l))
    requires Stops(l + 1, toks[pos + |Print(n, l)|].ty)
    ensures mid == pos + |Print(n.lhs, l)|
    ensures At(toks, pos, Print(n.lhs, l)) && Stops(l + 1, toks[mid].ty)
    ensures mid < |toks| && toks[mid].ty == OpToken(n.op)
    ensures At(toks, mid + 1, Print(n.rhs, l + 1))
    ensures mid + 1 + |Print(n.rhs, l + 1)| == pos + |Print(n, l)|
    ensures Stops(l + 1, toks[mid + 1 + |Print(n.rhs, l + 1)|].ty)
  {
    var pa := Print(n.lhs, l);
    assert Print(n, l) == pa + [Tok(OpToken(n.op))] + Print(n.rhs, l + 1);
    AtSplit(toks, pos, pa + [Tok(OpToken(n.op))], Print(n.rhs, l + 1));
    AtSplit(toks, pos, pa, [Tok(OpToken(n.op))]);
    AtHead(toks, pos + |pa|, [Tok(OpToken(n.op))]);
    OpTokenParsesBack(n.op);
    mid := pos + |pa|;
  }

  /** One turn of the level-l loop reads an operator of that level and its
      printed right operand. */
  lemma {:induction false} LoopStep(l: Prec, n: Node, toks: seq<Token>, mid: nat)
    requires Valid(toks) && n.Binary? && OpLevel(n.op) == l
    requires mid < |toks| && toks[mid].ty == OpToken(n.op)
    requires At(toks, mid + 1, Print(n.rhs, l + 1))
    requires Stops(l + 1, toks[mid + 1 + |Print(n.rhs, l + 1)|].ty)
    ensures Loop(l, toks, n.lhs, mid) == Loop(l, toks, n, mid + 1 + |Print(n.rhs, l + 1)|)
    decreases |Print(n.rhs, l + 1)|, 2 + 3 * (3 - l)
  {
    OpTokenParsesBack(n.op);
    OperandRoundTrip(l, n.rhs, toks, mid + 1);
  }

  /** A tree printed at level l and followed by a token that ends level l
      parses back to itself. */
  lemma {:induction false} LevelRoundTrip(l: Prec, n: Node, toks: seq<Token>, pos: nat)
    requires Valid(toks) && At(toks, pos, Print(n, l))
    requires Stops(l, toks[pos + |Print(n, l)|].ty)
    ensures BinaryLevel(l, toks, pos) == Ok((n, pos + |Print(n, l)|))
    decreases |Print(n, l)|, 3 + 3 * (3 - l)
  {
    LevelPrefix(l, n, toks, pos);
  }

  /** The round trip: the parser reads every printed tree back, consuming
      exactly the printed tokens. */
  lemma ParsePrint(n: Node)
    ensures Expr(Print(n, 0) + [Tok(EndOfInput)], 0) == Ok((n, |Print(n, 0)|))
  {
    var toks := Print(n, 0) + [Tok(EndOfInput)];
    assert forall k :: 0 <= k < |Print(n, 0)| ==> toks[0 + k] == Print(n, 0)[k];
    LevelRoundTrip(0, n, toks, 0);
  }

  // ---------------------------------------------------------------------------
  // Consequences of the round trip for small inputs
  // ---------------------------------------------------------------------------

  function NumTok(v: int): Token {
    Token(Number, v, 0)
  }

  /** `a - b - c` is `(a - b) - c`. */
  lemma SubtractionLeftAssociative(a: int, b: int, c: int)
    ensures Expr([NumTok(a), Tok(Minus), NumTok(b), Tok(Minus), NumTok(c), Tok(EndOfInput)], 0)
            == Ok((Binary(Sub, Binary(Sub, Num(a), Num(b)), Num(c)), 5))
  {
    var n := Binary(Sub, Binary(Sub, Num(a), Num(b)), Num(c));
    assert Print(Binary(Sub, Num(a), Num(b)), 2) == [NumTok(a), Tok(Minus), NumTok(b)];
    assert Print(n, 0) == [NumTok(a), Tok(Minus), NumTok(b), Tok(Minus), NumTok(c)];
    assert [NumTok(a), Tok(Minus), NumTok(b), Tok(Minus), NumTok(c), Tok(EndOfInput)] == Print(n, 0) + [Tok(EndOfInput)];
    ParsePrint(n);
  }

  /** `a == b < c + d * e` groups from the tightest operator outwards:
      `a == (b < (c + (d * e)))`. */
  lemma PrecedenceLadderRight(a: int, b: int, c: int, d: int, e: int)
    ensures Expr([NumTok(a), Tok(EqualEqual), NumTok(b), Tok(Less), NumTok(c),
                  Tok(Plus), NumTok(d), Tok(Star), NumTok(e), Tok(EndOfInput)], 0)
            == Ok((Binary(Eq, Num(a), Binary(Lt, Num(b), Binary(Add, Num(c), Binary(Mul, Num(d), Num(e))))), 9))
  {
    var n := Binary(Eq, Num(a), Binary(Lt, Num(b), Binary(Add, Num(c), Binary(Mul, Num(d), Num(e)))));
    assert Print(Binary(Mul, Num(d), Num(e)), 3) == [NumTok(d), Tok(Star), NumTok(e)];
    assert Print(Binary(Add, Num(c), Binary(Mul, Num(d), Num(e))), 2)
        == [NumTok(c), Tok(Plus), NumTok(d), Tok(Star), NumTok(e)];
    assert Print(Binary(Lt, Num(b), Binary(Add, Num(c), Binary(Mul, Num(d), Num(e)))), 1)
        == [NumTok(b), Tok(Less), NumTok(c), Tok(Plus), NumTok(d), Tok(Star), NumTok(e)];
    assert Print(n, 0) == [NumTok(a), Tok(EqualEqual), NumTok(b), Tok(Less), NumTok(c),
                           Tok(Plus), NumTok(d), Tok(Star), NumTok(e)];
    assert [NumTok(a), Tok(EqualEqual), NumTok(b), Tok(Less), NumTok(c),
                  Tok(Plus), NumTok(d), Tok(Star), NumTok(e), Tok(EndOfInput)] == Print(n, 0) + [Tok(EndOfInput)];
    ParsePrint(n);
  }

  /** `a * b + c < d == e` is `(((a * b) + c) < d) == e`. */
  lemma PrecedenceLadderLeft(a: int, b: int, c: int, d: int, e: int)
    ensures Expr([NumTok(a), Tok(Star), NumTok(b), Tok(Plus), NumTok(c),
                  Tok(Less), NumTok(d), Tok(EqualEqual), NumTok(e), Tok(EndOfInput)], 0)
            == Ok((Binary(Eq, Binary(Lt, Binary(Add, Binary(Mul, Num(a), Num(b)), Num(c)), Num(d)), Num(e)), 9))
  {
    var n := Binary(Eq, Binary(Lt, Binary(Add, Binary(Mul, Num(a), Num(b)), Num(c)), Num(d)), Num(e));
    assert Print(Binary(Mul, Num(a), Num(b)), 2) == [NumTok(a), Tok(Star), NumTok(b)];
    assert Print(Binary(Add, Binary(Mul, Num(a), Num(b)), Num(c)), 1)
        == [NumTok(a), Tok(Star), NumTok(b), Tok(Plus), NumTok(c)];
    assert Print(Binary(Lt, Binary(Add, Binary(Mul, Num(a), Num(b)), Num(c)), Num(d)), 0)
        == [NumTok(a), Tok(Star), NumTok(b), Tok(Plus), NumTok(c), Tok(Less), NumTok(d)];
    assert Print(n, 0) == [NumTok(a), Tok(Star), NumTok(b), Tok(Plus), NumTok(c),
                           Tok(Less), NumTok(d), Tok(EqualEqual), NumTok(e)];
    assert [NumTok(a), Tok(Star), NumTok(b), Tok(Plus), NumTok(c),
                  Tok(Less), NumTok(d), Tok(EqualEqual), NumTok(e), Tok(EndOfInput)] == Print(n, 0) + [Tok(EndOfInput)];
    ParsePrint(n);
  }

  /** Parentheses override precedence: `(a + b) * c`. */
  lemma ParenthesesGroup(a: int, b: int, c: int)
    ensures Expr([Tok(LParen), NumTok(a), Tok(Plus), NumTok(b), Tok(RParen),
                  Tok(Star), NumTok(c), Tok(EndOfInput)], 0)
            == Ok((Binary(Mul, Binary(Add, Num(a), Num(b)), Num(c)), 7))
  {
    var n := Binary(Mul, Binary(Add, Num(a), Num(b)), Num(c));
    assert Print(Binary(Add, Num(a), Num(b)), 2) == [NumTok(a), Tok(Plus), NumTok(b)];
    assert Print(Binary(Add, Num(a), Num(b)), 3)
        == [Tok(LParen), NumTok(a), Tok(Plus), NumTok(b), Tok(RParen)];
    assert Print(n, 0) == [Tok(LParen), NumTok(a), Tok(Plus), NumTok(b), Tok(RParen),
                           Tok(Star), NumTok(c)];
    assert [Tok(LParen), NumTok(a), Tok(Plus), NumTok(b), Tok(RParen),
                  Tok(Star), NumTok(c), Tok(EndOfInput)] == Print(n, 0) + [Tok(EndOfInput)];
    ParsePrint(n);
  }

  /** `a > b` and `a >= b` keep their own node kinds and operand order. */
  lemma GreaterKeepsOperands(a: int, b: int)
    ensures Expr([NumTok(a), Tok(Greater), NumTok(b), Tok(EndOfInput)], 0)
            == Ok((Binary(Gt, Num(a), Num(b)), 3))
    ensures Expr([NumTok(a), Tok(GreaterEqual), NumTok(b), Tok(EndOfInput)], 0)
            == Ok((Binary(Ge, Num(a), Num(b)), 3))
  {
    var gt, ge := Binary(Gt, Num(a), Num(b)), Binary(Ge, Num(a), Num(b));
    assert Print(gt, 0) == [NumTok(a), Tok(Greater), NumTok(b)];
    assert Print(ge, 0) == [NumTok(a), Tok(GreaterEqual), NumTok(b)];
    assert [NumTok(a), Tok(Greater), NumTok(b), Tok(EndOfInput)] == Print(gt, 0) + [Tok(EndOfInput)];
    assert [NumTok(a), Tok(GreaterEqual), NumTok(b), Tok(EndOfInput)] == Print(ge, 0) + [Tok(EndOfInput)];
    ParsePrint(gt);
    ParsePrint(ge);
  }
}
