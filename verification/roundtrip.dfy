/** Writing a tree out as text and compiling the text back: the front end
    reads every printed expression back as the same tree, so the compiled
    program returns that tree's value. */
module RoundTrip {
  import opened Results
  import opened Lexer
  import opened Ast
  import opened Parser
  import opened Printer
  import opened Machine
  import opened CodeGen
  import opened Compiler

  function DigitChar(d: nat): (c: char)
    requires d < 10
    ensures IsDigit(c) && DigitValue(c) == d
  {
    ('0' as int + d) as char
  }

  /** The decimal digits of v, most significant first. */
  function DecimalString(v: nat): string
    decreases v
  {
    if v < 10 then [DigitChar(v)] else DecimalString(v / 10) + [DigitChar(v % 10)]
  }

  /** The decimal digits of v are a nonempty digit run that `strtol` reads
      back as v. */
  lemma {:induction false} DecimalStringDigits(v: nat)
    ensures |DecimalString(v)| > 0
    ensures forall k :: 0 <= k < |DecimalString(v)| ==> IsDigit(DecimalString(v)[k])
    ensures DecimalValue(DecimalString(v)) == v
    decreases v
  {
    if 10 <= v {
      DecimalStringDigits(v / 10);
      var ds := DecimalString(v);
      assert ds[.. |ds| - 1] == DecimalString(v / 10);
    }
  }

  /** A token that can be written as text: not the end-of-input marker, a
      number that is not negative, or an operator with the value zero. */
  predicate Writable(t: Token) {
    && t.ty != EndOfInput
    && (t.ty == Number ==> t.val >= 0)
    && (t.ty != Number ==> t.val == 0)
  }

  predicate AllWritable(ts: seq<Token>) {
    forall k :: 0 <= k < |ts| ==> Writable(ts[k])
  }

  function TokenText(t: Token): string
    requires Writable(t)
  {
    if t.ty == Number then DecimalString(t.val) else Spelling(t.ty)
  }

  /** The tokens written out, each followed by one space. */
  function Text(ts: seq<Token>): string
    requires AllWritable(ts)
  {
    if |ts| == 0 then "" else TokenText(ts[0]) + " " + Text(ts[1..])
  }

  /** r is ts as the scanner reads it back: the same kinds and values,
      then the end-of-input token. */
  predicate ReadBack(r: seq<Token>, ts: seq<Token>) {
    && |r| == |ts| + 1
    && r[|ts|].ty == EndOfInput
    && forall k :: 0 <= k < |ts| ==> r[k].ty == ts[k].ty && r[k].val == ts[k].val
  }

  /** DigitRun measures a run of digits that ends before a non-digit. */
  lemma {:induction false} DigitRunExact(s: string, i: nat, n: nat)
    requires i + n <= |s|
    requires forall k :: i <= k < i + n ==> IsDigit(s[k])
    requires i + n == |s| || !IsDigit(s[i + n])
    ensures DigitRun(s, i) == n
    decreases n
  {
    if n > 0 {
      DigitRunExact(s, i + 1, n - 1);
    }
  }

  /** A written token is read back at its offset, spanning its text. */
  lemma TokenTextLexes(s: string, i: nat, t: Token)
    requires Writable(t)
    requires i + |TokenText(t)| < |s| && s[i .. i + |TokenText(t)|] == TokenText(t)
    requires s[i + |TokenText(t)|] == ' '
    ensures LexemeAt(s, Token(t.ty, t.val, i))
    ensures Width(s, Token(t.ty, t.val, i)) == |TokenText(t)|
  {
    var w := TokenText(t);
    forall k | i <= k < i + |w|
      ensures s[k] == w[k - i]
    {
      assert s[i .. i + |w|][k - i] == s[k];
    }
    if t.ty == Number {
      DecimalStringDigits(t.val);
      DigitRunExact(s, i, |w|);
    } else if t.ty == Less || t.ty == Greater {
      assert |w| == 1;
      assert s[i + 1] == ' ';
    }
  }

  /** Where the text of a nonempty token sequence begins, the first token's
      text stands, then one space, then the text of the others. */
  lemma TextHead(s: string, i: nat, ts: seq<Token>)
    requires AllWritable(ts) && |ts| > 0
    requires i <= |s| && s[i..] == Text(ts)
    ensures i + |TokenText(ts[0])| < |s|
    ensures s[i .. i + |TokenText(ts[0])|] == TokenText(ts[0])
    ensures s[i + |TokenText(ts[0])|] == ' '
    ensures s[i + |TokenText(ts[0])| + 1 ..] == Text(ts[1..])
  {
    var w := TokenText(ts[0]);
    assert s[i..] == w + " " + Text(ts[1..]);
    assert s[i .. i + |w|] == s[i..][.. |w|];
    assert s[i + |w| + 1 ..] == s[i..][|w| + 1 ..];
  }

  /** The scanner reads the text of ts, from offset i to the end, back as
      ts. */
  lemma {:induction false} ScanText(s: string, i: nat, ts: seq<Token>) returns (r: seq<Token>)
    requires AllWritable(ts)
    requires i <= |s| && s[i..] == Text(ts)
    ensures Scan(s, i) == Ok(r) && ReadBack(r, ts)
    decreases |ts|
  {
    if |ts| == 0 {
      assert |s[i..]| == 0;
      ScanEnd(s, i);
      r := [Token(EndOfInput, 0, i)];
    } else {
      var j := TextStep(s, i, ts);
      var rest := ScanText(s, j, ts[1..]);
      r := [Token(ts[0].ty, ts[0].val, i)] + rest;
      ReadBackCons(r, ts, rest);
    }
  }

  lemma ReadBackCons(r: seq<Token>, ts: seq<Token>, rest: seq<Token>)
    requires |ts| > 0 && ReadBack(rest, ts[1..])
    requires |r| > 0 && r[0].ty == ts[0].ty && r[0].val == ts[0].val && r[1..] == rest
    ensures ReadBack(r, ts)
  {
    forall k | 0 < k < |ts|
      ensures r[k].ty == ts[k].ty && r[k].val == ts[k].val
    {
      assert r[k] == rest[k - 1] && ts[k] == ts[1..][k - 1];
    }
  }

  /** Where the text of a nonempty token sequence begins, the scanner emits
      the first token and goes on where the text of the others begins. */
  lemma TextStep(s: string, i: nat, ts: seq<Token>) returns (j: nat)
    requires AllWritable(ts) && |ts| > 0
    requires i <= |s| && s[i..] == Text(ts)
    ensures j <= |s| && s[j..] == Text(ts[1..])
    ensures Scan(s, i) == Emit(Token(ts[0].ty, ts[0].val, i), Scan(s, j))
  {
    TextHead(s, i, ts);
    WrittenTokenFound(s, i, ts[0]);
    j := ScanPast(s, i, Token(ts[0].ty, ts[0].val, i));
  }

  /** A token followed by one space: the scanner emits the token and goes on
      after the space. */
  lemma ScanPast(s: string, i: nat, t: Token) returns (j: nat)
    requires i < |s| && !AtEnd(s, i) && !IsSpace(s[i]) && LexOne(s, i) == Some(t)
    requires i + Width(s, t) < |s| && s[i + Width(s, t)] == ' '
    ensures j == i + Width(s, t) + 1
    ensures Scan(s, i) == Emit(t, Scan(s, j))
  {
    ScanToken(s, i, t);
    ScanSpace(s, i + Width(s, t));
    j := i + Width(s, t) + 1;
  }

  /** The scanner finds a written token at its offset. */
  lemma WrittenTokenFound(s: string, i: nat, t: Token)
    requires Writable(t)
    requires i + |TokenText(t)| < |s| && s[i .. i + |TokenText(t)|] == TokenText(t)
    requires s[i + |TokenText(t)|] == ' '
    ensures !AtEnd(s, i) && !IsSpace(s[i])
    ensures LexOne(s, i) == Some(Token(t.ty, t.val, i))
    ensures Width(s, Token(t.ty, t.val, i)) == |TokenText(t)|
  {
    TokenTextLexes(s, i, t);
    LexOneFinds(s, Token(t.ty, t.val, i));
  }

  /** Every sequence of writable tokens survives being written and read back. */
  lemma TokenizeText(ts: seq<Token>)
    requires AllWritable(ts)
    ensures Tokenize(Text(ts)).Ok? && ReadBack(Tokenize(Text(ts)).value, ts)
  {
    var s := Text(ts);
    assert s[0..] == s;
    var r := ScanText(s, 0, ts);
  }

  /** No literal of the tree is negative (the scanner reads digits only). */
  predicate NonNegativeLiterals(n: Node) {
    match n
    case Num(v) => v >= 0
    case Binary(_, l, r) => NonNegativeLiterals(l) && NonNegativeLiterals(r)
  }

  lemma {:induction false} PrintWritable(n: Node, l: nat)
    requires l <= 4 && NonNegativeLiterals(n)
    ensures AllWritable(Print(n, l))
  {
    match n
    case Num(_) =>
    case Binary(op, a, b) =>
      PrintWritable(a, OpLevel(op));
      PrintWritable(b, OpLevel(op) + 1);
  }

  /** The expression text of a tree. */
  function Render(n: Node): string
    requires NonNegativeLiterals(n)
  {
    PrintWritable(n, 0);
    Text(Print(n, 0))
  }

  /** The scanner reads the text of a tree back as the tree's printed tokens,
      then the end of input. */
  lemma RenderTokens(n: Node) returns (toks: seq<Token>)
    requires NonNegativeLiterals(n)
    ensures Tokenize(Render(n)) == Ok(toks)
    ensures |toks| == |Print(n, 0)| + 1 && toks[|Print(n, 0)|].ty == EndOfInput
    ensures At(toks, 0, Print(n, 0))
  {
    var p := Print(n, 0);
    PrintWritable(n, 0);
    TokenizeText(p);
    toks := Tokenize(Text(p)).value;
    ReadBackAt(toks, p);
  }

  lemma ReadBackAt(r: seq<Token>, ts: seq<Token>)
    requires ReadBack(r, ts)
    ensures At(r, 0, ts)
  {
    forall k | 0 <= k < |ts|
      ensures r[0 + k].ty == ts[k].ty && r[0 + k].val == ts[k].val
    {
    }
  }

  /** The front end reads every rendered tree back as the same tree. */
  lemma ParseRender(n: Node)
    requires NonNegativeLiterals(n)
    ensures Parse(Render(n)) == Ok(n)
  {
    var toks := RenderTokens(n);
    PrintedExpr(n, toks);
    ParseTokens(Render(n), toks, n, |Print(n, 0)|);
  }

  /** Tokens that spell a printed tree and then end are parsed as that tree. */
  lemma PrintedExpr(n: Node, toks: seq<Token>)
    requires |toks| == |Print(n, 0)| + 1 && toks[|Print(n, 0)|].ty == EndOfInput
    requires At(toks, 0, Print(n, 0))
    ensures BinaryLevel(0, toks, 0) == Ok((n, |Print(n, 0)|))
  {
    LevelRoundTrip(0, n, toks, 0);
  }

  lemma ParseTokens(s: string, toks: seq<Token>, n: Node, e: nat)
    requires Tokenize(s) == Ok(toks) && Valid(toks)
    requires BinaryLevel(0, toks, 0) == Ok((n, e))
    ensures Parse(s) == Ok(n)
  {
    assert Expr(toks, 0) == Ok((n, e));
  }

  /** The compiled program of a rendered tree returns the tree's value, and
      faults exactly when the tree divides by zero. */
  lemma CompileRender(n: Node, r: Regs)
    requires NonNegativeLiterals(n)
    ensures Compile(Render(n)).Ok?
    ensures Exec(Compile(Render(n)).value, Running(r))
            == if Eval(n).Some? then Halted(Eval(n).value) else Fault
  {
    ParseRender(n);
    CompileCorrect(Render(n), r);
  }
}
