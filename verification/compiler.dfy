/** The driver: tokenize the argument, parse one expression, and emit the
    program around its code. */
module Compiler {
  import opened Results
  import opened Lexer
  import opened Ast
  import opened Parser
  import opened Machine
  import opened CodeGen

  /** Tokenize, then parse an expression from the first token. A parse
      error is reported at the offset of the token it sits on; tokens after
      the expression are ignored. */
  function Parse(s: string): (r: Result<Node>)
    ensures r.Err? ==> r.error.at <= |s|
    ensures Tokenize(s).Err? ==> r == Err(Tokenize(s).error)
    ensures Tokenize(s).Ok? && r.Err? ==>
              exists k :: 0 <= k < |Tokenize(s).value|
                          && r.error.at == Tokenize(s).value[k].offset
                          && Justifies(Tokenize(s).value[k], r.error.kind)
  {
    match Tokenize(s)
    case Err(e) => Err(e)
    case Ok(toks) =>
      match Expr(toks, 0)
      case Err(e) => Err(Error(e.kind, toks[e.at].offset))
      case Ok((n, _)) => Ok(n)
  }

  function Compile(s: string): Result<seq<Instr>> {
    match Parse(s)
    case Err(e) => Err(e)
    case Ok(n) => Ok(Program(n))
  }

  /** The end-to-end guarantee: a compiled program returns the value of the
      expression the input parses to, or faults when that expression divides
      by zero; compilation fails exactly when parsing does, with the same
      diagnostic. */
  lemma CompileCorrect(s: string, r: Regs)
    ensures Compile(s).Err? <==> Parse(s).Err?
    ensures Compile(s).Err? ==> Compile(s).error == Parse(s).error
    ensures Compile(s).Ok? ==>
              Exec(Compile(s).value, Running(r))
              == if Eval(Parse(s).value).Some? then Halted(Eval(Parse(s).value).value) else Fault
  {
    if Parse(s).Ok? {
      ProgramCorrect(Parse(s).value, r);
    }
  }
}
