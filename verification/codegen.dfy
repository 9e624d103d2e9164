/** The code generator: a post-order walk that pushes each leaf and lets
    each operator pop its two operands, combine them in rax and push the
    result. */
module CodeGen {
  import opened Results
  import opened Arith
  import opened Ast
  import opened Machine

  /** The instructions between `pop rax` and `push rax` for an operator. */
  function OpCode(op: BinOp): seq<Instr> {
    match op
    case Add => [AddRaxRdi]
    case Sub => [SubRaxRdi]
    case Mul => [ImulRdi]
    case Div => [Cqo, IdivRdi]
    case Eq => [CmpRaxRdi, SetAl(E), MovzbRaxAl]
    case Ne => [CmpRaxRdi, SetAl(NE), MovzbRaxAl]
    case Lt => [CmpRaxRdi, SetAl(L), MovzbRaxAl]
    case Le => [CmpRaxRdi, SetAl(LE), MovzbRaxAl]
    case Gt => [CmpRaxRdi, SetAl(G), MovzbRaxAl]
    case Ge => [CmpRaxRdi, SetAl(GE), MovzbRaxAl]
  }

  /** The group an operator node emits after its operands' code. */
  function Combine(op: BinOp): seq<Instr> {
    [PopRdi, PopRax] + OpCode(op) + [PushRax]
  }

  /** `gen`: left operand, right operand, then the operator's group. */
  function Gen(n: Node): seq<Instr> {
    match n
    case Num(v) => [PushImm(v)]
    case Binary(op, l, r) => Gen(l) + Gen(r) + Combine(op)
  }

  /** The whole program `main` prints around the expression's code: pop the
      result into rax and return it. */
  function Program(n: Node): seq<Instr> {
    Gen(n) + [PopRax, Ret]
  }

  // ---------------------------------------------------------------------------
  // Shape of the generated code
  // ---------------------------------------------------------------------------

  /** Net number of operand-stack slots a piece of code adds. */
  function StackEffect(code: seq<Instr>): int
    decreases |code|
  {
    if |code| == 0 then 0 else Delta(code[0]) + StackEffect(code[1..])
  }

  lemma {:induction false} StackEffectAppend(a: seq<Instr>, b: seq<Instr>)
    ensures StackEffect(a + b) == StackEffect(a) + StackEffect(b)
    decreases |a|
  {
    if |a| == 0 {
      assert a + b == b;
    } else {
      assert (a + b)[1..] == a[1..] + b;
      StackEffectAppend(a[1..], b);
    }
  }

  /** The code for any tree leaves exactly one more value on the stack than
      it found. */
  lemma {:induction false} GenStackEffect(n: Node)
    ensures StackEffect(Gen(n)) == 1
  {
    match n
    case Num(_) =>
    case Binary(op, l, r) =>
      GenStackEffect(l);
      GenStackEffect(r);
      StackEffectAppend(Gen(l), Gen(r));
      StackEffectAppend(Gen(l) + Gen(r), Combine(op));
      CombineShape(op);
  }

  /** An operator group pops two values, pushes one, and pushes no literal. */
  lemma CombineShape(op: BinOp)
    ensures StackEffect(Combine(op)) == -1
    ensures Pushed(Combine(op)) == []
  {
    var c := Combine(op);
    StackNeutral(OpCode(op) + [PushRax]);
    assert c == [PopRdi, PopRax] + (OpCode(op) + [PushRax]);
    assert c[1..] == [PopRax] + (OpCode(op) + [PushRax]);
    assert c[1..][1..] == OpCode(op) + [PushRax];
  }

  /** A piece of code that only computes and then pushes rax. */
  lemma {:induction false} StackNeutral(code: seq<Instr>)
    requires |code| > 0 && code[|code| - 1] == PushRax
    requires forall k :: 0 <= k < |code| - 1 ==> Delta(code[k]) == 0 && !code[k].PushImm?
    ensures StackEffect(code) == 1 && Pushed(code) == []
    decreases |code|
  {
    if |code| > 1 {
      StackNeutral(code[1..]);
    }
  }

  /** The immediates the code pushes, in order. */
  function Pushed(code: seq<Instr>): seq<int>
    decreases |code|
  {
    if |code| == 0 then []
    else (if code[0].PushImm? then [code[0].n] else []) + Pushed(code[1..])
  }

  lemma {:induction false} PushedAppend(a: seq<Instr>, b: seq<Instr>)
    ensures Pushed(a + b) == Pushed(a) + Pushed(b)
    decreases |a|
  {
    if |a| == 0 {
      assert a + b == b;
    } else {
      var h := if a[0].PushImm? then [a[0].n] else [];
      assert (a + b)[0] == a[0] && (a + b)[1..] == a[1..] + b;
      assert Pushed(a + b) == h + Pushed(a[1..] + b);
      PushedAppend(a[1..], b);
    }
  }

  /** The leaves of a tree from left to right. */
  function Leaves(n: Node): seq<int> {
    match n
    case Num(v) => [v]
    case Binary(_, l, r) => Leaves(l) + Leaves(r)
  }

  /** Post-order: the literals are pushed in the tree's left-to-right leaf
      order, the left operand's before the right operand's, and an operator
      group pushes no literal. */
  lemma {:induction false} GenPushesLeaves(n: Node)
    ensures Pushed(Gen(n)) == Leaves(n)
  {
    match n
    case Num(v) =>
    case Binary(op, l, r) =>
      GenPushesLeaves(l);
      GenPushesLeaves(r);
      PushedAppend(Gen(l), Gen(r));
      PushedAppend(Gen(l) + Gen(r), Combine(op));
      CombineShape(op);
  }

  // ---------------------------------------------------------------------------
  // Correctness of the generated code
  // ---------------------------------------------------------------------------

  /** An operator group pops the two operands a and b (b on top) and pushes
      what the operator computes of them, or faults on a zero divisor. */
  lemma CombineCorrect(op: BinOp, r: Regs, below: seq<int>, a: int, b: int)
    requires r.stack == below + [a, b]
    ensures Apply(op, a, b).None? ==> Exec(Combine(op), Running(r)) == Fault
    ensures Apply(op, a, b).Some? ==>
              && Exec(Combine(op), Running(r)).Running?
              && Exec(Combine(op), Running(r)).regs.stack == below + [Apply(op, a, b).value]
  {
    var r2 := PopOperands(r, below, a, b);
    assert Combine(op) == [PopRdi, PopRax] + (OpCode(op) + [PushRax]);
    ExecAppend([PopRdi, PopRax], OpCode(op) + [PushRax], Running(r));
    ExecAppend(OpCode(op), [PushRax], Running(r2));
    OpCodeCorrect(op, r2);
    var s3 := Exec(OpCode(op), Running(r2));
    if s3.Running? {
      assert Exec([PushRax], s3).regs.stack == s3.regs.stack + [s3.regs.rax];
    } else {
      ExecHalted([PushRax], s3);
    }
  }

  /** `pop rdi; pop rax` takes the right operand into rdi and the left one
      into rax. */
  lemma PopOperands(r: Regs, below: seq<int>, a: int, b: int) returns (r2: Regs)
    requires r.stack == below + [a, b]
    ensures r2.stack == below && r2.rax == a && r2.rdi == b
    ensures Exec([PopRdi, PopRax], Running(r)) == Running(r2)
  {
    var r1 := r.(stack := below + [a], rdi := b);
    r2 := r1.(stack := below, rax := a);
    assert (below + [a, b])[.. |below| + 1] == below + [a];
    assert (below + [a])[.. |below|] == below;
    assert Exec([PopRax], Running(r1)) == Running(r2);
  }

  /** The instructions between the pops and the push leave the stack alone
      and put in rax what the operator computes of rax and rdi, or fault on
      a zero divisor. */
  lemma OpCodeCorrect(op: BinOp, r: Regs)
    ensures Apply(op, r.rax, r.rdi).None? ==> Exec(OpCode(op), Running(r)) == Fault
    ensures Apply(op, r.rax, r.rdi).Some? ==>
              && Exec(OpCode(op), Running(r)).Running?
              && Exec(OpCode(op), Running(r)).regs.stack == r.stack
              && Exec(OpCode(op), Running(r)).regs.rax == Apply(op, r.rax, r.rdi).value
  {
    if op == Div {
      DivideCorrect(r);
    } else if IsComparison(op) {
      CompareSequence(OpCode(op)[1].cc, r);
    }
  }

  /** `cqo; idiv rdi` faults on a zero divisor and otherwise leaves the
      quotient, truncated toward zero, in rax. */
  lemma DivideCorrect(r: Regs)
    ensures r.rdi == 0 ==> Exec([Cqo, IdivRdi], Running(r)) == Fault
    ensures r.rdi != 0 ==>
              && Exec([Cqo, IdivRdi], Running(r)).Running?
              && Exec([Cqo, IdivRdi], Running(r)).regs.stack == r.stack
              && Exec([Cqo, IdivRdi], Running(r)).regs.rax == TruncDiv(r.rax, r.rdi)
  {
    var r3 := r.(rdx := SignFill(r.rax));
    assert Exec([Cqo, IdivRdi], Running(r)) == Exec([IdivRdi], Running(r3));
  }

  /** The code for a tree pushes exactly the tree's value onto whatever the
      stack held, and faults exactly when evaluation meets a zero divisor. */
  lemma {:induction false} GenCorrect(n: Node, r: Regs)
    ensures Eval(n).None? ==> Exec(Gen(n), Running(r)) == Fault
    ensures Eval(n).Some? ==>
              && Exec(Gen(n), Running(r)).Running?
              && Exec(Gen(n), Running(r)).regs.stack == r.stack + [Eval(n).value]
  {
    match n
    case Num(v) =>
    case Binary(op, lhs, rhs) =>
      ExecAppend(Gen(lhs) + Gen(rhs), Combine(op), Running(r));
      ExecAppend(Gen(lhs), Gen(rhs), Running(r));
      GenCorrect(lhs, r);
      if Eval(lhs).None? {
        ExecHalted(Gen(rhs), Fault);
        ExecHalted(Combine(op), Fault);
      } else {
        var r1 := Exec(Gen(lhs), Running(r)).regs;
        GenCorrect(rhs, r1);
        if Eval(rhs).None? {
          ExecHalted(Combine(op), Fault);
        } else {
          var r2 := Exec(Gen(rhs), Running(r1)).regs;
          var a, b := Eval(lhs).value, Eval(rhs).value;
          assert r2.stack == r.stack + [a, b];
          CombineCorrect(op, r2, r.stack, a, b);
        }
      }
  }

  /** The program returns the expression's value, or faults on a zero
      divisor, from any starting stack and registers. */
  lemma ProgramCorrect(n: Node, r: Regs)
    ensures Exec(Program(n), Running(r)) == if Eval(n).Some? then Halted(Eval(n).value) else Fault
  {
    ExecAppend(Gen(n), [PopRax, Ret], Running(r));
    GenCorrect(n, r);
    if Eval(n).None? {
      ExecHalted([PopRax, Ret], Fault);
    } else {
      Epilogue(Exec(Gen(n), Running(r)).regs, r.stack, Eval(n).value);
    }
  }

  /** `pop rax; ret` returns the value on top of the stack. */
  lemma Epilogue(r: Regs, below: seq<int>, v: int)
    requires r.stack == below + [v]
    ensures Exec([PopRax, Ret], Running(r)) == Halted(v)
  {
    var r2 := r.(stack := below, rax := v);
    assert (below + [v])[.. |below|] == below;
    assert Exec([PopRax, Ret], Running(r)) == Exec([Ret], Running(r2));
  }

  /** A comparison's code leaves exactly 0 or 1. */
  lemma ComparisonIsZeroOrOne(n: Node, r: Regs)
    requires n.Binary? && IsComparison(n.op)
    requires Exec(Gen(n), Running(r)).Running?
    ensures Exec(Gen(n), Running(r)).regs.stack == r.stack + [0]
         || Exec(Gen(n), Running(r)).regs.stack == r.stack + [1]
  {
    GenCorrect(n, r);
  }
}
