/** The x86-64 subset the generated code uses, as a stack machine over
    unbounded integers: the operand stack, the registers rax, rdi and rdx,
    and the flags `cmp` sets. */
module Machine {
  import opened Arith

  /** Condition codes of `setX`. */
  datatype Cond = E | NE | L | LE | G | GE

  datatype Instr =
    | PushImm(n: int)  // push n
    | PushRax          // push rax
    | PopRdi           // pop rdi
    | PopRax           // pop rax
    | AddRaxRdi        // add rax, rdi
    | SubRaxRdi        // sub rax, rdi
    | ImulRdi          // imul rdi
    | Cqo              // cqo
    | IdivRdi          // idiv rdi
    | CmpRaxRdi        // cmp rax, rdi
    | SetAl(cc: Cond)  // setX al
    | MovzbRaxAl       // movzb rax, al
    | Ret              // ret

  /** What `cmp` records: the zero flag, and signed less-than (the sign flag
      differing from the overflow flag). */
  datatype Flags = Flags(zf: bool, lt: bool)

  datatype Regs = Regs(stack: seq<int>, rax: int, rdi: int, rdx: int, flags: Flags)

  /** A machine runs, has returned rax to the caller, or has faulted (a pop
      from an empty operand stack, or a division fault). */
  datatype State = Running(regs: Regs) | Halted(exit: int) | Fault

  /** The value rdx takes when it holds the sign extension of x. */
  function SignFill(x: int): int {
    if x < 0 then -1 else 0
  }

  /** Whether a condition holds of the flags. */
  function Holds(cc: Cond, f: Flags): bool {
    match cc
    case E => f.zf
    case NE => !f.zf
    case L => f.lt
    case LE => f.lt || f.zf
    case G => !f.lt && !f.zf
    case GE => !f.lt
  }

  /** The low byte of a register (al of rax). */
  function LowByte(x: int): int {
    x % 256
  }

  /** One instruction. `setX al` replaces only the low byte of rax and
      `movzb rax, al` clears everything above it. `idiv` divides the
      dividend `cqo` has sign-extended into rdx:rax; a zero divisor, or an
      rdx that is not rax's sign extension (a dividend this machine does not
      represent), faults. */
  function Step(i: Instr, r: Regs): State {
    match i
    case PushImm(n) => Running(r.(stack := r.stack + [n]))
    case PushRax => Running(r.(stack := r.stack + [r.rax]))
    case PopRdi =>
      if |r.stack| == 0 then Fault
      else Running(r.(stack := r.stack[.. |r.stack| - 1], rdi := r.stack[|r.stack| - 1]))
    case PopRax =>
      if |r.stack| == 0 then Fault
      else Running(r.(stack := r.stack[.. |r.stack| - 1], rax := r.stack[|r.stack| - 1]))
    case AddRaxRdi => Running(r.(rax := r.rax + r.rdi))
    case SubRaxRdi => Running(r.(rax := r.rax - r.rdi))
    case ImulRdi => Running(r.(rax := r.rax * r.rdi, rdx := SignFill(r.rax * r.rdi)))
    case Cqo => Running(r.(rdx := SignFill(r.rax)))
    case IdivRdi =>
      if r.rdi == 0 || r.rdx != SignFill(r.rax) then Fault
      else Running(r.(rax := TruncDiv(r.rax, r.rdi), rdx := TruncRem(r.rax, r.rdi)))
    case CmpRaxRdi => Running(r.(flags := Flags(r.rax == r.rdi, r.rax < r.rdi)))
    case SetAl(cc) => Running(r.(rax := r.rax - LowByte(r.rax) + Bool(Holds(cc, r.flags))))
    case MovzbRaxAl => Running(r.(rax := LowByte(r.rax)))
    case Ret => Halted(r.rax)
  }

  /** Runs the code from a state; a halted or faulted machine stays so. */
  function Exec(code: seq<Instr>, s: State): State
    decreases |code|
  {
    if |code| == 0 then s
    else match s
      case Running(r) => Exec(code[1..], Step(code[0], r))
      case _ => s
  }

  /** How many operand-stack slots an instruction adds (pops count -1). */
  function Delta(i: Instr): int {
    match i
    case PushImm(_) => 1
    case PushRax => 1
    case PopRdi => -1
    case PopRax => -1
    case _ => 0
  }

  /** A step that does not fault or return changes the operand stack's depth
      by exactly Delta, and only push and pop touch the stack. */
  lemma StepDepth(i: Instr, r: Regs)
    requires Step(i, r).Running?
    ensures |Step(i, r).regs.stack| == |r.stack| + Delta(i)
    ensures Delta(i) == 0 ==> Step(i, r).regs.stack == r.stack
    ensures Delta(i) == -1 ==> Step(i, r).regs.stack == r.stack[.. |r.stack| - 1]
  {
  }

  /** Running two pieces of code one after the other. */
  lemma {:induction false} ExecAppend(a: seq<Instr>, b: seq<Instr>, s: State)
    ensures Exec(a + b, s) == Exec(b, Exec(a, s))
    decreases |a|
  {
    if |a| == 0 {
      assert a + b == b;
    } else if s.Running? {
      assert (a + b)[1..] == a[1..] + b;
      ExecAppend(a[1..], b, Step(a[0], s.regs));
    } else {
      ExecHalted(b, s);
      ExecHalted(a + b, s);
    }
  }

  /** A halted or faulted machine ignores further code. */
  lemma {:induction false} ExecHalted(code: seq<Instr>, s: State)
    requires !s.Running?
    ensures Exec(code, s) == s
  {
  }

  /** The result of `setX al; movzb rax, al` is 1 when the condition holds
      and 0 otherwise, whatever rax held before. */
  lemma SetThenZeroExtend(x: int, b: int)
    requires b == 0 || b == 1
    ensures LowByte(x - LowByte(x) + b) == b
  {
    var k := x / 256;
    assert x == 256 * k + x % 256;
    assert x - LowByte(x) + b == 256 * k + b;
  }

  /** The integer comparison a condition code stands for after `cmp a, b`. */
  function Compare(cc: Cond, a: int, b: int): bool {
    match cc
    case E => a == b
    case NE => a != b
    case L => a < b
    case LE => a <= b
    case G => a > b
    case GE => a >= b
  }

  /** `cmp rax, rdi; setX al; movzb rax, al` leaves in rax 1 if the
      comparison holds of rax and rdi and 0 otherwise, and keeps the operand
      stack. */
  lemma CompareSequence(cc: Cond, r: Regs)
    ensures Exec([CmpRaxRdi, SetAl(cc), MovzbRaxAl], Running(r))
            == Running(r.(rax := Bool(Compare(cc, r.rax, r.rdi)),
                          flags := Flags(r.rax == r.rdi, r.rax < r.rdi)))
  {
    var r1 := r.(flags := Flags(r.rax == r.rdi, r.rax < r.rdi));
    assert Holds(cc, r1.flags) == Compare(cc, r.rax, r.rdi);
    var b := Bool(Compare(cc, r.rax, r.rdi));
    var r2 := r1.(rax := r.rax - LowByte(r.rax) + b);
    SetThenZeroExtend(r.rax, b);
    var r3 := r2.(rax := b);
    assert Exec([MovzbRaxAl], Running(r2)) == Running(r3);
    assert Exec([SetAl(cc), MovzbRaxAl], Running(r1)) == Exec([MovzbRaxAl], Running(r2));
    assert Exec([CmpRaxRdi, SetAl(cc), MovzbRaxAl], Running(r)) == Exec([SetAl(cc), MovzbRaxAl], Running(r1));
  }
}
