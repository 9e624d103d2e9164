# 9cc expression compiler, modelled in Dafny

`9cc.c` compiles one arithmetic expression, given as its only command-line
argument, into x86-64 assembly for a stack machine. The expression may use
integers, `+ - * /`, parentheses, unary `+`/`-` and the comparisons
`== != < <= > >=`. The compiler runs in three stages:

- `tokenize` scans the text into an array of tokens.
- A recursive-descent parser builds a binary tree from the tokens. It has
  four precedence levels (`equality`, `relational`, `add`, `mul`), then
  `unary` and `term`.
- `gen` walks the tree in post-order and prints push/pop/compute
  instructions. `main` wraps them with `pop rax; ret`.

The Dafny project models each stage as pure functions:

| file | module | what it models |
|---|---|---|
| `results.dfy` | `Results` | `Option`, `Result` and the error kinds. The parser's `error_at` exits become `Err` values that carry a position. |
| `lexer.dfy` | `Lexer` | The scanner (`Scan`, `Tokenize`). It also defines, declaratively, what a tokenization of a text is (`LexesFrom`), and proves the scanner returns exactly that. |
| `ast.dfy` | `Ast` | The nodes `new_node`/`new_node_num` build, and their meaning (`Eval`). Division truncates toward zero; `None` stands for a zero divisor. |
| `parser.dfy` | `Parser` | `consume`, `term`, `unary`, the four binary levels (one generic `BinaryLevel`/`Loop` pair driven by an operator table), and `expr`. |
| `printer.dfy` | `Printer` | A printer from trees to tokens that adds only the parentheses the grammar needs. It carries the proof that the parser reads every printed tree back, and so pins down precedence, left associativity and parentheses. |
| `machine.dfy` | `Machine` | The instructions `gen` emits, as a stack machine over unbounded integers with rax, rdi, rdx and the comparison flags. |
| `codegen.dfy` | `CodeGen` | `gen` and the epilogue of `main`. It proves stack effect +1 and that the code of a tree pushes the tree's value. |
| `compiler.dfy` | `Compiler` | `main`'s pipeline, `Parse` then `Compile`, with the end-to-end correctness theorem. |
| `roundtrip.dfy` | `RoundTrip` | Writing a tree out as text. It proves that tokenize plus parse read every such text back as the same tree. |

Points where `9cc.c` departs from a cleaner design; the model follows the
code:

- `>` and `>=` are their own node kinds. `gen` emits `setg`/`setge` for them;
  they are not rewritten into `<`/`<=` with swapped operands.
  `Ast.GreaterIsSwappedLess` proves the two readings give equal values.
- `unary` calls `term`, so `- - 1` is a syntax error while `-(-1)` is
  accepted.
- `expr` has no `return` statement. The model returns what `equality` parsed,
  which is the evident intent.
- `main` never checks that parsing stopped at the end-of-input token, so
  trailing tokens such as the second number in `1 2` are ignored.

## Model

| member | source | states |
|---|---|---|
| Arith.TruncDiv | 9cc.c:185-189 | The quotient of `cqo; idiv` truncates toward zero: the remainder has the dividend's sign and is smaller in magnitude than the divisor. |
| Ast.Apply | 9cc.c:174-220 | An operator yields no value exactly for a division by zero; a comparison yields exactly 0 or 1. |
| Ast.EvalDefined | 9cc.c:158-225 | Evaluating a tree fails exactly when some division in it has a zero divisor. |
| Ast.GreaterIsSwappedLess | 9cc.c:211-220 | `a > b` has the same value (or fault) as `b < a`, and `a >= b` the same as `b <= a`. |
| Lexer.DigitRun | 9cc.c:294-297 | The digit run `strtol` consumes is maximal: every character in it is a digit, and the run ends at the end of the text or at a non-digit. |
| Lexer.LexOne | 9cc.c:246-300 | A token found at an offset starts there, is not end-of-input, and spans at least one character inside the text. |
| Lexer.LexOneSound | 9cc.c:246-302 | A token found at an offset is spelled there. When none is found, the character is NUL, white space, or no token can start there (the `error_at` case). |
| Lexer.ScanSound | 9cc.c:235-307 | Soundness of the scan loop: a success is a tokenization of the text from that offset; a failure sits at an offset where no token can start. |
| Lexer.ScanStops | 9cc.c:235-303 | When the scan loop fails, the text from its start reads as the tokens it emitted, then white space, then the reported offset, where no token can start: the failure is the first place the loop gets stuck. |
| Lexer.StuckUnique | 9cc.c:239-302 | A text gets stuck in only one way: the tokens read before the stop and the offset of the stop are determined by the text. |
| Lexer.StuckExcludesLexes | 9cc.c:239-306 | A text that gets stuck has no tokenization. |
| Lexer.TokenizeFailsAtStuckPoint | 9cc.c:235-307 | Whenever reading tokens from the start of a text gets stuck, tokenizing fails with an untokenizable error at exactly that offset . |
| Lexer.StuckAfterOperator | 9cc.c:262-302 | `<= &` fails at the `&`, offset 3, and not at the `=`, although no token starts with a lone `=`. |
| Lexer.EndSound | 9cc.c:305-306 | At the terminating NUL or the end of the text, the end-of-input token alone is the tokenization. |
| Lexer.SpaceSound | 9cc.c:241-244 | Skipping one white-space character keeps the scanner's contract. |
| Lexer.StuckSound | 9cc.c:302 | That failure satisfies the scanner's contract. |
| Lexer.EmitSound | 9cc.c:246-300 | Emitting the token found at an offset, in front of a sound result for the rest, is sound. |
| Lexer.Tokenize | 9cc.c:235-307 | On success the tokens end with exactly one end-of-input token, every other token is spelled at its offset inside the text, and offsets strictly increase. On failure the error is an untokenizable character at an offset where no token can start, reached by reading tokens from the start of the text. |
| Lexer.TokenizeLexes | 9cc.c:235-307 | What `Tokenize` returns is a tokenization of the whole text from offset 0. |
| Lexer.LexesShape | 9cc.c:235-307 | Every tokenization ends with the end-of-input token alone. Its other tokens are spelled in the text, and all offsets lie inside the text and strictly increase. |
| Lexer.LexemeWidth | 9cc.c:246-300 | A spelled token spans at least one character and stays inside the text. |
| Lexer.LexOneFinds | 9cc.c:246-300 | Where a token is spelled, the scanner picks exactly that token. This is the converse of `LexOneSound`. |
| Lexer.TwoCharHead | 9cc.c:246-276 | A two-character operator matches exactly when its first character is one of `= ! < >` and the next is `=`; its spelling is those two characters. |
| Lexer.ScanComplete | 9cc.c:235-307 | Completeness: whenever the text has a tokenization from an offset, the scanner returns exactly it. |
| Lexer.MaximalMunch | 9cc.c:262-291 | In the tokenizer's output, a token starting with `<` (or `>`) is `<=` (`>=`) exactly when `=` follows, and `<` (`>`) otherwise. |
| Lexer.MunchAt | 9cc.c:262-291 | The same maximal-munch rule for any single token spelled at its offset. |
| Lexer.Coverage | 9cc.c:239-303 | Every non-space character before the terminating NUL lies inside some token of a tokenization, which is spelled in the text. |
| Lexer.BangFollowedByEquals | 9cc.c:254-302 | In any tokenization, a `!` is immediately followed by `=`. |
| Lexer.EqualsInOperator | 9cc.c:246-302 | In any tokenization, an `=` either starts `==` or ends one of `==`, `!=`, `<=`, `>=`. |
| Lexer.BangWithoutEqualsRejected | 9cc.c:254-302 | A `!` that is not followed by `=` makes tokenizing fail. |
| Lexer.LoneEqualsRejected | 9cc.c:246-302 | An `=` that neither starts nor ends a two-character operator makes tokenizing fail. |
| Parser.Consume | 9cc.c:61-66 | The cursor advances by one exactly when the current token has the asked type. Consuming any type but end-of-input never moves past the last token. |
| Parser.Term | 9cc.c:70-84 | A term is a number, read as that number, or a parenthesised expression closed by `)`. Any other token fails with "expected number or `(`" at that token. When the expression after `(` parses but stops on a token other than `)`, the term fails with a missing-`)` error at that token. |
| Parser.Unary | 9cc.c:86-92 | A successful unary after a sign has a number or `(` next. A `-` builds a subtraction from 0. Errors sit at or after the start, on a token that justifies them. |
| Parser.Operand | 9cc.c:94-152 | The operand of a level stops only at a token that is not an operator of a tighter level. |
| Parser.Loop | 9cc.c:94-152 | The operator loop of a level either stops at once, on a token that is no operator of that level, or consumes tokens and stops on a token that no tighter-or-equal level accepts. |
| Parser.BinaryLevel | 9cc.c:94-152 | `mul`, `add`, `relational` and `equality` consume at least one token. They stop only at a token that is no operator of their level or a tighter one, and errors sit on a justifying token. |
| Parser.Expr | 9cc.c:154-156 | `expr` stops at the first token that is no binary operator, which is not necessarily end-of-input. |
| Parser.UnaryAlone | 9cc.c:86-152 | A unary expression followed by a non-operator is the whole result at every level. |
| Parser.UnaryErrorPropagates | 9cc.c:86-152 | An error in the first unary expression is the error of every level. |
| Parser.SignsOfNumber | 9cc.c:86-92 | `-v` parses as `0 - v`, and `+v` as `v`. |
| Parser.DoubleMinusRejected | 9cc.c:86-92 | `- - v` is rejected at the second `-`. |
| Parser.NegatedParenthesisedNegation | 9cc.c:70-92 | `-(-v)` is accepted as `0 - (0 - v)`. |
| Parser.TrailingTokensIgnored | 9cc.c:315-317 | For `v w` the parse returns `v` and stops before `w`. |
| Parser.UnclosedParenthesis | 9cc.c:72-75 | `(v` fails with a missing-`)` error at the end-of-input token. |
| Parser.MissingOperand | 9cc.c:79-82 | `v +` fails with "expected number or `(`" at the end-of-input token. |
| Printer.OpTokenParsesBack | 9cc.c:94-152 | Each operator's token is read back by the parser as that operator, at that operator's level. |
| Printer.TermRoundTrip | 9cc.c:70-84 | `term` reads a number or a parenthesised printed tree back as that tree, consuming exactly its tokens. |
| Printer.SignedTerm | 9cc.c:86-92 | `+` followed by any printed primary parses as that primary, and `-` followed by it as the primary subtracted from 0; either way the cursor ends just past the primary. |
| Printer.OperandRoundTrip | 9cc.c:86-152 | The operand rule of each level reads back a tree printed one level tighter. |
| Printer.LevelPrefix | 9cc.c:94-152 | A level reads a printed tree and arrives at its operator loop holding exactly that tree. |
| Printer.ChainPrefix | 9cc.c:94-152 | For a tree whose operator is of the level's own precedence, the left operand is read first and then folded: left associativity. |
| Printer.LoopStep | 9cc.c:94-152 | One turn of a level's loop reads the operator and the right operand and builds the node with the earlier result as its left child. |
| Printer.LevelRoundTrip | 9cc.c:94-152 | Each level parses a printed tree followed by a stopping token back as that tree, consuming exactly its tokens. |
| Printer.ParsePrint | 9cc.c:70-156 | Every tree, printed and followed by end-of-input, parses back to itself with every token consumed. |
| Printer.SubtractionLeftAssociative | 9cc.c:108-120 | `a - b - c` parses as `(a - b) - c`. |
| Printer.PrecedenceLadderRight | 9cc.c:94-152 | `a == b < c + d * e` parses as `a == (b < (c + (d * e)))`. |
| Printer.PrecedenceLadderLeft | 9cc.c:94-152 | `a * b + c < d == e` parses as `(((a * b) + c) < d) == e`. |
| Printer.ParenthesesGroup | 9cc.c:70-84 | `(a + b) * c` parses as the product of the sum and `c`. |
| Printer.GreaterKeepsOperands | 9cc.c:122-138 | `a > b` and `a >= b` keep their own node kinds and their operand order. |
| Machine.StepDepth | 9cc.c:158-225 | A step changes the stack depth by exactly its push/pop count. Only push and pop touch the stack, and a pop removes the top. |
| Machine.SetThenZeroExtend | 9cc.c:192-194 | `setX al` followed by `movzb rax, al` leaves exactly the 0/1 condition value, whatever rax held. |
| Machine.CompareSequence | 9cc.c:191-220 | `cmp rax, rdi; setX al; movzb rax, al` leaves in rax 1 if the comparison holds and 0 otherwise, and keeps the stack. |
| CodeGen.GenStackEffect | 9cc.c:158-225 | The code for any tree leaves exactly one more value on the stack. |
| CodeGen.CombineShape | 9cc.c:169-224 | An operator's instruction group pops two values, pushes one, and pushes no literal. |
| CodeGen.GenPushesLeaves | 9cc.c:158-167 | Post-order: the literals are pushed in the tree's left-to-right leaf order. |
| CodeGen.PopOperands | 9cc.c:169-171 | `pop rdi; pop rax` puts the right operand in rdi and the left one in rax, and leaves what lay below. |
| CodeGen.OpCodeCorrect | 9cc.c:173-221 | Each operator's instructions leave in rax what the operator computes of rax and rdi, or fault on a zero divisor. |
| CodeGen.DivideCorrect | 9cc.c:185-190 | `cqo; idiv rdi` faults on a zero divisor and otherwise leaves the truncated quotient in rax. |
| CodeGen.CombineCorrect | 9cc.c:169-224 | An operator group replaces the two operands on top of the stack by the operator's result, or faults on a zero divisor. |
| CodeGen.GenCorrect | 9cc.c:158-225 | The code for a tree pushes exactly the tree's value onto any stack, and faults exactly when evaluation meets a zero divisor. |
| CodeGen.Epilogue | 9cc.c:325-326 | `pop rax; ret` returns the value on top of the stack. |
| CodeGen.ProgramCorrect | 9cc.c:319-326 | The whole program returns the expression's value, or faults on a zero divisor, from any starting state. |
| CodeGen.ComparisonIsZeroOrOne | 9cc.c:191-220 | A comparison's code pushes exactly 0 or 1. |
| Compiler.Parse | 9cc.c:315-317 | A scanner error passes through unchanged. A parse error is reported at the text offset of one of the tokens, a token that justifies its kind; every error lies inside the text or at its end. |
| Compiler.CompileCorrect | 9cc.c:309-328 | Compilation fails exactly when parsing does, with the same diagnostic. Otherwise the program returns the value of the parsed tree, or faults exactly when that tree divides by zero. |
| RoundTrip.DecimalStringDigits | 9cc.c:294-297 | A non-negative number written in decimal is a nonempty digit run that `strtol` reads back as the same number. |
| RoundTrip.TokenTextLexes | 9cc.c:246-300 | A token's text followed by a space is spelled at its offset and spans exactly its text. |
| RoundTrip.WrittenTokenFound | 9cc.c:246-300 | The scanner finds a written token at its offset, with its type and value and the width of its text. |
| RoundTrip.TextStep | 9cc.c:235-307 | Where the text of a token sequence begins, the scanner emits the first token and resumes where the rest's text begins. |
| RoundTrip.ScanText | 9cc.c:235-307 | The scanner reads the written text of any token sequence back as the same types and values, then end-of-input. |
| RoundTrip.TokenizeText | 9cc.c:235-307 | Tokenizing the written text of any writable token sequence succeeds and returns that sequence's types and values. |
| RoundTrip.RenderTokens | 9cc.c:235-307 | Tokenizing a tree's text yields exactly the tree's printed tokens, then end-of-input. |
| RoundTrip.PrintedExpr | 9cc.c:154-156 | `expr` reads a printed tree followed by end-of-input back as the tree, consuming every printed token. |
| RoundTrip.ParseRender | 9cc.c:315-317 | Tokenizing and parsing the text of any tree with non-negative literals gives back that tree. |
| RoundTrip.CompileRender | 9cc.c:309-328 | The program compiled from a tree's text returns the tree's value, or faults exactly when the tree divides by zero. |

## Left out

- Lexer.ScanSound: its failure case says only that no token can start at
  the reported offset. That the offset is where the scan first gets stuck
  is stated by `Lexer.ScanStops` instead, which returns the tokens read
  before it.
- Output text: `gen` and `main` print assembly with `printf`. The model
  returns the instruction sequence as data and leaves out the directives
  `.intel_syntax noprefix`, `.global main` and `main:`.
- The argument-count check in `main` and its usage message: this is I/O
  around the core.
- `error_at` message formatting and the process exit: an error is returned
  as a `Result` error holding its kind and a byte offset. The messages and
  the caret line are not modelled.
- `malloc` and the addresses of nodes: a tree is an immutable datatype.
- The fixed `tokens[100]` array: the model's token sequence is unbounded.
  Overflowing the buffer on long inputs is undefined behaviour in the C code
  and is not modelled.
- 64-bit wrap-around of `add`, `sub` and `imul`, and `strtol` saturation on
  very long literals: the machine computes on unbounded integers. `Token.val`
  is a C `int`, so literals above 2^31-1 would also be truncated there.
- The 128-bit dividend of `idiv` and its overflow fault: `cqo` always makes
  rdx the sign fill of rax, so the model's `idiv` divides rax alone. The
  one 64-bit overflow case, the most negative number divided by -1, does not
  arise over unbounded integers.
- The flags `add`, `sub` and `imul` set are not modelled. Only `cmp` sets
  the flags that `setX` reads.
- The exit status of the generated program: the model returns the full
  value of rax. The operating system keeps only its low 8 bits.
- Division by zero in the generated program: this is a hardware fault, not a
  compile error. It is modelled as the `Fault` state and as `None` from
  `Ast.Eval`.
- The end-of-input token's offset: in the C code it points at the
  terminating NUL and is used only for diagnostics. The model records the
  same offset.
- RoundTrip.ParseRender: covers only trees with non-negative literals. The
  scanner reads digits only, so a negative literal has no text of its own;
  it can only be written as `0 - v`, which parses as a different tree.
