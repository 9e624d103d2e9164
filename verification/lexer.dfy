/** The scanner: turns the input line into tokens, each recording the offset
    where it starts, and ends the sequence with one end-of-input token. */
module Lexer {
  import opened Results

  datatype TokenType =
    | Number | EndOfInput
    | LessEqual | GreaterEqual | EqualEqual | NotEqual
    | Plus | Minus | Star | Slash | LParen | RParen | Less | Greater

  /** `val` is meaningful for `Number` only; every other token keeps the zero
      of the zero-initialised token array. */
  datatype Token = Token(ty: TokenType, val: int, offset: nat)

  /** `isspace` in the C locale: space, and tab through carriage return. */
  predicate IsSpace(c: char) {
    c == ' ' || '\t' <= c <= '\r'
  }

  predicate IsDigit(c: char) {
    '0' <= c <= '9'
  }

  /** The scanner runs while the current character is not the terminating NUL. */
  predicate AtEnd(s: string, i: nat)
    requires i <= |s|
  {
    i == |s| || s[i] == '\0'
  }

  predicate StartsWith(s: string, i: nat, w: string) {
    i + |w| <= |s| && s[i .. i + |w|] == w
  }

  /** Every character of s[i..j] is white space. */
  predicate AllSpace(s: string, i: nat, j: nat)
    requires i <= j <= |s|
  {
    forall k :: i <= k < j ==> IsSpace(s[k])
  }

  /** Length of the maximal run of digits starting at i. */
  function DigitRun(s: string, i: nat): (n: nat)
    requires i <= |s|
    ensures i + n <= |s|
    ensures forall k :: i <= k < i + n ==> IsDigit(s[k])
    ensures i + n == |s| || !IsDigit(s[i + n])
    decreases |s| - i
  {
    if i < |s| && IsDigit(s[i]) then 1 + DigitRun(s, i + 1) else 0
  }

  /** The value of the digit run at i. */
  function NumberAt(s: string, i: nat): nat
    requires i <= |s|
  {
    DecimalValue(s[i .. i + DigitRun(s, i)])
  }

  function DigitValue(c: char): nat
    requires IsDigit(c)
  {
    c as int - '0' as int
  }

  /** The value `strtol(p, &p, 10)` reads from a run of decimal digits. */
  function DecimalValue(ds: string): nat
    requires forall k :: 0 <= k < |ds| ==> IsDigit(ds[k])
  {
    if |ds| == 0 then 0
    else 10 * DecimalValue(ds[.. |ds| - 1]) + DigitValue(ds[|ds| - 1])
  }

  /** The text of each operator token. */
  function Spelling(ty: TokenType): string {
    match ty
    case EqualEqual => "=="
    case NotEqual => "!="
    case LessEqual => "<="
    case GreaterEqual => ">="
    case Plus => "+"
    case Minus => "-"
    case Star => "*"
    case Slash => "/"
    case LParen => "("
    case RParen => ")"
    case Less => "<"
    case Greater => ">"
    case Number => ""
    case EndOfInput => ""
  }

  /** The two-character operators, in the order the scanner tries them. */
  function TwoCharType(s: string, i: nat): Option<TokenType>
  {
    if i + 1 < |s| && s[i] == '=' && s[i + 1] == '=' then Some(EqualEqual)
    else if i + 1 < |s| && s[i] == '!' && s[i + 1] == '=' then Some(NotEqual)
    else if i + 1 < |s| && s[i] == '<' && s[i + 1] == '=' then Some(LessEqual)
    else if i + 1 < |s| && s[i] == '>' && s[i + 1] == '=' then Some(GreaterEqual)
    else None
  }

  /** The single-character operators of the scanner's `switch`. */
  function SingleCharType(c: char): Option<TokenType>
  {
    match c
    case '+' => Some(Plus)
    case '-' => Some(Minus)
    case '*' => Some(Star)
    case '/' => Some(Slash)
    case '(' => Some(LParen)
    case ')' => Some(RParen)
    case '<' => Some(Less)
    case '>' => Some(Greater)
    case _ => None
  }

  // ---------------------------------------------------------------------------
  // Declarative description of a correct tokenization
  // ---------------------------------------------------------------------------

  /** Token t is spelled at its offset: an operator's text is there (and `<`
      or `>` is not followed by `=`, which would make the longer operator),
      or a number token covers a maximal digit run and holds its value. */
  predicate LexemeAt(s: string, t: Token)
    requires t.offset < |s|
  {
    && t.ty != EndOfInput
    && if t.ty == Number then
         IsDigit(s[t.offset]) && t.val == NumberAt(s, t.offset)
       else
         && t.val == 0
         && StartsWith(s, t.offset, Spelling(t.ty))
         && ((t.ty == Less || t.ty == Greater) ==> !StartsWith(s, t.offset + 1, "="))
  }

  /** Number of characters token t spans. */
  function Width(s: string, t: Token): (w: nat)
    requires t.offset <= |s|
  {
    if t.ty == Number then DigitRun(s, t.offset) else |Spelling(t.ty)|
  }

  /** ts is the tokenization of s from offset i: white space, then a token
      spelled at its offset, and so on, until a single end-of-input token that
      sits where the text ends. */
  predicate LexesFrom(s: string, i: nat, ts: seq<Token>)
    requires i <= |s|
    decreases |ts|
  {
    && |ts| > 0
    && i <= ts[0].offset <= |s|
    && AllSpace(s, i, ts[0].offset)
    && if ts[0].ty == EndOfInput then
         && AtEnd(s, ts[0].offset)
         && ts[0].val == 0
         && |ts| == 1
       else
         && ts[0].offset < |s|
         && LexemeAt(s, ts[0])
         && LexesFrom(s, ts[0].offset + Width(s, ts[0]), ts[1..])
  }

  /** No token can start at offset i. */
  predicate Unlexable(s: string, i: nat)
    requires i < |s|
  {
    && s[i] != '\0'
    && !IsSpace(s[i])
    && !IsDigit(s[i])
    && TwoCharType(s, i).None?
    && SingleCharType(s[i]).None?
  }

  /** The text from offset i reads as the tokens ts, each after white space
      and spelled at its offset as in LexesFrom, and then, after more white
      space, gets stuck at offset at, where no token can start. */
  predicate StuckAt(s: string, i: nat, ts: seq<Token>, at: nat)
    requires i <= |s|
    decreases |ts|
  {
    if |ts| == 0 then
      && i <= at < |s|
      && AllSpace(s, i, at)
      && Unlexable(s, at)
    else
      && i <= ts[0].offset < |s|
      && AllSpace(s, i, ts[0].offset)
      && LexemeAt(s, ts[0])
      && StuckAt(s, ts[0].offset + Width(s, ts[0]), ts[1..], at)
  }

  // ---------------------------------------------------------------------------
  // The scanner
  // ---------------------------------------------------------------------------

  function Emit(t: Token, rest: Result<seq<Token>>): Result<seq<Token>> {
    match rest
    case Ok(ts) => Ok([t] + ts)
    case Err(e) => Err(e)
  }

  /** The token that starts at offset i, which holds neither white space nor
      the end of the text: the two-character operators are tried first, then
      the single-character ones, then a digit run. */
  function LexOne(s: string, i: nat): (r: Option<Token>)
    requires i < |s|
    ensures r.Some? ==> && r.value.offset == i
                        && r.value.ty != EndOfInput
                        && 1 <= Width(s, r.value) <= |s| - i
  {
    if TwoCharType(s, i).Some? then Some(Token(TwoCharType(s, i).value, 0, i))
    else if SingleCharType(s[i]).Some? then Some(Token(SingleCharType(s[i]).value, 0, i))
    else if IsDigit(s[i]) then Some(Token(Number, NumberAt(s, i), i))
    else None
  }

  /** What the scanner finds at an offset is spelled there; when it finds
      nothing, the offset holds the end of the text, white space, or a
      character no token starts with. */
  lemma LexOneSound(s: string, i: nat)
    requires i < |s|
    ensures LexOne(s, i).Some? ==> LexemeAt(s, LexOne(s, i).value)
    ensures LexOne(s, i).None? ==> s[i] == '\0' || IsSpace(s[i]) || Unlexable(s, i)
  {
  }

  /** The scanner loop from offset i: skip white space, emit the token that
      starts here, and fail at the first character no token starts with. */
  function Scan(s: string, i: nat): Result<seq<Token>>
    requires i <= |s|
    decreases |s| - i
  {
    if AtEnd(s, i) then Ok([Token(EndOfInput, 0, i)])
    else if IsSpace(s[i]) then Scan(s, i + 1)
    else
      match LexOne(s, i)
      case None => Err(Error(Untokenizable, i))
      case Some(t) => Emit(t, Scan(s, i + Width(s, t)))
  }

  /** Soundness of the scanner: what it returns is the tokenization of the
      text, and when it fails, no token starts where it stopped. */
  lemma {:induction false} ScanSound(s: string, i: nat)
    requires i <= |s|
    ensures Sound(s, i, Scan(s, i))
    decreases |s| - i
  {
    if AtEnd(s, i) {
      ScanEnd(s, i);
      EndSound(s, i);
    } else if IsSpace(s[i]) {
      ScanSound(s, i + 1);
      ScanSpace(s, i);
      SpaceSound(s, i, Scan(s, i + 1));
    } else if LexOne(s, i).Some? {
      var t := LexOne(s, i).value;
      ScanSound(s, i + Width(s, t));
      ScanToken(s, i, t);
      EmitSound(s, t, Scan(s, i + Width(s, t)));
    } else {
      ScanStuck(s, i);
      StuckSound(s, i);
    }
  }

  lemma EndSound(s: string, i: nat)
    requires i <= |s| && AtEnd(s, i)
    ensures Sound(s, i, Ok([Token(EndOfInput, 0, i)]))
  {
  }

  /** Leading white space keeps the scanner's contract. */
  lemma SpaceSound(s: string, i: nat, r: Result<seq<Token>>)
    requires i < |s| && IsSpace(s[i]) && Sound(s, i + 1, r)
    ensures Sound(s, i, r)
  {
    SkipSpace(s, i, r);
  }

  /** Leading white space does not change where the scanner gets stuck. */
  lemma StuckSkipSpace(s: string, i: nat, ts: seq<Token>, at: nat)
    requires i < |s| && IsSpace(s[i]) && StuckAt(s, i + 1, ts, at)
    ensures StuckAt(s, i, ts, at)
  {
  }

  /** Where no token starts, the scanner stops with an error there. */
  lemma ScanStuck(s: string, i: nat)
    requires i < |s| && !AtEnd(s, i) && !IsSpace(s[i]) && LexOne(s, i).None?
    ensures Scan(s, i) == Err(Error(Untokenizable, i))
  {
  }

  /** Stopping where no token starts is sound. */
  lemma StuckSound(s: string, i: nat)
    requires i < |s| && !AtEnd(s, i) && !IsSpace(s[i]) && LexOne(s, i).None?
    ensures Sound(s, i, Err(Error(Untokenizable, i)))
  {
    LexOneSound(s, i);
  }

  /** The scanner's contract from offset i: success is a tokenization, and
      failure names an offset no token starts at. */
  predicate Sound(s: string, i: nat, r: Result<seq<Token>>)
    requires i <= |s|
  {
    && (r.Ok? ==> LexesFrom(s, i, r.value))
    && (r.Err? ==> && r.error.kind == Untokenizable
                   && i <= r.error.at < |s|
                   && Unlexable(s, r.error.at))
  }

  /** At white space the scanner moves on by one character. */
  lemma ScanSpace(s: string, i: nat)
    requires i < |s| && !AtEnd(s, i) && IsSpace(s[i])
    ensures Scan(s, i) == Scan(s, i + 1)
  {
  }

  /** Emitting a token spelled at i keeps the scanner's contract. */
  lemma EmitSound(s: string, t: Token, r: Result<seq<Token>>)
    requires t.offset < |s| && LexOne(s, t.offset) == Some(t)
    requires Sound(s, t.offset + Width(s, t), r)
    ensures Sound(s, t.offset, Emit(t, r))
  {
    LexOneSound(s, t.offset);
    if r.Ok? {
      LexesCons(s, t, r.value);
    }
  }

  /** A token spelled at its offset, followed by tokens that get stuck at
      offset at, gets stuck there too. */
  lemma StuckCons(s: string, t: Token, ts: seq<Token>, at: nat)
    requires t.offset < |s| && LexemeAt(s, t)
    requires t.offset + Width(s, t) <= |s|
    requires StuckAt(s, t.offset + Width(s, t), ts, at)
    ensures StuckAt(s, t.offset, [t] + ts, at)
  {
    assert ([t] + ts)[1..] == ts;
  }

  /** When the scanner fails from offset i, the text from i reads as tokens
      up to the offset it reports and gets stuck there: the returned ts are
      the tokens it emitted before failing. */
  lemma {:induction false} ScanStops(s: string, i: nat) returns (ts: seq<Token>)
    requires i <= |s| && Scan(s, i).Err?
    ensures StuckAt(s, i, ts, Scan(s, i).error.at)
    decreases |s| - i
  {
    if AtEnd(s, i) {
      ScanEnd(s, i);
      assert false;
    } else if IsSpace(s[i]) {
      ScanSpace(s, i);
      var rest := ScanStops(s, i + 1);
      StuckSkipSpace(s, i, rest, Scan(s, i).error.at);
      ts := rest;
    } else if LexOne(s, i).Some? {
      var t := LexOne(s, i).value;
      var at := Scan(s, i).error.at;
      LexOneSound(s, i);
      TokenFails(s, i, t);
      var rest := ScanStops(s, i + Width(s, t));
      StuckCons(s, t, rest, at);
      ts := [t] + rest;
    } else {
      ScanStuck(s, i);
      LexOneSound(s, i);
      ts := [];
    }
  }

  /** When the scanner fails after emitting a token, the failure comes from
      the rest of the text. */
  lemma TokenFails(s: string, i: nat, t: Token)
    requires i < |s| && !AtEnd(s, i) && !IsSpace(s[i]) && LexOne(s, i) == Some(t)
    requires Scan(s, i).Err?
    ensures Scan(s, i + Width(s, t)).Err? && Scan(s, i + Width(s, t)).error == Scan(s, i).error
  {
    ScanToken(s, i, t);
  }

  /** The stop the scanner reports from the start of the text is reached by
      reading tokens. */
  lemma ScanStopsFromStart(s: string)
    ensures Scan(s, 0).Err? ==> exists ts :: StuckAt(s, 0, ts, Scan(s, 0).error.at)
  {
    if Scan(s, 0).Err? {
      var ts := ScanStops(s, 0);
    }
  }

  /** A token spelled at its offset, followed by the tokenization of what
      comes after it, is the tokenization from that offset. */
  lemma LexesCons(s: string, t: Token, rest: seq<Token>)
    requires t.offset < |s| && LexemeAt(s, t)
    requires t.offset + Width(s, t) <= |s|
    requires LexesFrom(s, t.offset + Width(s, t), rest)
    ensures LexesFrom(s, t.offset, [t] + rest)
  {
    assert ([t] + rest)[1..] == rest;
  }

  /** Leading white space does not change a tokenization. */
  lemma SkipSpace(s: string, i: nat, r: Result<seq<Token>>)
    requires i < |s| && IsSpace(s[i])
    requires r.Ok? ==> LexesFrom(s, i + 1, r.value)
    ensures r.Ok? ==> LexesFrom(s, i, r.value)
  {
  }

  /** The tokenizer. On success the token sequence ends with the one
      end-of-input token, which no earlier token is, and the offsets are
      strictly increasing; each earlier token is spelled at its offset. */
  function Tokenize(s: string): (r: Result<seq<Token>>)
    ensures r.Ok? ==> && |r.value| > 0
                      && r.value[|r.value| - 1].ty == EndOfInput
                      && (forall k :: 0 <= k < |r.value| - 1 ==> r.value[k].ty != EndOfInput)
                      && (forall k :: 0 <= k < |r.value| - 1 ==>
                            r.value[k].offset < |s| && LexemeAt(s, r.value[k]))
                      && r.value[|r.value| - 1].offset <= |s|
                      && (forall j, k :: 0 <= j < k < |r.value| ==>
                            r.value[j].offset < r.value[k].offset)
    ensures r.Err? ==> && r.error.kind == Untokenizable
                       && r.error.at < |s| && Unlexable(s, r.error.at)
                       && exists ts :: StuckAt(s, 0, ts, r.error.at)
  {
    var r := Scan(s, 0);
    ScanSound(s, 0);
    if r.Ok? then LexesShape(s, 0, r.value); r else ScanStopsFromStart(s); r
  }

  // ---------------------------------------------------------------------------
  // Properties of the scanner
  // ---------------------------------------------------------------------------

  /** The shape every tokenization has. */
  lemma {:induction false} LexesShape(s: string, i: nat, ts: seq<Token>)
    requires i <= |s| && LexesFrom(s, i, ts)
    ensures ts[|ts| - 1].ty == EndOfInput
    ensures forall k :: 0 <= k < |ts| - 1 ==> ts[k].ty != EndOfInput
    ensures forall k :: 0 <= k < |ts| - 1 ==> ts[k].offset < |s| && LexemeAt(s, ts[k])
    ensures forall k :: 0 <= k < |ts| ==> i <= ts[k].offset <= |s|
    ensures forall j, k :: 0 <= j < k < |ts| ==> ts[j].offset < ts[k].offset
    decreases |ts|
  {
    if ts[0].ty != EndOfInput {
      var t := ts[0];
      LexesShape(s, t.offset + Width(s, t), ts[1..]);
      assert Width(s, t) >= 1 by { LexemeWidth(s, t); }
      forall k | 0 < k < |ts|
        ensures ts[k] == ts[1..][k - 1]
      {
      }
    }
  }

  lemma LexemeWidth(s: string, t: Token)
    requires t.offset < |s| && LexemeAt(s, t)
    ensures 1 <= Width(s, t) && t.offset + Width(s, t) <= |s|
  {
  }

  /** The scanner picks exactly the token a correct tokenization has at an
      offset. */
  lemma LexOneFinds(s: string, t: Token)
    requires t.offset < |s| && LexemeAt(s, t)
    ensures !AtEnd(s, t.offset) && !IsSpace(s[t.offset])
    ensures LexOne(s, t.offset) == Some(t)
  {
    var o := t.offset;
    if t.ty == Number {
      assert TwoCharType(s, o).None? by { TwoCharHead(s, o); }
    } else {
      var w := Spelling(t.ty);
      assert s[o] == w[0] by { assert s[o .. o + |w|][0] == s[o]; }
      TwoCharHead(s, o);
      if |w| == 2 {
        assert s[o + 1] == w[1] by { assert s[o .. o + |w|][1] == s[o + 1]; }
      }
    }
  }

  /** A two-character operator starts with one of `=`, `!`, `<`, `>`, and is
      found exactly when its second character is `=`. */
  lemma TwoCharHead(s: string, i: nat)
    ensures TwoCharType(s, i).Some? <==>
              i + 1 < |s| && s[i] in "=!<>" && s[i + 1] == '='
    ensures TwoCharType(s, i).Some? ==> Spelling(TwoCharType(s, i).value) == [s[i], '=']
  {
    if i + 1 < |s| {
      assert s[i .. i + 2] == [s[i], s[i + 1]];
    }
  }

  /** Completeness: whenever the text has a tokenization, the scanner finds
      it; with the contract of Scan, the scanner succeeds with ts exactly when
      ts is the tokenization of the text. */
  lemma {:induction false} ScanComplete(s: string, i: nat, ts: seq<Token>)
    requires i <= |s| && LexesFrom(s, i, ts)
    ensures Scan(s, i) == Ok(ts)
    decreases |s| - i
  {
    var j, rest := Peel(s, i, ts);
    if i == j {
      ScanEnd(s, i);
    } else {
      ScanComplete(s, j, rest);
      ScanFollows(s, i, j, ts, rest);
    }
  }

  /** The first step of a tokenization from offset i: at the end of the text
      it is the end-of-input token alone; otherwise white space is skipped
      or the scanner's token is taken, and a tokenization from offset j
      remains. */
  lemma Peel(s: string, i: nat, ts: seq<Token>) returns (j: nat, rest: seq<Token>)
    requires i <= |s| && LexesFrom(s, i, ts)
    ensures i <= j <= |s|
    ensures i == j ==> AtEnd(s, i) && ts == [Token(EndOfInput, 0, i)]
    ensures i < j ==> LexesFrom(s, j, rest) && Moves(s, i, j, ts, rest)
  {
    if i < ts[0].offset {
      assert IsSpace(s[i]) && !AtEnd(s, i);
      j, rest := i + 1, ts;
    } else if ts[0].ty == EndOfInput {
      j, rest := i, ts;
      assert ts == [Token(EndOfInput, 0, i)];
    } else {
      TokenAhead(s, i, ts);
      j, rest := i + Width(s, ts[0]), ts[1..];
    }
  }

  /** One move of the scanner from offset i to offset j: skipping a white
      space character, or taking the token LexOne finds, which heads ts. */
  predicate Moves(s: string, i: nat, j: nat, ts: seq<Token>, rest: seq<Token>)
    requires i <= |s|
  {
    && i < j <= |s|
    && !AtEnd(s, i)
    && if IsSpace(s[i]) then j == i + 1 && rest == ts
       else && |ts| > 0
            && LexOne(s, i) == Some(ts[0])
            && j == i + Width(s, ts[0])
            && ts == [ts[0]] + rest
  }

  /** The scanner agrees with a tokenization across one move. */
  lemma ScanFollows(s: string, i: nat, j: nat, ts: seq<Token>, rest: seq<Token>)
    requires i <= |s| && Moves(s, i, j, ts, rest)
    requires Scan(s, j) == Ok(rest)
    ensures Scan(s, i) == Ok(ts)
  {
    if !IsSpace(s[i]) {
      ScanLexeme(s, ts[0], rest);
    }
  }

  /** At the end of the text the scanner emits the end-of-input token. */
  lemma ScanEnd(s: string, i: nat)
    requires i <= |s| && AtEnd(s, i)
    ensures Scan(s, i) == Ok([Token(EndOfInput, 0, i)])
  {
  }

  /** The scanner finds the first token of a tokenization that is not the
      end of the text, and the rest tokenizes what follows it. */
  lemma TokenAhead(s: string, i: nat, ts: seq<Token>)
    requires i <= |s| && LexesFrom(s, i, ts) && ts[0].offset == i && ts[0].ty != EndOfInput
    ensures i < |s| && !AtEnd(s, i) && !IsSpace(s[i]) && LexOne(s, i) == Some(ts[0])
    ensures i < i + Width(s, ts[0]) <= |s|
    ensures LexesFrom(s, i + Width(s, ts[0]), ts[1..])
    ensures ts == [ts[0]] + ts[1..]
  {
    LexOneFinds(s, ts[0]);
    LexemeWidth(s, ts[0]);
  }

  /** Where a token is spelled, the scanner emits it and goes on after it. */
  lemma ScanLexeme(s: string, t: Token, rest: seq<Token>)
    requires t.offset < |s| && !AtEnd(s, t.offset) && !IsSpace(s[t.offset]) && LexOne(s, t.offset) == Some(t)
    requires t.offset + Width(s, t) <= |s|
    requires Scan(s, t.offset + Width(s, t)) == Ok(rest)
    ensures Scan(s, t.offset) == Ok([t] + rest)
  {
    ScanToken(s, t.offset, t);
    assert Emit(t, Ok(rest)) == Ok([t] + rest);
  }



  /** Where a token starts, the scanner emits it before what follows it. */
  lemma ScanToken(s: string, i: nat, t: Token)
    requires i < |s| && !AtEnd(s, i) && !IsSpace(s[i]) && LexOne(s, i) == Some(t)
    requires i + Width(s, t) <= |s|
    ensures Scan(s, i) == Emit(t, Scan(s, i + Width(s, t)))
  {
  }

  /** Maximal munch: a token that starts with `<` is `<=` exactly when `=`
      follows, and likewise for `>`. */
  lemma MaximalMunch(s: string, ts: seq<Token>, k: nat)
    requires Tokenize(s) == Ok(ts) && k < |ts| - 1
    ensures s[ts[k].offset] == '<' ==>
              (ts[k].ty == LessEqual || ts[k].ty == Less) &&
              (ts[k].ty == LessEqual <==> StartsWith(s, ts[k].offset + 1, "="))
    ensures s[ts[k].offset] == '>' ==>
              (ts[k].ty == GreaterEqual || ts[k].ty == Greater) &&
              (ts[k].ty == GreaterEqual <==> StartsWith(s, ts[k].offset + 1, "="))
  {
    MunchAt(s, ts[k]);
  }

  /** Maximal munch for one token spelled at its offset. */
  lemma MunchAt(s: string, t: Token)
    requires t.offset < |s| && LexemeAt(s, t)
    ensures s[t.offset] == '<' ==>
              (t.ty == LessEqual || t.ty == Less) &&
              (t.ty == LessEqual <==> StartsWith(s, t.offset + 1, "="))
    ensures s[t.offset] == '>' ==>
              (t.ty == GreaterEqual || t.ty == Greater) &&
              (t.ty == GreaterEqual <==> StartsWith(s, t.offset + 1, "="))
  {
    if t.ty != Number {
      Spelled(s, t);
      if t.ty in {LessEqual, GreaterEqual} {
        assert s[t.offset + 1 .. t.offset + 2] == "=";
      }
    }
  }

  /** An operator token's spelling stands character by character at its
      offset. */
  lemma Spelled(s: string, t: Token)
    requires t.offset < |s| && LexemeAt(s, t) && t.ty != Number
    ensures forall k :: 0 <= k < |Spelling(t.ty)| ==> s[t.offset + k] == Spelling(t.ty)[k]
  {
    var w := Spelling(t.ty);
    forall k | 0 <= k < |w|
      ensures s[t.offset + k] == w[k]
    {
      assert s[t.offset .. t.offset + |w|][k] == s[t.offset + k];
    }
  }

  /** Every character before the end of the text that is not white space
      lies inside some token of the tokenization. */
  lemma {:induction false} Coverage(s: string, i: nat, ts: seq<Token>, j: nat) returns (k: nat)
    requires i <= |s| && LexesFrom(s, i, ts)
    requires i <= j < |s| && !IsSpace(s[j])
    requires forall m :: i <= m <= j ==> s[m] != '\0'
    ensures k < |ts| - 1
    ensures ts[k].ty != EndOfInput && ts[k].offset < |s| && LexemeAt(s, ts[k])
    ensures ts[k].offset <= j < ts[k].offset + Width(s, ts[k])
    decreases |ts|
  {
    var t := ts[0];
    if t.ty == EndOfInput {
      assert false;
    } else if j < t.offset + Width(s, t) {
      k := 0;
    } else {
      LexemeWidth(s, t);
      var k' := Coverage(s, t.offset + Width(s, t), ts[1..], j);
      k := k' + 1;
      assert ts[k] == ts[1..][k'];
    }
  }

  /** The character at j of a token that covers j. */
  lemma CoveredChar(s: string, t: Token, j: nat)
    requires t.offset < |s| && LexemeAt(s, t)
    requires t.offset <= j < t.offset + Width(s, t)
    ensures t.ty == Number ==> IsDigit(s[j])
    ensures t.ty != Number ==> s[j] == Spelling(t.ty)[j - t.offset]
  {
    if t.ty != Number {
      var w := Spelling(t.ty);
      assert s[t.offset .. t.offset + |w|][j - t.offset] == s[j];
    }
  }

  /** In every tokenization a `!` is followed by `=`. */
  lemma BangFollowedByEquals(s: string, j: nat, ts: seq<Token>)
    requires LexesFrom(s, 0, ts)
    requires j < |s| && s[j] == '!'
    requires forall m :: 0 <= m <= j ==> s[m] != '\0'
    ensures j + 1 < |s| && s[j + 1] == '='
  {
    var k := Coverage(s, 0, ts, j);
    CoveredChar(s, ts[k], j);
    if ts[k].ty == NotEqual {
      CoveredChar(s, ts[k], j + 1);
    }
  }

  /** In every tokenization an `=` starts `==` or ends one of `==`, `!=`,
      `<=` and `>=`. */
  lemma EqualsInOperator(s: string, j: nat, ts: seq<Token>)
    requires LexesFrom(s, 0, ts)
    requires j < |s| && s[j] == '='
    requires forall m :: 0 <= m <= j ==> s[m] != '\0'
    ensures (j + 1 < |s| && s[j + 1] == '=') || (0 < j && s[j - 1] in "=!<>")
  {
    var k := Coverage(s, 0, ts, j);
    var t := ts[k];
    CoveredChar(s, t, j);
    if t.ty != Number && j == t.offset && |Spelling(t.ty)| == 2 {
      CoveredChar(s, t, j + 1);
    } else if t.ty != Number && j == t.offset + 1 {
      CoveredChar(s, t, t.offset);
    }
  }

  /** A `!` not followed by `=` cannot be tokenized. */
  lemma BangWithoutEqualsRejected(s: string, j: nat)
    requires j < |s| && s[j] == '!'
    requires j + 1 == |s| || s[j + 1] != '='
    requires forall m :: 0 <= m <= j ==> s[m] != '\0'
    ensures Tokenize(s).Err?
  {
    TokenizeLexes(s);
    if Tokenize(s).Ok? {
      BangFollowedByEquals(s, j, Tokenize(s).value);
    }
  }

  /** An `=` that neither starts `==` nor ends `==`, `!=`, `<=` or `>=`
      cannot be tokenized. */
  lemma LoneEqualsRejected(s: string, j: nat)
    requires j < |s| && s[j] == '='
    requires j + 1 == |s| || s[j + 1] != '='
    requires j == 0 || s[j - 1] !in "=!<>"
    requires forall m :: 0 <= m <= j ==> s[m] != '\0'
    ensures Tokenize(s).Err?
  {
    TokenizeLexes(s);
    if Tokenize(s).Ok? {
      EqualsInOperator(s, j, Tokenize(s).value);
    }
  }

  /** What Tokenize returns is the tokenization of the whole text. */
  lemma TokenizeLexes(s: string)
    ensures Tokenize(s).Ok? ==> LexesFrom(s, 0, Tokenize(s).value)
  {
    ScanSound(s, 0);
  }

  // ---------------------------------------------------------------------------
  // Where the scanner stops
  // ---------------------------------------------------------------------------

  /** Two offsets that both end the white space after offset i, each on a
      character that is not white space or past the end, are the same. */
  lemma FirstNonSpace(s: string, i: nat, a: nat, b: nat)
    requires i <= a < |s| && i <= b <= |s|
    requires AllSpace(s, i, a) && AllSpace(s, i, b)
    requires !IsSpace(s[a]) && (b < |s| ==> !IsSpace(s[b]))
    ensures a == b
  {
  }

  /** What a tokenization says about its first token: it follows white
      space and is either the end of the text or the token the scanner
      finds there. */
  lemma LexesHead(s: string, i: nat, us: seq<Token>)
    requires i <= |s| && LexesFrom(s, i, us)
    ensures i <= us[0].offset <= |s| && AllSpace(s, i, us[0].offset)
    ensures us[0].ty == EndOfInput ==> AtEnd(s, us[0].offset)
    ensures us[0].ty != EndOfInput ==>
              && us[0].offset < |s| && !AtEnd(s, us[0].offset) && !IsSpace(s[us[0].offset])
              && LexOne(s, us[0].offset) == Some(us[0])
              && LexesFrom(s, us[0].offset + Width(s, us[0]), us[1..])
  {
    if us[0].ty != EndOfInput {
      LexOneFinds(s, us[0]);
    }
  }

  /** What a stuck reading says about where it goes next: it follows white
      space to the stop, where the scanner finds nothing, or to its first
      token, which the scanner finds. */
  lemma StuckHead(s: string, i: nat, ts: seq<Token>, at: nat)
    requires i <= |s| && StuckAt(s, i, ts, at)
    ensures |ts| == 0 ==>
              && i <= at < |s| && AllSpace(s, i, at)
              && !AtEnd(s, at) && !IsSpace(s[at]) && LexOne(s, at).None?
    ensures |ts| > 0 ==>
              && i <= ts[0].offset < |s| && AllSpace(s, i, ts[0].offset)
              && !AtEnd(s, ts[0].offset) && !IsSpace(s[ts[0].offset])
              && LexOne(s, ts[0].offset) == Some(ts[0])
              && StuckAt(s, ts[0].offset + Width(s, ts[0]), ts[1..], at)
  {
    if |ts| > 0 {
      LexOneFinds(s, ts[0]);
    }
  }

  /** The text from offset i gets stuck in only one way: the tokens read
      before the stop, and the offset of the stop, are determined by the
      text. */
  lemma {:induction false} StuckUnique(s: string, i: nat, ts: seq<Token>, at: nat, us: seq<Token>, bt: nat)
    requires i <= |s| && StuckAt(s, i, ts, at) && StuckAt(s, i, us, bt)
    ensures ts == us && at == bt
    decreases |ts|
  {
    StuckFirst(s, i, ts, at, us, bt);
    if |ts| > 0 {
      StuckUnique(s, ts[0].offset + Width(s, ts[0]), ts[1..], at, us[1..], bt);
      assert ts == [ts[0]] + ts[1..] && us == [us[0]] + us[1..];
    }
  }

  /** Two stuck readings from offset i take the same first step: both stop
      at once, at the same offset, or both read the same first token. */
  lemma StuckFirst(s: string, i: nat, ts: seq<Token>, at: nat, us: seq<Token>, bt: nat)
    requires i <= |s| && StuckAt(s, i, ts, at) && StuckAt(s, i, us, bt)
    ensures |ts| == 0 <==> |us| == 0
    ensures |ts| == 0 ==> at == bt
    ensures |ts| > 0 ==> ts[0] == us[0]
  {
    StuckHead(s, i, ts, at);
    StuckHead(s, i, us, bt);
    var a := if |ts| == 0 then at else ts[0].offset;
    var b := if |us| == 0 then bt else us[0].offset;
    FirstNonSpace(s, i, a, b);
  }

  /** Text that gets stuck has no tokenization. */
  lemma {:induction false} StuckExcludesLexes(s: string, i: nat, ts: seq<Token>, at: nat, us: seq<Token>)
    requires i <= |s| && StuckAt(s, i, ts, at)
    ensures !LexesFrom(s, i, us)
    decreases |ts|
  {
    if LexesFrom(s, i, us) {
      StuckHead(s, i, ts, at);
      LexesHead(s, i, us);
      var a := if |ts| == 0 then at else ts[0].offset;
      FirstNonSpace(s, i, a, us[0].offset);
      if |ts| == 0 || us[0].ty == EndOfInput {
        assert false;
      } else {
        StuckExcludesLexes(s, ts[0].offset + Width(s, ts[0]), ts[1..], at, us[1..]);
        assert false;
      }
    }
  }

  /** Tokenize reports the offset where reading tokens from the start of the
      text gets stuck, whenever it does get stuck. */
  lemma TokenizeFailsAtStuckPoint(s: string, ts: seq<Token>, at: nat)
    requires StuckAt(s, 0, ts, at)
    ensures Tokenize(s) == Err(Error(Untokenizable, at))
  {
    TokenizeLexes(s);
    if Tokenize(s).Ok? {
      StuckExcludesLexes(s, 0, ts, at, Tokenize(s).value);
      assert false;
    }
    var us :| StuckAt(s, 0, us, Tokenize(s).error.at);
    StuckUnique(s, 0, ts, at, us, Tokenize(s).error.at);
  }

  /** `<= &` fails at the `&`, the first place reading gets stuck, and not
      at the `=`, which no token starts with on its own. */
  lemma StuckAfterOperator()
    ensures Tokenize("<= &") == Err(Error(Untokenizable, 3))
  {
    var s := "<= &";
    var t := Token(LessEqual, 0, 0);
    assert s[0 .. 2] == "<=";
    assert LexemeAt(s, t);
    assert StuckAt(s, 2, [], 3);
    assert [t][1..] == [];
    TokenizeFailsAtStuckPoint(s, [t], 3);
  }
}
