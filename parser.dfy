/** The recursive-descent parser of parser.cpp, as functions of the token list and the
    cursor `currentPos`. Every function returns the cursor it leaves behind, on success and
    on error alike, because the recovery loop of `parseProgram` resumes from there. */
module ParserSpec {
  import opened Common
  import opened Tokens
  import opened Lexer
  import opened Ast

  // ------------------------------------------------------------------ cursor helpers

  /** The token `currentToken` returns past the end. */
  const Sentinel: Token := Token(EndOfFile, "", 0, 0)

  /** `currentToken` at cursor `pos` (and `peekToken` at `pos - 1`). */
  function TokenAt(toks: seq<Token>, pos: nat): (t: Token)
    ensures pos >= |toks| ==> t == Sentinel
  {
    if pos < |toks| then toks[pos] else Sentinel
  }

  function KindAt(toks: seq<Token>, pos: nat): (k: TokenKind)
    ensures k != EndOfFile ==> pos < |toks|
  {
    TokenAt(toks, pos).kind
  }

  function LexemeAt(toks: seq<Token>, pos: nat): string { TokenAt(toks, pos).lexeme }

  /** `advance`: the cursor moves only while it is inside the token list. After a token of
      any kind but END_OF_FILE has been matched the cursor is inside, so the functions below
      write such an `advance` as `+ 1`. */
  function Next(toks: seq<Token>, pos: nat): (q: nat)
    requires pos <= |toks|
    ensures q <= |toks|
    ensures q == if pos < |toks| then pos + 1 else pos
  {
    if pos < |toks| then pos + 1 else pos
  }

  /** `std::stoi` failures; they are `std::logic_error`s, which the recovery in
      `parseProgram` does not catch. */
  datatype StoiError = InvalidArgument | OutOfRange

  /** The `std::runtime_error`s the parser throws, by what their message says: `expect`
      names the token kind it wanted and the line of the token it found. */
  datatype SyntaxReason =
    | Expected(kind: TokenKind, line: nat)
    | NoOffset | UnknownMode | UnexpectedToken(lexeme: string)
    | UnsupportedInstruction | UnsupportedDirective | AsciiArity | EquArity | FillArity

  datatype ParseError = SyntaxError(reason: SyntaxReason) | StoiFailure(error: StoiError)

  /** A parse result and the cursor after it (after the throw, for an error). */
  datatype Parsed<+T> = Parsed(result: Result<T, ParseError>, pos: nat)

  function Fail<T>(reason: SyntaxReason, pos: nat): Parsed<T>
  {
    Parsed(Err(SyntaxError(reason)), pos)
  }

  /** The error `expect` throws when the token at `pos` is not of kind `kind`. */
  function Missing(toks: seq<Token>, pos: nat, kind: TokenKind): ParseError
  {
    SyntaxError(Expected(kind, TokenAt(toks, pos).line))
  }

  function ExpectFail<T>(toks: seq<Token>, kind: TokenKind, pos: nat): Parsed<T>
  {
    Parsed(Err(Missing(toks, pos, kind)), pos)
  }

  /** The tokens from `p` on have the kinds of `pattern`, in order. */
  predicate Matches(toks: seq<Token>, p: nat, pattern: seq<TokenKind>)
  {
    forall j :: p <= j < p + |pattern| ==> KindAt(toks, j) == pattern[j - p]
  }

  /** `r` is the error of a chain of `expect` calls for `pattern` from `p` on: it names the
      kind wanted at the first token that does not fit, and stops there. */
  predicate FirstMismatch<T>(toks: seq<Token>, p: nat, pattern: seq<TokenKind>, r: Parsed<T>)
  {
    && p <= r.pos < p + |pattern|
    && Matches(toks, p, pattern[..r.pos - p])
    && KindAt(toks, r.pos) != pattern[r.pos - p]
    && r.result.Err? && r.result.error == Missing(toks, r.pos, pattern[r.pos - p])
  }


  // ------------------------------------------------------------------ std::stoi

  function DropSpaces(s: string): string
  {
    if |s| > 0 && IsSpace(s[0]) then DropSpaces(s[1..]) else s
  }

  /** The longest run of decimal digits at the front of `s` (see ParserProps.LeadingDigitsRun). */
  function LeadingDigits(s: string): string
  {
    if |s| > 0 && IsDigit(s[0]) then [s[0]] + LeadingDigits(s[1..]) else []
  }

  /** The value of a string of decimal digits. */
  function DecimalValue(d: string): nat
  {
    if d == [] then 0 else 10 * DecimalValue(d[..|d| - 1]) + ((d[|d| - 1] as int - '0' as int) % 10)
  }

  /** `std::stoi` with base 10: leading white space, an optional sign, then the longest run of
      decimal digits; no digits is `invalid_argument`, a value outside `int` is
      `out_of_range`. So `0x1F` and `0o17` both give 0. */
  function Stoi(s: string): (r: Result<int, StoiError>)
    ensures r.Ok? ==> -0x8000_0000 <= r.value < 0x8000_0000
    ensures DropSpaces(s) == [] ==> r == Err(InvalidArgument)
  {
    var t := DropSpaces(s);
    var negative := |t| > 0 && t[0] == '-';
    var u := if |t| > 0 && (t[0] == '-' || t[0] == '+') then t[1..] else t;
    var d := LeadingDigits(u);
    if d == [] then Err(InvalidArgument)
    else
      var mag: int := DecimalValue(d);
      var v := if negative then -mag else mag;
      if -0x8000_0000 <= v < 0x8000_0000 then Ok(v) else Err(OutOfRange)
  }

  /** The value of the current lexeme; its failure is a `StoiFailure`, which the recovery
      loop of `parseProgram` does not catch. */
  function NumberAt(toks: seq<Token>, pos: nat): (r: Result<int, ParseError>)
    ensures r.Ok? ==> -0x8000_0000 <= r.value < 0x8000_0000
    ensures r.Err? ==> r.error.StoiFailure?
  {
    match Stoi(LexemeAt(toks, pos))
    case Ok(v) => Ok(v)
    case Err(e) => Err(StoiFailure(e))
  }

  // ------------------------------------------------------------------ operands

  /** `parseAddressingMode`. For `(`, `-` and NUMBER it consumes the whole operand; for
      REGISTER and LABEL it consumes nothing. */
  function AddressingModeAt(toks: seq<Token>, pos: nat): (r: Parsed<AddrMode>)
    requires pos <= |toks|
    ensures pos <= r.pos <= |toks|
    ensures r.result == Ok(Reg) ==> r.pos == pos < |toks| && KindAt(toks, pos) == Register
    ensures r.result.Ok? && r.pos == pos ==> r.result.value in {Reg, Rel}
  {
    var k := KindAt(toks, pos);
    if k == Hash then Parsed(Ok(Imm), pos + 1)
    else if k == At then
      if KindAt(toks, pos + 1) == Hash then Parsed(Ok(Abs), pos + 2) else Parsed(Ok(Rel), pos + 1)
    else if k == LParen then DeferredModeAt(toks, pos + 1)
    else if k == Minus then AutoDecModeAt(toks, pos + 1)
    else if k == Number then IndexedModeAt(toks, pos)
    else if k == Register then Parsed(Ok(Reg), pos)
    else if k == Label then Parsed(Ok(Rel), pos)
    else Fail(UnknownMode, pos)
  }

  /** `(Rn)`, or `(Rn+)` with the PLUS before the closing parenthesis, from the token after
      the opening one. */
  function DeferredModeAt(toks: seq<Token>, p: nat): (r: Parsed<AddrMode>)
    requires p <= |toks|
    ensures p <= r.pos <= |toks|
    ensures r.result.Ok? ==> r.result.value in {RegDef, AutoInc} && p < r.pos
  {
    if KindAt(toks, p) != Register then ExpectFail(toks, Register, p)
    else if KindAt(toks, p + 1) == Plus then
      if KindAt(toks, p + 2) != RParen then ExpectFail(toks, RParen, p + 2)
      else Parsed(Ok(AutoInc), p + 3)
    else if KindAt(toks, p + 1) != RParen then ExpectFail(toks, RParen, p + 1)
    else Parsed(Ok(RegDef), p + 2)
  }

  /** After `(`: `Rn + )` gives AUTOINC and `Rn )` gives REG_DEF; otherwise the "Expected"
      error of the first token that does not fit the form the second token selects. */
  lemma DeferredModeAtCases(toks: seq<Token>, p: nat)
    requires p <= |toks|
    ensures Matches(toks, p, [Register, Plus, RParen]) ==> DeferredModeAt(toks, p) == Parsed(Ok(AutoInc), p + 3)
    ensures Matches(toks, p, [Register, RParen]) ==> DeferredModeAt(toks, p) == Parsed(Ok(RegDef), p + 2)
    ensures KindAt(toks, p + 1) == Plus && !Matches(toks, p, [Register, Plus, RParen]) ==>
              FirstMismatch(toks, p, [Register, Plus, RParen], DeferredModeAt(toks, p))
    ensures KindAt(toks, p + 1) != Plus && !Matches(toks, p, [Register, RParen]) ==>
              FirstMismatch(toks, p, [Register, RParen], DeferredModeAt(toks, p))
  {
  }

  /** `-(Rn)`, from the token after the minus. */
  function AutoDecModeAt(toks: seq<Token>, p: nat): (r: Parsed<AddrMode>)
    requires p <= |toks|
    ensures p <= r.pos <= |toks|
    ensures r.result.Ok? ==> r.result.value == AutoDec && p < r.pos
  {
    if KindAt(toks, p) != LParen then ExpectFail(toks, LParen, p)
    else if KindAt(toks, p + 1) != Register then ExpectFail(toks, Register, p + 1)
    else if KindAt(toks, p + 2) != RParen then ExpectFail(toks, RParen, p + 2)
    else Parsed(Ok(AutoDec), p + 3)
  }

  /** After `-`: `( Rn )` gives AUTODEC; otherwise the "Expected" error of the first token
      that does not fit. */
  lemma AutoDecModeAtCases(toks: seq<Token>, p: nat)
    requires p <= |toks|
    ensures Matches(toks, p, [LParen, Register, RParen]) ==> AutoDecModeAt(toks, p) == Parsed(Ok(AutoDec), p + 3)
    ensures !Matches(toks, p, [LParen, Register, RParen]) ==> FirstMismatch(toks, p, [LParen, Register, RParen], AutoDecModeAt(toks, p))
  {
  }

  /** `X(Rn)` with a numeric `X`, which `std::stoi` reads and the result discards. */
  function IndexedModeAt(toks: seq<Token>, pos: nat): (r: Parsed<AddrMode>)
    requires pos <= |toks|
    ensures pos <= r.pos <= |toks|
    ensures r.result.Ok? ==> r.result.value == Indexed && pos < r.pos
  {
    var n := NumberAt(toks, pos);
    if n.Err? then Parsed(Err(n.error), pos) else IndexRegisterAt(toks, pos + 1)
  }

  /** A number `std::stoi` refuses raises its exception; one it reads, followed by `( Rn )`,
      gives INDEXED; otherwise the "Expected" error of the first token that does not fit. */
  lemma IndexedModeAtCases(toks: seq<Token>, pos: nat)
    requires pos <= |toks|
    ensures NumberAt(toks, pos).Err? ==> IndexedModeAt(toks, pos) == Parsed(Err(NumberAt(toks, pos).error), pos)
    ensures NumberAt(toks, pos).Ok? && Matches(toks, pos + 1, [LParen, Register, RParen]) ==>
              IndexedModeAt(toks, pos) == Parsed(Ok(Indexed), pos + 4)
    ensures NumberAt(toks, pos).Ok? && !Matches(toks, pos + 1, [LParen, Register, RParen]) ==>
              FirstMismatch(toks, pos + 1, [LParen, Register, RParen], IndexedModeAt(toks, pos))
  {
    if NumberAt(toks, pos).Ok? {
      IndexRegisterAtCases(toks, pos + 1);
    }
  }

  /** The `( Rn )` that `parseIndexedMode` expects after the offset, from the parenthesis. */
  function IndexRegisterAt(toks: seq<Token>, p: nat): (r: Parsed<AddrMode>)
    requires p <= |toks|
    ensures p <= r.pos <= |toks|
  {
    if KindAt(toks, p) != LParen then ExpectFail(toks, LParen, p)
    else if KindAt(toks, p + 1) != Register then ExpectFail(toks, Register, p + 1)
    else if KindAt(toks, p + 2) != RParen then ExpectFail(toks, RParen, p + 2)
    else Parsed(Ok(Indexed), p + 3)
  }

  /** `( Rn )` gives INDEXED; otherwise the "Expected" error of the first token that does
      not fit. */
  lemma IndexRegisterAtCases(toks: seq<Token>, p: nat)
    requires p <= |toks|
    ensures Matches(toks, p, [LParen, Register, RParen]) ==> IndexRegisterAt(toks, p) == Parsed(Ok(Indexed), p + 3)
    ensures !Matches(toks, p, [LParen, Register, RParen]) ==> FirstMismatch(toks, p, [LParen, Register, RParen], IndexRegisterAt(toks, p))
  {
  }

  /** The `switch` of `parseOperand`, from the cursor `parseAddressingMode` left. */
  function OperandBody(toks: seq<Token>, mode: AddrMode, p: nat): (r: Parsed<Operand>)
    requires p <= |toks|
    ensures p <= r.pos <= |toks|
    ensures r.result.Ok? && (mode != Reg || p < |toks|) ==> p < r.pos
    ensures r.result.Ok? ==> r.result.value.mode == mode
  {
    var op := Fresh(mode);
    match mode
    case Reg =>
      Parsed(Ok(op.(reg := LexemeAt(toks, p))), Next(toks, p))
    case Imm =>
      if KindAt(toks, p) != Number then ExpectFail(toks, Number, p)
      else (match NumberAt(toks, p)
            case Err(e) => Parsed(Err(e), p)
            case Ok(v) => Parsed(Ok(op.(value := v)), p + 1))
    case Rel =>
      if KindAt(toks, p) != Label then ExpectFail(toks, Label, p)
      else Parsed(Ok(op.(symbol := LexemeAt(toks, p))), p + 1)
    case Abs =>
      if KindAt(toks, p) != Number then ExpectFail(toks, Number, p)
      else (match NumberAt(toks, p)
            case Err(e) => Parsed(Err(e), p)
            case Ok(v) => Parsed(Ok(op.(value := v)), p + 1))
    case RegDef => RegDefBody(toks, p)
    case AutoInc => AutoIncBody(toks, p)
    case AutoDec => AutoDecBody(toks, p)
    case Indexed => IndexedBody(toks, p)
  }

  /** The REG_DEF case: `Rn )`. */
  function RegDefBody(toks: seq<Token>, p: nat): (r: Parsed<Operand>)
    requires p <= |toks|
    ensures p <= r.pos <= |toks|
    ensures r.result.Ok? ==> r.result.value.mode == RegDef && p < r.pos
  {
    if KindAt(toks, p) != Register then ExpectFail(toks, Register, p)
    else if KindAt(toks, p + 1) != RParen then ExpectFail(toks, RParen, p + 1)
    else Parsed(Ok(Fresh(RegDef).(reg := LexemeAt(toks, p))), p + 2)
  }

  /** `Rn )` builds the REG_DEF operand of `Rn`; otherwise the "Expected" error of the first
      token that does not fit. */
  lemma RegDefBodyCases(toks: seq<Token>, p: nat)
    requires p <= |toks|
    ensures Matches(toks, p, [Register, RParen]) ==> RegDefBody(toks, p) == Parsed(Ok(Operand(RegDef, LexemeAt(toks, p), 0, "")), p + 2)
    ensures !Matches(toks, p, [Register, RParen]) ==> FirstMismatch(toks, p, [Register, RParen], RegDefBody(toks, p))
  {
  }

  /** The AUTOINC case: `Rn + )`. */
  function AutoIncBody(toks: seq<Token>, p: nat): (r: Parsed<Operand>)
    requires p <= |toks|
    ensures p <= r.pos <= |toks|
    ensures r.result.Ok? ==> r.result.value.mode == AutoInc && p < r.pos
  {
    if KindAt(toks, p) != Register then ExpectFail(toks, Register, p)
    else if KindAt(toks, p + 1) != Plus then ExpectFail(toks, Plus, p + 1)
    else if KindAt(toks, p + 2) != RParen then ExpectFail(toks, RParen, p + 2)
    else Parsed(Ok(Fresh(AutoInc).(reg := LexemeAt(toks, p))), p + 3)
  }

  /** `Rn + )` builds the AUTOINC operand of `Rn`; otherwise the "Expected" error of the
      first token that does not fit. */
  lemma AutoIncBodyCases(toks: seq<Token>, p: nat)
    requires p <= |toks|
    ensures Matches(toks, p, [Register, Plus, RParen]) ==>
              AutoIncBody(toks, p) == Parsed(Ok(Operand(AutoInc, LexemeAt(toks, p), 0, "")), p + 3)
    ensures !Matches(toks, p, [Register, Plus, RParen]) ==> FirstMismatch(toks, p, [Register, Plus, RParen], AutoIncBody(toks, p))
  {
  }

  /** The AUTODEC case: `- ( Rn )`. */
  function AutoDecBody(toks: seq<Token>, p: nat): (r: Parsed<Operand>)
    requires p <= |toks|
    ensures p <= r.pos <= |toks|
    ensures r.result.Ok? ==> r.result.value.mode == AutoDec && p < r.pos
  {
    if KindAt(toks, p) != Minus then ExpectFail(toks, Minus, p)
    else if KindAt(toks, p + 1) != LParen then ExpectFail(toks, LParen, p + 1)
    else if KindAt(toks, p + 2) != Register then ExpectFail(toks, Register, p + 2)
    else if KindAt(toks, p + 3) != RParen then ExpectFail(toks, RParen, p + 3)
    else Parsed(Ok(Fresh(AutoDec).(reg := LexemeAt(toks, p + 2))), p + 4)
  }

  /** `- ( Rn )` builds the AUTODEC operand of `Rn`; otherwise the "Expected" error of the
      first token that does not fit. */
  lemma AutoDecBodyCases(toks: seq<Token>, p: nat)
    requires p <= |toks|
    ensures Matches(toks, p, [Minus, LParen, Register, RParen]) ==>
              AutoDecBody(toks, p) == Parsed(Ok(Operand(AutoDec, LexemeAt(toks, p + 2), 0, "")), p + 4)
    ensures !Matches(toks, p, [Minus, LParen, Register, RParen]) ==>
              FirstMismatch(toks, p, [Minus, LParen, Register, RParen], AutoDecBody(toks, p))
  {
  }

  /** The offset of an indexed operand: a number read by `std::stoi` or a label. */
  function IndexOffsetAt(toks: seq<Token>, p: nat): (r: Result<Operand, ParseError>)
    ensures r.Ok? ==> r.value.mode == Indexed && r.value.reg == ""
  {
    if KindAt(toks, p) == Number then
      (match NumberAt(toks, p) case Err(e) => Err(e) case Ok(v) => Ok(Fresh(Indexed).(value := v)))
    else if KindAt(toks, p) == Label then Ok(Fresh(Indexed).(symbol := LexemeAt(toks, p)))
    else Err(SyntaxError(NoOffset))
  }

  /** The INDEXED case: a NUMBER or LABEL offset, then `( Rn )`. */
  function IndexedBody(toks: seq<Token>, p: nat): (r: Parsed<Operand>)
    requires p <= |toks|
    ensures p <= r.pos <= |toks|
    ensures r.result.Ok? ==> r.result.value.mode == Indexed && p < r.pos
  {
    var offset := IndexOffsetAt(toks, p);
    if offset.Err? then Parsed(Err(offset.error), p)
    else if KindAt(toks, p + 1) != LParen then ExpectFail(toks, LParen, p + 1)
    else if KindAt(toks, p + 2) != Register then ExpectFail(toks, Register, p + 2)
    else if KindAt(toks, p + 3) != RParen then ExpectFail(toks, RParen, p + 3)
    else Parsed(Ok(offset.value.(reg := LexemeAt(toks, p + 2))), p + 4)
  }

  /** An offset that fails raises its error; an offset followed by `( Rn )` builds the
      INDEXED operand of `Rn` with the offset's value and label; otherwise the "Expected"
      error of the first token that does not fit. */
  lemma IndexedBodyCases(toks: seq<Token>, p: nat)
    requires p <= |toks|
    ensures IndexOffsetAt(toks, p).Err? ==> IndexedBody(toks, p) == Parsed(Err(IndexOffsetAt(toks, p).error), p)
    ensures IndexOffsetAt(toks, p).Ok? && Matches(toks, p + 1, [LParen, Register, RParen]) ==>
              var off := IndexOffsetAt(toks, p).value;
              IndexedBody(toks, p) == Parsed(Ok(Operand(Indexed, LexemeAt(toks, p + 2), off.value, off.symbol)), p + 4)
    ensures IndexOffsetAt(toks, p).Ok? && !Matches(toks, p + 1, [LParen, Register, RParen]) ==>
              FirstMismatch(toks, p + 1, [LParen, Register, RParen], IndexedBody(toks, p))
  {
  }

  /** `parseOperand`: a successful operand consumes at least one token. */
  function OperandAt(toks: seq<Token>, pos: nat): (r: Parsed<Operand>)
    requires pos <= |toks|
    ensures pos <= r.pos <= |toks|
    ensures r.result.Ok? ==> pos < r.pos
  {
    var m := AddressingModeAt(toks, pos);
    if m.result.Err? then Parsed(Err(m.result.error), m.pos)
    else OperandBody(toks, m.result.value, m.pos)
  }

  // ------------------------------------------------------------------ instructions

  /** `instrMap`: each mnemonic token kind and the instruction kind of the same name. */
  function InstrMap(k: TokenKind): (r: Option<InstrKind>)
    ensures r.Some? <==> IsMnemonic(k)
  {
    if k == Mov then Some(MOV) else if k == Cmp then Some(CMP) else if k == Add then Some(ADD)
    else if k == Sub then Some(SUB) else if k == Jsr then Some(JSR) else if k == Rts then Some(RTS)
    else if k == Halt then Some(HALT) else if k == Clr then Some(CLR) else if k == Com then Some(COM)
    else if k == Inc then Some(INC) else if k == Dec then Some(DEC) else if k == Neg then Some(NEG)
    else if k == Jmp then Some(JMP) else None
  }

  /** The `switch` at the end of `parseInstruction`. */
  function BuildInstruction(kind: Option<InstrKind>, src: Option<Operand>, dst: Option<Operand>): Result<Instruction, ParseError>
  {
    match kind
    case None => Err(SyntaxError(UnsupportedInstruction))
    case Some(k) =>
      match k
      case MOV => Ok(CreateMov(src, dst))
      case CMP => Ok(CreateCmp(src, dst))
      case ADD => Ok(CreateAdd(src, dst))
      case SUB => Ok(CreateSub(src, dst))
      case JSR => Ok(CreateJsr(if src.Some? then src.value.symbol else ""))
      case RTS => Ok(CreateRts())
      case HALT => Ok(CreateHalt())
      case CLR => Ok(CreateClr(dst))
      case COM => Ok(CreateCom(dst))
      case INC => Ok(CreateInc(dst))
      case DEC => Ok(CreateDec(dst))
      case NEG => Ok(CreateNeg(dst))
      case JMP => Ok(CreateJmp(if src.Some? then src.value.symbol else ""))
  }

  /** The operands of `parseInstruction`: one, and a second one after a comma. */
  function OperandPairAt(toks: seq<Token>, p: nat): (r: Parsed<(Operand, Option<Operand>)>)
    requires p <= |toks|
    ensures p <= r.pos <= |toks|
  {
    var s := OperandAt(toks, p);
    if s.result.Err? then Parsed(Err(s.result.error), s.pos)
    else SecondOperandAt(toks, s.result.value, s.pos)
  }

  /** The second operand, when a comma follows the first. */
  function SecondOperandAt(toks: seq<Token>, first: Operand, q: nat): (r: Parsed<(Operand, Option<Operand>)>)
    requires q <= |toks|
    ensures q <= r.pos <= |toks|
  {
    if KindAt(toks, q) != Comma then Parsed(Ok((first, None)), q)
    else
      var d := OperandAt(toks, q + 1);
      if d.result.Err? then Parsed(Err(d.result.error), d.pos)
      else Parsed(Ok((first, Some(d.result.value))), d.pos)
  }

  /** The instruction `parseInstruction` returns, wrapped as a statement. */
  function AsStatement(b: Result<Instruction, ParseError>): Result<Node, ParseError>
  {
    if b.Err? then Err(b.error) else Ok(Instr(b.value))
  }

  /** `parseInstruction` after the mnemonic, for the kind the mnemonic was cast to: RTS and
      HALT take no operand, every other kind an operand pair. */
  function InstructionFor(toks: seq<Token>, kind: Option<InstrKind>, p: nat): (r: Parsed<Node>)
    requires p <= |toks|
    ensures p <= r.pos <= |toks|
  {
    if kind == Some(RTS) || kind == Some(HALT) then
      Parsed(AsStatement(BuildInstruction(kind, None, None)), p)
    else
      var o := OperandPairAt(toks, p);
      if o.result.Err? then Parsed(Err(o.result.error), o.pos)
      else Parsed(AsStatement(BuildInstruction(kind, Some(o.result.value.0), o.result.value.1)), o.pos)
  }

  /** `parseInstruction`: the kind is the `static_cast` of the token kind. */
  function InstructionAt(toks: seq<Token>, pos: nat): (r: Parsed<Node>)
    requires pos < |toks|
    ensures pos < r.pos <= |toks|
  {
    InstructionFor(toks, InstrKindOfOrdinal(KindAt(toks, pos) as nat), pos + 1)
  }

  // ------------------------------------------------------------------ directives

  /** `dirMap`: each directive token kind and the directive kind of the same name. */
  function DirMap(k: TokenKind): (r: Option<DirKind>)
    ensures r.Some? <==> k in {DirectiveWord, DirectiveByte, DirectiveAscii, DirectiveEnd, DirectiveEqu, DirectiveFill}
  {
    if k == DirectiveWord then Some(WORD) else if k == DirectiveByte then Some(BYTE)
    else if k == DirectiveAscii then Some(ASCII) else if k == DirectiveEnd then Some(END)
    else if k == DirectiveEqu then Some(EQU) else if k == DirectiveFill then Some(FILL) else None
  }

  /** The operand loop of `parseDirective`: stops at END_OF_FILE and after the first operand
      not followed by a comma. */
  function OperandListAt(toks: seq<Token>, p: nat): (r: Parsed<seq<Operand>>)
    requires p <= |toks|
    ensures p <= r.pos <= |toks|
    decreases |toks| - p, 1
  {
    if KindAt(toks, p) == EndOfFile then Parsed(Ok([]), p)
    else ListAfter(toks, p, OperandAt(toks, p))
  }

  /** The rest of the operand loop once operand `o` has been parsed from `p`. */
  function ListAfter(toks: seq<Token>, p: nat, o: Parsed<Operand>): (r: Parsed<seq<Operand>>)
    requires p <= o.pos <= |toks| && (o.result.Ok? ==> p < o.pos)
    ensures o.pos <= r.pos <= |toks|
    decreases |toks| - p, 0
  {
    if o.result.Err? then Parsed(Err(o.result.error), o.pos)
    else if KindAt(toks, o.pos) != Comma then Parsed(Ok([o.result.value]), o.pos)
    else Prepend([o.result.value], OperandListAt(toks, o.pos + 1))
  }


  /** One turn of the operand loop, from a token that is not the end. */
  lemma ListStep(toks: seq<Token>, p: nat)
    requires p <= |toks| && KindAt(toks, p) != EndOfFile
    ensures var o := OperandAt(toks, p);
      && (o.result.Err? ==> OperandListAt(toks, p) == Parsed(Err(o.result.error), o.pos))
      && (o.result.Ok? && KindAt(toks, o.pos) != Comma ==> OperandListAt(toks, p) == Parsed(Ok([o.result.value]), o.pos))
      && (o.result.Ok? && KindAt(toks, o.pos) == Comma ==>
            OperandListAt(toks, p) == Prepend([o.result.value], OperandListAt(toks, o.pos + 1)))
  {
  }

  lemma PrependNothing(r: Parsed<seq<Operand>>)
    ensures Prepend([], r) == r
  {
    if r.result.Ok? {
      assert [] + r.result.value == r.result.value;
    }
  }

  lemma PrependTwice(a: seq<Operand>, b: seq<Operand>, r: Parsed<seq<Operand>>)
    ensures Prepend(a, Prepend(b, r)) == Prepend(a + b, r)
  {
    if r.result.Ok? {
      assert a + (b + r.result.value) == (a + b) + r.result.value;
    }
  }

  /** The operands collected before `r` in front of it; an error discards them. */
  function Prepend(ops: seq<Operand>, r: Parsed<seq<Operand>>): Parsed<seq<Operand>>
  {
    if r.result.Err? then r else Parsed(Ok(ops + r.result.value), r.pos)
  }

  /** The `switch` at the end of `parseDirective`, for the kind it dispatches on. */
  function BuildDirective(kind: Option<DirKind>, ops: seq<Operand>, q: nat): (r: Parsed<Node>)
    ensures r.pos == q
  {
    match kind
    case None => Fail(UnsupportedDirective, q)
    case Some(k) =>
      match k
      case WORD => Parsed(Ok(Dir(CreateWord(ops))), q)
      case BYTE => Parsed(Ok(Dir(CreateByte(ops))), q)
      case ASCII =>
        if |ops| == 0 then Fail(AsciiArity, q)
        else Parsed(Ok(Dir(Directive(ASCII, AsciiOperands(ops[0].symbol)))), q)
      case EQU =>
        if |ops| != 2 then Fail(EquArity, q)
        else Parsed(Ok(Dir(CreateEqu(ops[0].symbol, ops[1].value))), q)
      case END => Parsed(Ok(Dir(CreateEnd())), q)
      case FILL =>
        if |ops| != 2 then Fail(FillArity, q)
        else Parsed(Ok(Dir(CreateFill(ops[0].value, ops[1].value))), q)
  }

  /** `parseDirective` with the dispatch corrected: the kind is the one `dirMap` names. */
  function DirectiveAt(toks: seq<Token>, pos: nat): (r: Parsed<Node>)
    requires pos < |toks|
    ensures pos < r.pos <= |toks|
  {
    var ops := OperandListAt(toks, pos + 1);
    if ops.result.Err? then Parsed(Err(ops.result.error), ops.pos)
    else BuildDirective(DirMap(KindAt(toks, pos)), ops.result.value, ops.pos)
  }

  /** `parseDirective` as written: the kind is `static_cast<Directive::Type>` of the token
      kind's enumerator value. */
  function DirectiveAtAsWritten(toks: seq<Token>, pos: nat): (r: Parsed<Node>)
    requires pos < |toks|
    ensures pos < r.pos <= |toks|
  {
    var ops := OperandListAt(toks, pos + 1);
    if ops.result.Err? then Parsed(Err(ops.result.error), ops.pos)
    else BuildDirective(DirKindOfOrdinal(KindAt(toks, pos) as nat), ops.result.value, ops.pos)
  }

  // ------------------------------------------------------------------ statements

  predicate StartsLabel(toks: seq<Token>, pos: nat)
  {
    KindAt(toks, pos) == Label && KindAt(toks, pos + 1) == Colon
  }

  /** `parseStatement`: a label, else an instruction, else a directive, else an error. */
  function StatementAt(toks: seq<Token>, pos: nat): (r: Parsed<Node>)
    requires pos <= |toks|
    ensures pos <= r.pos <= |toks|
    ensures r.result.Ok? || StartsLabel(toks, pos) ==> pos < r.pos
    decreases |toks| - pos, 1
  {
    if StartsLabel(toks, pos) then LabelAt(toks, pos)
    else if InstrMap(KindAt(toks, pos)).Some? then InstructionAt(toks, pos)
    else if DirMap(KindAt(toks, pos)).Some? then DirectiveAt(toks, pos)
    else Fail(UnexpectedToken(LexemeAt(toks, pos)), pos)
  }

  /** `parseLabel` with the colon consumed: the name, then the statement that follows unless
      the input ends there. Its `expect(COLON)` cannot fail, since `parseStatement` only
      calls it with a colon after the name. */
  function LabelAt(toks: seq<Token>, pos: nat): (r: Parsed<Node>)
    requires pos <= |toks| && StartsLabel(toks, pos)
    ensures pos < r.pos <= |toks|
    decreases |toks| - pos, 0
  {
    var name := LexemeAt(toks, pos);
    var p2 := pos + 2;
    if KindAt(toks, p2) == EndOfFile then Parsed(Ok(CreateLabel(name, None)), p2)
    else
      var s := StatementAt(toks, p2);
      if s.result.Err? then Parsed(Err(s.result.error), s.pos)
      else Parsed(Ok(CreateLabel(name, Some(s.result.value))), s.pos)
  }

  /** `parseLabel` as written: the colon is checked but not consumed, so the statement that
      is parsed next starts at the colon (which is not END_OF_FILE, so there always is one). */
  function LabelAtAsWritten(toks: seq<Token>, pos: nat): (r: Parsed<Node>)
    requires pos <= |toks| && StartsLabel(toks, pos)
    ensures pos < r.pos <= |toks|
  {
    var name := LexemeAt(toks, pos);
    var p1 := pos + 1;
    var s := StatementAt(toks, p1);
    if s.result.Err? then Parsed(Err(s.result.error), s.pos)
    else Parsed(Ok(CreateLabel(name, Some(s.result.value))), s.pos)
  }

  // ------------------------------------------------------------------ the program

  /** The recovery loop: skip tokens until a LABEL, END_OF_FILE or the end. */
  function Recover(toks: seq<Token>, pos: nat): (q: nat)
    requires pos <= |toks|
    ensures pos <= q <= |toks|
    ensures q == |toks| || KindAt(toks, q) in {EndOfFile, Label}
    ensures forall i :: pos <= i < q ==> KindAt(toks, i) !in {EndOfFile, Label}
    decreases |toks| - pos
  {
    if pos < |toks| && KindAt(toks, pos) != EndOfFile && KindAt(toks, pos) != Label then
      Recover(toks, pos + 1)
    else pos
  }

  /** How `parseProgram` ends: with a program; with an exception its `catch` does not
      handle; or never, because an iteration left the cursor where it found it, so every
      later iteration repeats it. */
  datatype ProgramOutcome = Done(program: Program) | Escaped(error: StoiError) | Spins(at: nat)

  predicate AtEnd(toks: seq<Token>, pos: nat)
  {
    pos >= |toks| || KindAt(toks, pos) == EndOfFile
  }

  /** The `parseProgram` loop from cursor `pos`, with `acc` the statements kept so far. */
  function ProgramFrom(toks: seq<Token>, pos: nat, acc: seq<Node>): (r: ProgramOutcome)
    requires pos <= |toks|
    ensures r.Spins? ==> pos <= r.at < |toks| && KindAt(toks, r.at) == Label && KindAt(toks, r.at + 1) != Colon
    decreases |toks| - pos
  {
    if AtEnd(toks, pos) then Done(Program(acc))
    else
      var s := StatementAt(toks, pos);
      match s.result
      case Ok(node) => ProgramFrom(toks, s.pos, acc + [node])
      case Err(StoiFailure(e)) => Escaped(e)
      case Err(SyntaxError(_)) =>
        var q := Recover(toks, s.pos);
        if q == pos then StrayLabel(toks, pos); Spins(pos) else ProgramFrom(toks, q, acc)
  }

  /** An iteration of `parseProgram` that fails and recovers to where it began started on
      a LABEL that no colon follows. */
  lemma StrayLabel(toks: seq<Token>, pos: nat)
    requires pos <= |toks| && !AtEnd(toks, pos)
    requires StatementAt(toks, pos).result.Err?
    requires Recover(toks, StatementAt(toks, pos).pos) == pos
    ensures pos < |toks| && KindAt(toks, pos) == Label && KindAt(toks, pos + 1) != Colon
  {
    var s := StatementAt(toks, pos);
    assert s.pos == pos;
    assert !StartsLabel(toks, pos);
  }

  /** `parseProgram` on a fresh parser. */
  function ParseProgram(toks: seq<Token>): ProgramOutcome
  {
    ProgramFrom(toks, 0, [])
  }
}
