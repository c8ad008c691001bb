/** What the parser accepts and builds. */
module ParserProps {
  import opened Common
  import opened Tokens
  import opened Ast
  import opened ParserSpec

  // ------------------------------------------------------------------ numbers

  /** A run of decimal digits that fits an `int` reads as its decimal value. */
  lemma StoiOfDigits(d: string)
    requires |d| > 0 && forall i :: 0 <= i < |d| ==> Lexer.IsDigit(d[i])
    requires DecimalValue(d) < 0x8000_0000
    ensures Stoi(d) == Ok(DecimalValue(d))
  {
    LeadingDigitsAll(d);
    DigitIsNoSpace(d);
    StoiOfScannedDigits(d);
  }

  lemma DigitIsNoSpace(d: string)
    requires |d| > 0 && Lexer.IsDigit(d[0])
    ensures DropSpaces(d) == d
  {
    assert !Lexer.IsSpace(d[0]);
  }

  lemma StoiOfScannedDigits(d: string)
    requires |d| > 0 && Lexer.IsDigit(d[0])
    requires LeadingDigits(d) == d && DropSpaces(d) == d
    requires DecimalValue(d) < 0x8000_0000
    ensures Stoi(d) == Ok(DecimalValue(d))
  {
    assert d[0] != '-' && d[0] != '+';
  }

  /** `std::stoi` reads the longest run of digits: a prefix, all digits, and not followed by one. */
  lemma {:induction false} LeadingDigitsRun(s: string)
    ensures var d := LeadingDigits(s);
            |d| <= |s| && d == s[..|d|]
            && (forall i :: 0 <= i < |d| ==> Lexer.IsDigit(d[i]))
            && (|d| < |s| ==> !Lexer.IsDigit(s[|d|]))
  {
    if |s| > 0 && Lexer.IsDigit(s[0]) {
      LeadingDigitsRun(s[1..]);
      var d := LeadingDigits(s[1..]);
      assert LeadingDigits(s) == [s[0]] + d;
      assert s[..1 + |d|] == [s[0]] + s[1..][..|d|];
    }
  }

  lemma {:induction false} LeadingDigitsAll(d: string)
    requires forall i :: 0 <= i < |d| ==> Lexer.IsDigit(d[i])
    ensures LeadingDigits(d) == d
  {
    if |d| > 0 {
      LeadingDigitsAll(d[1..]);
    }
  }

  /** The lexer's hexadecimal and octal literals have a two-character prefix; `std::stoi`
      stops at the letter, so each of them reads as 0. */
  lemma PrefixedLiteralsReadAsZero(rest: string)
    ensures Stoi("0x" + rest) == Ok(0)
    ensures Stoi("0o" + rest) == Ok(0)
  {
    assert ("0x" + rest)[0] == '0' && ("0x" + rest)[1] == 'x';
    assert ("0x" + rest)[1..][0] == 'x';
    assert LeadingDigits(("0x" + rest)[1..]) == [];
    assert LeadingDigits("0x" + rest) == "0";
    assert ("0o" + rest)[1..][0] == 'o';
    assert LeadingDigits(("0o" + rest)[1..]) == [];
    assert LeadingDigits("0o" + rest) == "0";
    assert "0"[..0] == [];
  }

  // ------------------------------------------------------------------ operands

  /** Every token shape `parseOperand` accepts, with the operand it builds and the cursor
      after it. Because `parseAddressingMode` already consumes a whole `(Rn)`, `(Rn)+`,
      `-(Rn)` or `X(Rn)` and `parseOperand` then reads the form again from the token after it,
      those four modes are only accepted with a second copy behind the first: `(R1) R2)`,
      `(R1+) R2+)`, `-(R1) -(R2)`, `4(R1) 6(R2)`; the second copy supplies the register and the
      offset. */
  predicate Form(toks: seq<Token>, pos: nat, op: Operand, q: nat)
  {
    match op.mode
    case Reg =>
      KindAt(toks, pos) == Register && q == pos + 1 && op == Operand(Reg, LexemeAt(toks, pos), 0, "")
    case Imm =>
      KindAt(toks, pos) == Hash && KindAt(toks, pos + 1) == Number && q == pos + 2
      && NumberAt(toks, pos + 1) == Ok(op.value) && op == Operand(Imm, "", op.value, "")
    case Abs =>
      KindAt(toks, pos) == At && KindAt(toks, pos + 1) == Hash && KindAt(toks, pos + 2) == Number && q == pos + 3
      && NumberAt(toks, pos + 2) == Ok(op.value) && op == Operand(Abs, "", op.value, "")
    case Rel =>
      (KindAt(toks, pos) == Label && q == pos + 1 && op == Operand(Rel, "", 0, LexemeAt(toks, pos)))
      || (KindAt(toks, pos) == At && KindAt(toks, pos + 1) == Label && q == pos + 2
          && op == Operand(Rel, "", 0, LexemeAt(toks, pos + 1)))
    case RegDef =>
      RegisterInParens(toks, pos) && KindAt(toks, pos + 3) == Register && KindAt(toks, pos + 4) == RParen
      && q == pos + 5
      && op == Operand(RegDef, LexemeAt(toks, pos + 3), 0, "")
    case AutoInc =>
      RegisterPlusInParens(toks, pos) && KindAt(toks, pos + 4) == Register
      && KindAt(toks, pos + 5) == Plus && KindAt(toks, pos + 6) == RParen && q == pos + 7
      && op == Operand(AutoInc, LexemeAt(toks, pos + 4), 0, "")
    case AutoDec =>
      KindAt(toks, pos) == Minus && RegisterInParens(toks, pos + 1)
      && KindAt(toks, pos + 4) == Minus && RegisterInParens(toks, pos + 5) && q == pos + 8
      && op == Operand(AutoDec, LexemeAt(toks, pos + 6), 0, "")
    case Indexed =>
      KindAt(toks, pos) == Number && NumberAt(toks, pos).Ok? && RegisterInParens(toks, pos + 1)
      && RegisterInParens(toks, pos + 5) && q == pos + 8 && op.reg == LexemeAt(toks, pos + 6)
      && ((KindAt(toks, pos + 4) == Number && NumberAt(toks, pos + 4) == Ok(op.value) && op.symbol == "")
          || (KindAt(toks, pos + 4) == Label && op.value == 0 && op.symbol == LexemeAt(toks, pos + 4)))
  }

  /** `( REGISTER )` from `pos` on. */
  predicate RegisterInParens(toks: seq<Token>, pos: nat)
  {
    KindAt(toks, pos) == LParen && KindAt(toks, pos + 1) == Register && KindAt(toks, pos + 2) == RParen
  }

  /** `( REGISTER + )` from `pos` on. */
  predicate RegisterPlusInParens(toks: seq<Token>, pos: nat)
  {
    KindAt(toks, pos) == LParen && KindAt(toks, pos + 1) == Register
    && KindAt(toks, pos + 2) == Plus && KindAt(toks, pos + 3) == RParen
  }

  lemma OperandAccepts(toks: seq<Token>, pos: nat)
    requires pos <= |toks|
    ensures var r := OperandAt(toks, pos); r.result.Ok? ==> Form(toks, pos, r.result.value, r.pos)
  {
    var m := AddressingModeAt(toks, pos);
    if m.result.Ok? {
      match m.result.value
      case Reg => SimpleAccepts(toks, pos);
      case Imm => SimpleAccepts(toks, pos);
      case Abs => SimpleAccepts(toks, pos);
      case Rel => SimpleAccepts(toks, pos);
      case RegDef => RegDefAccepts(toks, pos);
      case AutoInc => AutoIncAccepts(toks, pos);
      case AutoDec => AutoDecAccepts(toks, pos);
      case Indexed => IndexedAccepts(toks, pos);
    }
  }

  lemma SimpleAccepts(toks: seq<Token>, pos: nat)
    requires pos <= |toks| && AddressingModeAt(toks, pos).result.Ok?
    requires AddressingModeAt(toks, pos).result.value in {Reg, Imm, Abs, Rel}
    ensures var r := OperandAt(toks, pos); r.result.Ok? ==> Form(toks, pos, r.result.value, r.pos)
  {
  }

  lemma RegDefAccepts(toks: seq<Token>, pos: nat)
    requires pos <= |toks| && AddressingModeAt(toks, pos).result == Ok(RegDef)
    ensures var r := OperandAt(toks, pos); r.result.Ok? ==> Form(toks, pos, r.result.value, r.pos)
  {
    assert RegisterInParens(toks, pos) && AddressingModeAt(toks, pos).pos == pos + 3;
  }

  lemma AutoIncAccepts(toks: seq<Token>, pos: nat)
    requires pos <= |toks| && AddressingModeAt(toks, pos).result == Ok(AutoInc)
    ensures var r := OperandAt(toks, pos); r.result.Ok? ==> Form(toks, pos, r.result.value, r.pos)
  {
    assert RegisterPlusInParens(toks, pos) && AddressingModeAt(toks, pos).pos == pos + 4;
  }

  lemma AutoDecAccepts(toks: seq<Token>, pos: nat)
    requires pos <= |toks| && AddressingModeAt(toks, pos).result == Ok(AutoDec)
    ensures var r := OperandAt(toks, pos); r.result.Ok? ==> Form(toks, pos, r.result.value, r.pos)
  {
    assert KindAt(toks, pos) == Minus && RegisterInParens(toks, pos + 1);
    assert AddressingModeAt(toks, pos).pos == pos + 4;
  }

  lemma IndexedAccepts(toks: seq<Token>, pos: nat)
    requires pos <= |toks| && AddressingModeAt(toks, pos).result == Ok(Indexed)
    ensures var r := OperandAt(toks, pos); r.result.Ok? ==> Form(toks, pos, r.result.value, r.pos)
  {
    assert KindAt(toks, pos) == Number && RegisterInParens(toks, pos + 1);
    assert AddressingModeAt(toks, pos).pos == pos + 4;
  }

  lemma OperandFormAccepted(toks: seq<Token>, pos: nat, op: Operand, q: nat)
    requires pos <= |toks| && Form(toks, pos, op, q)
    ensures OperandAt(toks, pos) == Parsed(Ok(op), q)
  {
    match op.mode
    case Reg =>
    case Imm =>
    case Abs =>
    case Rel =>
    case RegDef => RegDefFormAccepted(toks, pos, op, q);
    case AutoInc => AutoIncFormAccepted(toks, pos, op, q);
    case AutoDec => AutoDecFormAccepted(toks, pos, op, q);
    case Indexed => IndexedFormAccepted(toks, pos, op, q);
  }

  lemma RegDefFormAccepted(toks: seq<Token>, pos: nat, op: Operand, q: nat)
    requires pos <= |toks| && op.mode == RegDef && Form(toks, pos, op, q)
    ensures OperandAt(toks, pos) == Parsed(Ok(op), q)
  {
    assert AddressingModeAt(toks, pos) == Parsed(Ok(RegDef), pos + 3);
  }

  lemma AutoIncFormAccepted(toks: seq<Token>, pos: nat, op: Operand, q: nat)
    requires pos <= |toks| && op.mode == AutoInc && Form(toks, pos, op, q)
    ensures OperandAt(toks, pos) == Parsed(Ok(op), q)
  {
    assert AddressingModeAt(toks, pos) == Parsed(Ok(AutoInc), pos + 4);
  }

  lemma AutoDecFormAccepted(toks: seq<Token>, pos: nat, op: Operand, q: nat)
    requires pos <= |toks| && op.mode == AutoDec && Form(toks, pos, op, q)
    ensures OperandAt(toks, pos) == Parsed(Ok(op), q)
  {
    assert AddressingModeAt(toks, pos) == Parsed(Ok(AutoDec), pos + 4);
  }

  lemma IndexedFormAccepted(toks: seq<Token>, pos: nat, op: Operand, q: nat)
    requires pos <= |toks| && op.mode == Indexed && Form(toks, pos, op, q)
    ensures OperandAt(toks, pos) == Parsed(Ok(op), q)
  {
    assert AddressingModeAt(toks, pos) == Parsed(Ok(Indexed), pos + 4);
  }

  // ------------------------------------------------------------------ instructions

  /** The `static_cast` in `parseInstruction` is harmless: the mnemonics lead both
      enumerations in the same order, so it yields the kind `instrMap` names. */
  lemma InstructionCastAgrees(k: TokenKind)
    requires IsMnemonic(k)
    ensures InstrKindOfOrdinal(k as nat) == InstrMap(k)
  {
  }

  /** RTS and HALT consume only the mnemonic. */
  lemma InstructionWithoutOperands(toks: seq<Token>, pos: nat)
    requires pos < |toks| && KindAt(toks, pos) in {Rts, Halt}
    ensures InstructionAt(toks, pos) == Parsed(Ok(Instr(Instruction(InstrMap(KindAt(toks, pos)).value, None, None))), pos + 1)
  {
    InstructionCastAgrees(KindAt(toks, pos));
  }

  /** The operand pair: one operand, and a second one exactly when a comma follows. */
  lemma OperandPairShape(toks: seq<Token>, p: nat)
    requires p <= |toks|
    ensures var r := OperandPairAt(toks, p);
            var s := OperandAt(toks, p);
            var comma := s.result.Ok? && KindAt(toks, s.pos) == Comma;
            var d := OperandAt(toks, Next(toks, s.pos));
            (r.result.Ok? <==> s.result.Ok? && (comma ==> d.result.Ok?))
            && (r.result.Ok? ==>
                  r.result.value.0 == s.result.value
                  && r.result.value.1 == (if comma then Some(d.result.value) else None)
                  && r.pos == (if comma then d.pos else s.pos))
  {
  }

  lemma BuildsEveryKind(k: InstrKind, src: Option<Operand>, dst: Option<Operand>)
    ensures BuildInstruction(Some(k), src, dst).Ok?
  {
  }

  /** Every other mnemonic takes an operand pair, and fails exactly when the pair does. */
  lemma InstructionOperands(toks: seq<Token>, pos: nat)
    requires pos < |toks| && IsMnemonic(KindAt(toks, pos)) && KindAt(toks, pos) !in {Rts, Halt}
    ensures var r := InstructionAt(toks, pos);
            var o := OperandPairAt(toks, pos + 1);
            r.pos == o.pos && (r.result.Ok? <==> o.result.Ok?)
  {
    var k := InstrMap(KindAt(toks, pos)).value;
    InstructionCastAgrees(KindAt(toks, pos));
    var o := OperandPairAt(toks, pos + 1);
    if o.result.Ok? {
      BuildsEveryKind(k, Some(o.result.value.0), o.result.value.1);
    }
  }

  /** The operands a parsed instruction keeps: the two-operand kinds keep both, the
      one-operand kinds (CLR, COM, INC, DEC, NEG) keep only the one after the comma, and JSR
      and JMP keep the label of the first as a relative destination. */
  lemma InstructionKeeps(toks: seq<Token>, pos: nat)
    requires pos < |toks| && IsMnemonic(KindAt(toks, pos)) && KindAt(toks, pos) !in {Rts, Halt}
    requires InstructionAt(toks, pos).result.Ok?
    ensures OperandPairAt(toks, pos + 1).result.Ok?
    ensures var k := InstrMap(KindAt(toks, pos)).value;
            var n := InstructionAt(toks, pos).result.value;
            var src := OperandPairAt(toks, pos + 1).result.value.0;
            var dst := OperandPairAt(toks, pos + 1).result.value.1;
            n.Instr? && n.instr.kind == k
            && (k in {MOV, CMP, ADD, SUB} ==> n.instr.src == Some(src) && n.instr.dst == dst)
            && (k in {CLR, COM, INC, DEC, NEG} ==> n.instr.src == None && n.instr.dst == dst)
            && (k in {JSR, JMP} ==> n.instr.src == None && n.instr.dst == Some(Operand(Rel, "", 0, src.symbol)))
  {
    InstructionCastAgrees(KindAt(toks, pos));
  }

  /** `CLR R0` parses, but loses its operand: a one-operand instruction written the usual
      way has no destination. */
  lemma ClrWithoutCommaHasNoDestination(r0: Token, eof: Token)
    requires r0.kind == Register && eof.kind == EndOfFile
    ensures var toks := [Token(Clr, "CLR", 1, 1), r0, eof];
            InstructionAt(toks, 0) == Parsed(Ok(Instr(Instruction(CLR, None, None))), 2)
  {
    var toks := [Token(Clr, "CLR", 1, 1), r0, eof];
    assert OperandAt(toks, 1) == Parsed(Ok(Operand(Reg, r0.lexeme, 0, "")), 2);
  }

  // ------------------------------------------------------------------ directives

  /** What `parseDirective` (with the corrected dispatch) builds from the operand list:
      .WORD and .BYTE keep the operands, .END drops them, .ASCII needs at least one and
      .EQU and .FILL exactly two. */
  lemma DirectiveShape(toks: seq<Token>, pos: nat)
    requires pos < |toks| && DirMap(KindAt(toks, pos)).Some?
    ensures var k := DirMap(KindAt(toks, pos)).value;
            var ops := OperandListAt(toks, pos + 1);
            var r := DirectiveAt(toks, pos);
            r.pos == ops.pos
            && (ops.result.Err? ==> r.result == Err(ops.result.error))
            && (ops.result.Ok? ==>
                  var n := |ops.result.value|;
                  (r.result.Ok? <==> (k in {EQU, FILL} ==> n == 2) && (k == ASCII ==> n > 0))
                  && (r.result.Ok? ==>
                        r.result.value.Dir? && r.result.value.dir.kind == k
                        && (k in {WORD, BYTE} ==> r.result.value.dir.operands == ops.result.value)
                        && (k == END ==> r.result.value.dir.operands == [])
                        && (k == ASCII ==> r.result.value.dir.operands == AsciiOperands(ops.result.value[0].symbol))))
  {
  }

  /** The directive token kinds come after the mnemonics, registers, numbers and labels, so
      their enumerator values are past the last `Directive::Type`. */
  lemma DirectiveCastNeverMatches(k: TokenKind)
    requires DirMap(k).Some?
    ensures DirKindOfOrdinal(k as nat) == None
  {
  }

  /** As written, `parseDirective` rejects every directive. */
  lemma DirectiveAsWrittenRejects(toks: seq<Token>, pos: nat)
    requires pos < |toks| && DirMap(KindAt(toks, pos)).Some?
    ensures DirectiveAtAsWritten(toks, pos).result.Err?
    ensures OperandListAt(toks, pos + 1).result.Ok? ==>
              DirectiveAtAsWritten(toks, pos).result == Err(SyntaxError(UnsupportedDirective))
  {
    DirectiveCastNeverMatches(KindAt(toks, pos));
  }

  /** `.WORD #5` is a case in point: a well-formed operand list, rejected as written, kept
      once corrected. */
  lemma WordDirectiveExample(w: Token, eof: Token)
    requires w.kind == DirectiveWord && eof.kind == EndOfFile
    ensures var toks := [w, Token(Hash, "#", 1, 7), Token(Number, "5", 1, 8), eof];
            DirectiveAtAsWritten(toks, 0) == Parsed(Err(SyntaxError(UnsupportedDirective)), 3)
            && DirectiveAt(toks, 0) == Parsed(Ok(Dir(Directive(WORD, [Operand(Imm, "", 5, "")]))), 3)
  {
    WordOperands([w, Token(Hash, "#", 1, 7), Token(Number, "5", 1, 8), eof]);
  }

  /** The operand list of `.WORD #5`. */
  lemma WordOperands(toks: seq<Token>)
    requires |toks| == 4 && toks[1] == Token(Hash, "#", 1, 7) && toks[2] == Token(Number, "5", 1, 8)
    requires toks[3].kind == EndOfFile
    ensures OperandListAt(toks, 1) == Parsed(Ok([Operand(Imm, "", 5, "")]), 3)
  {
    FiveReadsAsFive();
    assert NumberAt(toks, 2) == Ok(5);
    assert OperandAt(toks, 1) == Parsed(Ok(Operand(Imm, "", 5, "")), 3);
  }

  lemma FiveReadsAsFive()
    ensures Stoi("5") == Ok(5)
  {
    assert Lexer.IsDigit("5"[0]);
    assert DecimalValue("5") == 5 by { assert "5"[..0] == []; }
    StoiOfDigits("5");
  }

  // ------------------------------------------------------------------ labels

  /** As written, `parseLabel` hands the colon to `parseStatement`, which has no case for
      it: every labelled statement, and every bare label, is an error. */
  lemma LabelAsWrittenRejects(toks: seq<Token>, pos: nat)
    requires pos <= |toks| && StartsLabel(toks, pos)
    ensures LabelAtAsWritten(toks, pos) == Parsed(Err(SyntaxError(UnexpectedToken(LexemeAt(toks, pos + 1)))), pos + 1)
  {
  }

  /** With the colon consumed, a label carries the statement after it, or nothing at the end
      of the input, and fails only if that statement fails. */
  lemma LabelShape(toks: seq<Token>, pos: nat)
    requires pos <= |toks| && StartsLabel(toks, pos)
    ensures var r := LabelAt(toks, pos);
            var s := StatementAt(toks, pos + 2);
            (KindAt(toks, pos + 2) == EndOfFile ==> r == Parsed(Ok(Lbl(LexemeAt(toks, pos), None)), pos + 2))
            && (KindAt(toks, pos + 2) != EndOfFile ==>
                  r.pos == s.pos
                  && (s.result.Ok? ==> r.result == Ok(Lbl(LexemeAt(toks, pos), Some(s.result.value))))
                  && (s.result.Err? ==> r.result == Err(s.result.error)))
  {
  }

  // ------------------------------------------------------------------ the program

  /** The cursors at which the `parseProgram` loop, started at `pos`, begins a statement that
      parses, in the order the loop reaches them. */
  function ParsedStarts(toks: seq<Token>, pos: nat): seq<nat>
    requires pos <= |toks|
    decreases |toks| - pos
  {
    if AtEnd(toks, pos) then []
    else
      var s := StatementAt(toks, pos);
      match s.result
      case Ok(_) => [pos] + ParsedStarts(toks, s.pos)
      case Err(StoiFailure(_)) => []
      case Err(SyntaxError(_)) =>
        var q := Recover(toks, s.pos);
        if q == pos then [] else ParsedStarts(toks, q)
  }

  /** `parseStatement` succeeds at cursor `p`. */
  predicate ParsesAt(toks: seq<Token>, p: nat)
  {
    p < |toks| && StatementAt(toks, p).result.Ok?
  }

  /** Every cursor in `ps` is at least `lo` and starts a statement that parses. */
  predicate ParsingStarts(toks: seq<Token>, ps: seq<nat>, lo: nat)
  {
    forall k :: 0 <= k < |ps| ==> lo <= ps[k] && ParsesAt(toks, ps[k])
  }

  predicate Increasing(ps: seq<nat>)
  {
    forall k :: 0 <= k < |ps| - 1 ==> ps[k] < ps[k + 1]
  }

  /** Every cursor in `ps` starts a statement that parses. */
  predicate AllParse(toks: seq<Token>, ps: seq<nat>)
  {
    ps == [] || (ParsesAt(toks, ps[0]) && AllParse(toks, ps[1..]))
  }

  /** The statements that `parseStatement` returns at the cursors of `ps`, in order. */
  function StatementsAt(toks: seq<Token>, ps: seq<nat>): (sts: seq<Node>)
    requires AllParse(toks, ps)
    ensures |sts| == |ps|
  {
    if ps == [] then [] else [StatementAt(toks, ps[0]).result.value] + StatementsAt(toks, ps[1..])
  }

  /** `st` is `acc` followed by the statement parsed at each cursor of `ps`, in order. */
  predicate KeepsStatementsAt(toks: seq<Token>, st: seq<Node>, acc: seq<Node>, ps: seq<nat>)
  {
    AllParse(toks, ps) && st == acc + StatementsAt(toks, ps)
  }

  lemma ConsParsingStart(toks: seq<Token>, pos: nat, rest: seq<nat>, lo: nat)
    requires ParsesAt(toks, pos) && pos < lo
    requires ParsingStarts(toks, rest, lo) && Increasing(rest)
    ensures ParsingStarts(toks, [pos] + rest, pos) && Increasing([pos] + rest)
  {
    var ps := [pos] + rest;
    forall k | 0 <= k < |ps|
      ensures pos <= ps[k] && ParsesAt(toks, ps[k])
    {
      if k > 0 {
        assert ps[k] == rest[k - 1];
      }
    }
    forall k | 0 <= k < |ps| - 1
      ensures ps[k] < ps[k + 1]
    {
      assert ps[k + 1] == rest[k];
      if k > 0 {
        assert ps[k] == rest[k - 1];
      }
    }
  }

  /** The cursors at which statements parse lie inside the token list, strictly increase, and
      are cursors at which `parseStatement` succeeds. */
  lemma {:induction false} ParsedStartsOrdered(toks: seq<Token>, pos: nat)
    requires pos <= |toks|
    ensures ParsingStarts(toks, ParsedStarts(toks, pos), pos) && Increasing(ParsedStarts(toks, pos))
    decreases |toks| - pos
  {
    if !AtEnd(toks, pos) {
      var s := StatementAt(toks, pos);
      match s.result
      case Ok(node) =>
        var rest := ParsedStarts(toks, s.pos);
        assert ParsedStarts(toks, pos) == [pos] + rest;
        ParsedStartsOrdered(toks, s.pos);
        ConsParsingStart(toks, pos, rest, s.pos);
      case Err(StoiFailure(e)) =>
      case Err(SyntaxError(_)) =>
        var q := Recover(toks, s.pos);
        if q != pos {
          assert ParsedStarts(toks, pos) == ParsedStarts(toks, q);
          ParsedStartsOrdered(toks, q);
          assert ParsingStarts(toks, ParsedStarts(toks, pos), pos);
        }
    }
  }

  lemma AllParseCons(toks: seq<Token>, pos: nat, rest: seq<nat>)
    requires ParsesAt(toks, pos) && AllParse(toks, rest)
    ensures AllParse(toks, [pos] + rest)
  {
    assert ([pos] + rest)[1..] == rest;
  }

  lemma StatementsCons(toks: seq<Token>, pos: nat, rest: seq<nat>)
    requires ParsesAt(toks, pos) && AllParse(toks, rest) && AllParse(toks, [pos] + rest)
    ensures StatementsAt(toks, [pos] + rest) == [StatementAt(toks, pos).result.value] + StatementsAt(toks, rest)
  {
    assert ([pos] + rest)[1..] == rest;
  }

  lemma Regroup(acc: seq<Node>, node: Node, tail: seq<Node>)
    ensures acc + [node] + tail == acc + ([node] + tail)
  {
  }

  /** The inductive step of `ProgramKeepsParsedStatements` for a statement that parses. */
  lemma KeptAfter(toks: seq<Token>, st: seq<Node>, acc: seq<Node>, pos: nat, node: Node, rest: seq<nat>)
    requires ParsesAt(toks, pos) && StatementAt(toks, pos).result == Ok(node)
    requires KeepsStatementsAt(toks, st, acc + [node], rest)
    ensures KeepsStatementsAt(toks, st, acc, [pos] + rest)
  {
    AllParseCons(toks, pos, rest);
    StatementsCons(toks, pos, rest);
    var tail := StatementsAt(toks, rest);
    assert StatementsAt(toks, [pos] + rest) == [node] + tail;
    Regroup(acc, node, tail);
  }

  /** The program is the statements kept before, followed by the statement parsed at each of
      those cursors, in order; a statement that throws adds nothing. */
  lemma {:induction false} ProgramKeepsParsedStatements(toks: seq<Token>, pos: nat, acc: seq<Node>)
    requires pos <= |toks|
    ensures ProgramFrom(toks, pos, acc).Done? ==>
      KeepsStatementsAt(toks, ProgramFrom(toks, pos, acc).program.statements, acc, ParsedStarts(toks, pos))
    decreases |toks| - pos
  {
    if !AtEnd(toks, pos) {
      var s := StatementAt(toks, pos);
      match s.result
      case Ok(node) =>
        var rest := ParsedStarts(toks, s.pos);
        assert ParsedStarts(toks, pos) == [pos] + rest;
        assert ProgramFrom(toks, pos, acc) == ProgramFrom(toks, s.pos, acc + [node]);
        ProgramKeepsParsedStatements(toks, s.pos, acc + [node]);
        if ProgramFrom(toks, pos, acc).Done? {
          KeptAfter(toks, ProgramFrom(toks, pos, acc).program.statements, acc, pos, node, rest);
        }
      case Err(StoiFailure(e)) =>
      case Err(SyntaxError(_)) =>
        var q := Recover(toks, s.pos);
        if q != pos {
          assert ParsedStarts(toks, pos) == ParsedStarts(toks, q);
          ProgramKeepsParsedStatements(toks, q, acc);
        }
    }
  }

  /** A finished program holds exactly the statements that parsed, in the order of their
      strictly increasing cursors, each as `parseStatement` returned it. */
  lemma ProgramIsParsedStatements(toks: seq<Token>)
    ensures var ps := ParsedStarts(toks, 0);
      && ParsingStarts(toks, ps, 0) && Increasing(ps)
      && (ParseProgram(toks).Done? ==> KeepsStatementsAt(toks, ParseProgram(toks).program.statements, [], ps))
  {
    ParsedStartsOrdered(toks, 0);
    ProgramKeepsParsedStatements(toks, 0, []);
  }

  /** Statements are only ever appended. */
  lemma {:induction false} ProgramKeepsPrefix(toks: seq<Token>, pos: nat, acc: seq<Node>)
    requires pos <= |toks|
    ensures ProgramFrom(toks, pos, acc).Done? ==> acc <= ProgramFrom(toks, pos, acc).program.statements
    decreases |toks| - pos
  {
    if !AtEnd(toks, pos) {
      var s := StatementAt(toks, pos);
      match s.result
      case Ok(node) =>
        ProgramKeepsPrefix(toks, s.pos, acc + [node]);
      case Err(StoiFailure(e)) =>
      case Err(SyntaxError(_)) =>
        var q := Recover(toks, s.pos);
        if q != pos {
          ProgramKeepsPrefix(toks, q, acc);
        }
    }
  }

  /** `parseProgram` loops forever only at a LABEL that is not followed by a colon (the
      contract of `ProgramFrom`), and always does at one, since the statement fails
      without moving and the recovery stops at the same LABEL. */
  lemma StrayLabelSpins(toks: seq<Token>, pos: nat, acc: seq<Node>)
    requires pos < |toks| && KindAt(toks, pos) == Label && KindAt(toks, pos + 1) != Colon
    ensures ProgramFrom(toks, pos, acc) == Spins(pos)
  {
  }

  /** `FOO HALT`: the label without a colon is never left. */
  lemma StrayLabelExample()
    ensures ParseProgram([Token(Label, "FOO", 1, 1), Token(Halt, "HALT", 1, 5), Token(EndOfFile, "", 1, 9)]) == Spins(0)
  {
    StrayLabelSpins([Token(Label, "FOO", 1, 1), Token(Halt, "HALT", 1, 5), Token(EndOfFile, "", 1, 9)], 0, []);
  }

  /** `L1: HALT` with the corrected label. */
  const LabelledHalt: seq<Token> :=
    [Token(Label, "L1", 1, 1), Token(Colon, ":", 1, 3), Token(Halt, "HALT", 1, 5), Token(EndOfFile, "", 1, 9)]

  lemma LabelledHaltBody()
    ensures StatementAt(LabelledHalt, 2) == Parsed(Ok(Instr(Instruction(HALT, None, None))), 3)
  {
    InstructionWithoutOperands(LabelledHalt, 2);
  }

  lemma LabelledHaltStatement()
    ensures StatementAt(LabelledHalt, 0) == Parsed(Ok(Lbl("L1", Some(Instr(Instruction(HALT, None, None))))), 3)
  {
    LabelledHaltBody();
  }

  lemma LabelledHaltExample()
    ensures ParseProgram(LabelledHalt) == Done(Program([Lbl("L1", Some(Instr(Instruction(HALT, None, None))))]))
  {
    LabelledHaltStatement();
    var node := Lbl("L1", Some(Instr(Instruction(HALT, None, None))));
    assert ProgramFrom(LabelledHalt, 3, [node]) == Done(Program([node]));
    assert [] + [node] == [node];
    assert !AtEnd(LabelledHalt, 0);
  }

  /** `MOV #5, R0`. */
  const MoveImmediate: seq<Token> :=
    [Token(Mov, "MOV", 1, 1), Token(Hash, "#", 1, 5), Token(Number, "5", 1, 6),
     Token(Comma, ",", 1, 7), Token(Register, "R0", 1, 9), Token(EndOfFile, "", 1, 11)]

  lemma MoveImmediateSource()
    ensures OperandAt(MoveImmediate, 1) == Parsed(Ok(Operand(Imm, "", 5, "")), 3)
  {
    FiveReadsAsFive();
    OperandFormAccepted(MoveImmediate, 1, Operand(Imm, "", 5, ""), 3);
  }

  lemma MoveImmediateDestination()
    ensures OperandAt(MoveImmediate, 4) == Parsed(Ok(Operand(Reg, "R0", 0, "")), 5)
  {
    OperandFormAccepted(MoveImmediate, 4, Operand(Reg, "R0", 0, ""), 5);
  }

  lemma MoveImmediateOperands()
    ensures OperandPairAt(MoveImmediate, 1) == Parsed(Ok((Operand(Imm, "", 5, ""), Some(Operand(Reg, "R0", 0, "")))), 5)
  {
    MoveImmediateSource();
    MoveImmediateDestination();
  }

  lemma MoveImmediateStatement()
    ensures StatementAt(MoveImmediate, 0)
            == Parsed(Ok(Instr(Instruction(MOV, Some(Operand(Imm, "", 5, "")), Some(Operand(Reg, "R0", 0, ""))))), 5)
  {
    MoveImmediateOperands();
    assert !StartsLabel(MoveImmediate, 0);
  }

  lemma MoveImmediateExample()
    ensures ParseProgram(MoveImmediate)
            == Done(Program([Instr(Instruction(MOV, Some(Operand(Imm, "", 5, "")), Some(Operand(Reg, "R0", 0, ""))))]))
  {
    MoveImmediateStatement();
    var node := Instr(Instruction(MOV, Some(Operand(Imm, "", 5, "")), Some(Operand(Reg, "R0", 0, ""))));
    assert ProgramFrom(MoveImmediate, 5, [node]) == Done(Program([node]));
    assert [] + [node] == [node];
    assert !AtEnd(MoveImmediate, 0);
  }
}
