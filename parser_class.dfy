/** The `Parser` object of parser.cpp: the token list and the cursor `currentPos`, which
    every parse method advances. Exceptions become `Err` results; the cursor stays where the
    throw left it. Every method is proved equal to its function in module `ParserSpec`. */
module ParserClass {
  import opened Common
  import opened Tokens
  import opened Ast
  import opened ParserSpec

  class Parser {
    const tokens: seq<Token>
    var currentPos: nat

    predicate Valid()
      reads this
    {
      currentPos <= |tokens|
    }

    constructor(tokens: seq<Token>)
      ensures this.tokens == tokens && currentPos == 0 && Valid()
    {
      this.tokens := tokens;
      currentPos := 0;
    }

    // currentToken(), peekToken() and match() are the reads KindAt(tokens, currentPos),
    // LexemeAt(tokens, currentPos) and KindAt(tokens, currentPos + 1) of ParserSpec.

    method Advance()
      requires Valid()
      modifies this
      ensures Valid()
      ensures old(currentPos) < |tokens| ==> currentPos == old(currentPos) + 1
      ensures old(currentPos) == |tokens| ==> currentPos == old(currentPos)
    {
      if currentPos < |tokens| {
        currentPos := currentPos + 1;
      }
    }

    method ParseAddressingMode() returns (r: Result<AddrMode, ParseError>)
      requires Valid()
      modifies this
      ensures Valid()
      ensures r == AddressingModeAt(tokens, old(currentPos)).result
      ensures currentPos == AddressingModeAt(tokens, old(currentPos)).pos
    {
      if KindAt(tokens, currentPos) == Hash {
        Advance();
        return Ok(Imm);
      }
      if KindAt(tokens, currentPos) == At {
        Advance();
        if KindAt(tokens, currentPos) == Hash {
          Advance();
          return Ok(Abs);
        }
        return Ok(Rel);
      }
      if KindAt(tokens, currentPos) == LParen {
        Advance();
        r := ParseDeferredMode();
        return;
      }
      if KindAt(tokens, currentPos) == Minus {
        Advance();
        r := ParseAutoDecMode();
        return;
      }
      if KindAt(tokens, currentPos) == Number {
        r := ParseIndexedMode();
        return;
      }
      if KindAt(tokens, currentPos) == Register { return Ok(Reg); }
      if KindAt(tokens, currentPos) == Label { return Ok(Rel); }
      return Err(SyntaxError(UnknownMode));
    }

    /** `(Rn)` and `(Rn)+` in `parseAddressingMode`, after the parenthesis. */
    method ParseDeferredMode() returns (r: Result<AddrMode, ParseError>)
      requires Valid()
      modifies this
      ensures Valid()
      ensures r == DeferredModeAt(tokens, old(currentPos)).result
      ensures currentPos == DeferredModeAt(tokens, old(currentPos)).pos
    {
      if KindAt(tokens, currentPos) != Register { return Err(Missing(tokens, currentPos, Register)); }
      Advance();
      if KindAt(tokens, currentPos) == Plus {
        Advance();
        if KindAt(tokens, currentPos) != RParen { return Err(Missing(tokens, currentPos, RParen)); }
        Advance();
        return Ok(AutoInc);
      }
      if KindAt(tokens, currentPos) != RParen { return Err(Missing(tokens, currentPos, RParen)); }
      Advance();
      return Ok(RegDef);
    }

    /** `-(Rn)` in `parseAddressingMode`, after the minus. */
    method ParseAutoDecMode() returns (r: Result<AddrMode, ParseError>)
      requires Valid()
      modifies this
      ensures Valid()
      ensures r == AutoDecModeAt(tokens, old(currentPos)).result
      ensures currentPos == AutoDecModeAt(tokens, old(currentPos)).pos
    {
      if KindAt(tokens, currentPos) != LParen { return Err(Missing(tokens, currentPos, LParen)); }
      Advance();
      if KindAt(tokens, currentPos) != Register { return Err(Missing(tokens, currentPos, Register)); }
      Advance();
      if KindAt(tokens, currentPos) != RParen { return Err(Missing(tokens, currentPos, RParen)); }
      Advance();
      return Ok(AutoDec);
    }

    /** `X(Rn)` in `parseAddressingMode`, at the number. */
    method ParseIndexedMode() returns (r: Result<AddrMode, ParseError>)
      requires Valid()
      modifies this
      ensures Valid()
      ensures r == IndexedModeAt(tokens, old(currentPos)).result
      ensures currentPos == IndexedModeAt(tokens, old(currentPos)).pos
    {
      var offset := NumberAt(tokens, currentPos);
      if offset.Err? { return Err(offset.error); }
      Advance();
      if KindAt(tokens, currentPos) != LParen { return Err(Missing(tokens, currentPos, LParen)); }
      Advance();
      if KindAt(tokens, currentPos) != Register { return Err(Missing(tokens, currentPos, Register)); }
      Advance();
      if KindAt(tokens, currentPos) != RParen { return Err(Missing(tokens, currentPos, RParen)); }
      Advance();
      return Ok(Indexed);
    }

    method ParseOperand() returns (r: Result<Operand, ParseError>)
      requires Valid()
      modifies this
      ensures Valid()
      ensures r == OperandAt(tokens, old(currentPos)).result
      ensures currentPos == OperandAt(tokens, old(currentPos)).pos
    {
      var m := ParseAddressingMode();
      if m.Err? { return Err(m.error); }
      var mode := m.value;
      var op := Fresh(mode);
      match mode {
        case Reg =>
          op := op.(reg := LexemeAt(tokens, currentPos));
          Advance();
        case Imm =>
          if KindAt(tokens, currentPos) != Number { return Err(Missing(tokens, currentPos, Number)); }
          var v := NumberAt(tokens, currentPos);
          if v.Err? { return Err(v.error); }
          op := op.(value := v.value);
          Advance();
        case Rel =>
          if KindAt(tokens, currentPos) != Label { return Err(Missing(tokens, currentPos, Label)); }
          op := op.(symbol := LexemeAt(tokens, currentPos));
          Advance();
        case Abs =>
          if KindAt(tokens, currentPos) != Number { return Err(Missing(tokens, currentPos, Number)); }
          var v := NumberAt(tokens, currentPos);
          if v.Err? { return Err(v.error); }
          op := op.(value := v.value);
          Advance();
        case RegDef =>
          r := ParseRegDefOperand();
          return;
        case AutoInc =>
          r := ParseAutoIncOperand();
          return;
        case AutoDec =>
          r := ParseAutoDecOperand();
          return;
        case Indexed =>
          r := ParseIndexedOperand();
          return;
      }
      return Ok(op);
    }

    /** The REG_DEF case of `parseOperand`. */
    method ParseRegDefOperand() returns (r: Result<Operand, ParseError>)
      requires Valid()
      modifies this
      ensures Valid()
      ensures r == RegDefBody(tokens, old(currentPos)).result
      ensures currentPos == RegDefBody(tokens, old(currentPos)).pos
    {
      if KindAt(tokens, currentPos) != Register { return Err(Missing(tokens, currentPos, Register)); }
      var op := Fresh(RegDef).(reg := LexemeAt(tokens, currentPos));
      Advance();
      if KindAt(tokens, currentPos) != RParen { return Err(Missing(tokens, currentPos, RParen)); }
      Advance();
      return Ok(op);
    }

    /** The AUTOINC case of `parseOperand`. */
    method ParseAutoIncOperand() returns (r: Result<Operand, ParseError>)
      requires Valid()
      modifies this
      ensures Valid()
      ensures r == AutoIncBody(tokens, old(currentPos)).result
      ensures currentPos == AutoIncBody(tokens, old(currentPos)).pos
    {
      if KindAt(tokens, currentPos) != Register { return Err(Missing(tokens, currentPos, Register)); }
      var op := Fresh(AutoInc).(reg := LexemeAt(tokens, currentPos));
      Advance();
      if KindAt(tokens, currentPos) != Plus { return Err(Missing(tokens, currentPos, Plus)); }
      Advance();
      if KindAt(tokens, currentPos) != RParen { return Err(Missing(tokens, currentPos, RParen)); }
      Advance();
      return Ok(op);
    }

    /** The AUTODEC case of `parseOperand`. */
    method ParseAutoDecOperand() returns (r: Result<Operand, ParseError>)
      requires Valid()
      modifies this
      ensures Valid()
      ensures r == AutoDecBody(tokens, old(currentPos)).result
      ensures currentPos == AutoDecBody(tokens, old(currentPos)).pos
    {
      if KindAt(tokens, currentPos) != Minus { return Err(Missing(tokens, currentPos, Minus)); }
      Advance();
      if KindAt(tokens, currentPos) != LParen { return Err(Missing(tokens, currentPos, LParen)); }
      Advance();
      if KindAt(tokens, currentPos) != Register { return Err(Missing(tokens, currentPos, Register)); }
      var op := Fresh(AutoDec).(reg := LexemeAt(tokens, currentPos));
      Advance();
      if KindAt(tokens, currentPos) != RParen { return Err(Missing(tokens, currentPos, RParen)); }
      Advance();
      return Ok(op);
    }

    /** The offset of an indexed operand; the cursor stays on it. */
    method ParseIndexOffset() returns (r: Result<Operand, ParseError>)
      requires Valid()
      ensures r == IndexOffsetAt(tokens, currentPos)
    {
      if KindAt(tokens, currentPos) == Number {
        var v := NumberAt(tokens, currentPos);
        if v.Err? { return Err(v.error); }
        return Ok(Fresh(Indexed).(value := v.value));
      } else if KindAt(tokens, currentPos) == Label {
        return Ok(Fresh(Indexed).(symbol := LexemeAt(tokens, currentPos)));
      }
      return Err(SyntaxError(NoOffset));
    }

    /** The INDEXED case of `parseOperand`. */
    method ParseIndexedOperand() returns (r: Result<Operand, ParseError>)
      requires Valid()
      modifies this
      ensures Valid()
      ensures r == IndexedBody(tokens, old(currentPos)).result
      ensures currentPos == IndexedBody(tokens, old(currentPos)).pos
    {
      var offset := ParseIndexOffset();
      if offset.Err? { return Err(offset.error); }
      var op := offset.value;
      Advance();
      if KindAt(tokens, currentPos) != LParen { return Err(Missing(tokens, currentPos, LParen)); }
      Advance();
      if KindAt(tokens, currentPos) != Register { return Err(Missing(tokens, currentPos, Register)); }
      op := op.(reg := LexemeAt(tokens, currentPos));
      Advance();
      if KindAt(tokens, currentPos) != RParen { return Err(Missing(tokens, currentPos, RParen)); }
      Advance();
      return Ok(op);
    }

    /** The operands of `parseInstruction`. */
    method ParseOperandPair() returns (r: Result<(Operand, Option<Operand>), ParseError>)
      requires Valid()
      modifies this
      ensures Valid()
      ensures r == OperandPairAt(tokens, old(currentPos)).result
      ensures currentPos == OperandPairAt(tokens, old(currentPos)).pos
    {
      var s := ParseOperand();
      if s.Err? { return Err(s.error); }
      r := ParseSecondOperand(s.value);
    }

    method ParseSecondOperand(first: Operand) returns (r: Result<(Operand, Option<Operand>), ParseError>)
      requires Valid()
      modifies this
      ensures Valid()
      ensures r == SecondOperandAt(tokens, first, old(currentPos)).result
      ensures currentPos == SecondOperandAt(tokens, first, old(currentPos)).pos
    {
      if KindAt(tokens, currentPos) != Comma { return Ok((first, None)); }
      Advance();
      var d := ParseOperand();
      if d.Err? { return Err(d.error); }
      return Ok((first, Some(d.value)));
    }

    method ParseInstruction() returns (r: Result<Node, ParseError>)
      requires Valid() && currentPos < |tokens|
      modifies this
      ensures Valid()
      ensures r == InstructionAt(tokens, old(currentPos)).result
      ensures currentPos == InstructionAt(tokens, old(currentPos)).pos
    {
      var kind := InstrKindOfOrdinal(KindAt(tokens, currentPos) as nat);
      Advance();
      r := ParseInstructionOperands(kind);
    }

    /** The operands and the `switch` of `parseInstruction`, once the mnemonic is consumed. */
    method ParseInstructionOperands(kind: Option<InstrKind>) returns (r: Result<Node, ParseError>)
      requires Valid()
      modifies this
      ensures Valid()
      ensures r == InstructionFor(tokens, kind, old(currentPos)).result
      ensures currentPos == InstructionFor(tokens, kind, old(currentPos)).pos
    {
      var src: Option<Operand> := None;
      var dst: Option<Operand> := None;
      if kind != Some(RTS) && kind != Some(HALT) {
        var o := ParseOperandPair();
        if o.Err? { return Err(o.error); }
        src := Some(o.value.0);
        dst := o.value.1;
      }
      r := AsStatement(BuildInstruction(kind, src, dst));
    }

    /** The operand loop of `parseDirective`. */
    method ParseOperandList() returns (r: Result<seq<Operand>, ParseError>)
      requires Valid()
      modifies this
      ensures Valid()
      ensures r == OperandListAt(tokens, old(currentPos)).result
      ensures currentPos == OperandListAt(tokens, old(currentPos)).pos
    {
      var operands: seq<Operand> := [];
      ghost var start := currentPos;
      PrependNothing(OperandListAt(tokens, currentPos));
      while KindAt(tokens, currentPos) != EndOfFile
        invariant Valid()
        invariant Prepend(operands, OperandListAt(tokens, currentPos)) == OperandListAt(tokens, start)
        decreases |tokens| - currentPos
      {
        ListStep(tokens, currentPos);
        var op := ParseOperand();
        if op.Err? { return Err(op.error); }
        if KindAt(tokens, currentPos) != Comma {
          PrependTwice(operands, [op.value], Parsed(Ok([]), currentPos));
          assert [op.value] + [] == [op.value];
          return Ok(operands + [op.value]);
        }
        PrependTwice(operands, [op.value], OperandListAt(tokens, currentPos + 1));
        operands := operands + [op.value];
        Advance();
      }
      assert operands + [] == operands;
      return Ok(operands);
    }

    method ParseDirective() returns (r: Result<Node, ParseError>)
      requires Valid() && currentPos < |tokens|
      modifies this
      ensures Valid()
      ensures r == DirectiveAt(tokens, old(currentPos)).result
      ensures currentPos == DirectiveAt(tokens, old(currentPos)).pos
    {
      var kind := DirMap(KindAt(tokens, currentPos));
      Advance();
      var ops := ParseOperandList();
      if ops.Err? { return Err(ops.error); }
      var operands := ops.value;
      match kind {
        case None => return Err(SyntaxError(UnsupportedDirective));
        case Some(k) =>
          match k {
            case WORD => return Ok(Dir(CreateWord(operands)));
            case BYTE => return Ok(Dir(CreateByte(operands)));
            case ASCII =>
              if |operands| == 0 { return Err(SyntaxError(AsciiArity)); }
              var d := CreateAscii(operands[0].symbol);
              CreateAsciiAgrees(operands[0].symbol, d);
              return Ok(Dir(d));
            case EQU =>
              if |operands| != 2 { return Err(SyntaxError(EquArity)); }
              return Ok(Dir(CreateEqu(operands[0].symbol, operands[1].value)));
            case END => return Ok(Dir(CreateEnd()));
            case FILL =>
              if |operands| != 2 { return Err(SyntaxError(FillArity)); }
              return Ok(Dir(CreateFill(operands[0].value, operands[1].value)));
          }
      }
    }

    method ParseStatement() returns (r: Result<Node, ParseError>)
      requires Valid()
      modifies this
      ensures Valid()
      ensures r == StatementAt(tokens, old(currentPos)).result
      ensures currentPos == StatementAt(tokens, old(currentPos)).pos
      decreases |tokens| - currentPos, 1
    {
      if KindAt(tokens, currentPos) == Label && KindAt(tokens, currentPos + 1) == Colon {
        r := ParseLabel();
        return;
      }
      if InstrMap(KindAt(tokens, currentPos)).Some? {
        r := ParseInstruction();
        return;
      }
      if DirMap(KindAt(tokens, currentPos)).Some? {
        r := ParseDirective();
        return;
      }
      return Err(SyntaxError(UnexpectedToken(LexemeAt(tokens, currentPos))));
    }

    /** `parseLabel`, with the colon consumed (see `LabelAt`); the second `advance` passes
        the colon that `parseStatement` saw. */
    method ParseLabel() returns (r: Result<Node, ParseError>)
      requires Valid() && StartsLabel(tokens, currentPos)
      modifies this
      ensures Valid()
      ensures r == LabelAt(tokens, old(currentPos)).result
      ensures currentPos == LabelAt(tokens, old(currentPos)).pos
      decreases |tokens| - currentPos, 0
    {
      var name := LexemeAt(tokens, currentPos);
      Advance();
      Advance();
      if KindAt(tokens, currentPos) == EndOfFile { return Ok(CreateLabel(name, None)); }
      var s := ParseStatement();
      if s.Err? { return Err(s.error); }
      return Ok(CreateLabel(name, Some(s.value)));
    }

    /** `parseProgram`. Where the source would repeat a failing statement forever (the
        recovery ends where the statement began), the loop stops and reports `Spins`. */
    method ParseProgram() returns (outcome: ProgramOutcome)
      requires Valid()
      modifies this
      ensures outcome == ProgramFrom(tokens, old(currentPos), [])
    {
      var statements: seq<Node> := [];
      while currentPos < |tokens| && KindAt(tokens, currentPos) != EndOfFile
        invariant Valid()
        invariant ProgramFrom(tokens, currentPos, statements) == ProgramFrom(tokens, old(currentPos), [])
        decreases |tokens| - currentPos
      {
        var begin := currentPos;
        var stmt := ParseStatement();
        match stmt {
          case Ok(node) =>
            statements := statements + [node];
          case Err(StoiFailure(e)) =>
            return Escaped(e);
          case Err(SyntaxError(_)) =>
            ghost var thrownAt := currentPos;
            while currentPos < |tokens| && KindAt(tokens, currentPos) != EndOfFile && KindAt(tokens, currentPos) != Label
              invariant Valid() && thrownAt <= currentPos
              invariant Recover(tokens, currentPos) == Recover(tokens, thrownAt)
              decreases |tokens| - currentPos
            {
              Advance();
            }
            if currentPos == begin { return Spins(begin); }
        }
      }
      return Done(Program(statements));
    }
  }
}
