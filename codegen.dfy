/** The second pass of codegen.cpp: a walk over the statements that appends 16-bit machine words
    to `output`. The specification functions say which words each statement appends and which
    exception, if any, stops the walk; the `CodeGenerator` class appends them as the source
    does. */
module CodeGen {
  import opened Common
  import opened Lexer
  import opened Ast

  /** The exceptions of codegen.cpp, plus the null operand that `JSR` and `RTS` read. */
  datatype GenError =
    | InvalidRegister(reg: string)
    | ImmediateDestination
    | MissingOperand
    | JmpNeedsDestination

  // ---------------------------------------------------------------- operand fields

  /** `encodeRegister`: `PC` is 7, `SP` is 6, and `R` with one decimal digit is that digit. */
  function RegisterCode(reg: string): (r: Result<Word, GenError>)
    ensures r.Ok? <==> reg == "PC" || reg == "SP" || (|reg| == 2 && reg[0] == 'R' && IsDigit(reg[1]))
    ensures r.Ok? ==> r.value < 10
    ensures r.Err? ==> r.error == InvalidRegister(reg)
  {
    if reg == "PC" then Ok(7)
    else if reg == "SP" then Ok(6)
    else if |reg| > 0 && reg[0] == 'R' && |reg| == 2 && IsDigit(reg[1]) then Ok(reg[1] as int - '0' as int)
    else Err(InvalidRegister(reg))
  }

  /** The bits that `encodeOperand` ORs onto the register for a register-based mode:
      octal 00, 010, 020, 040 and 060 for modes 0, 1, 2, 4 and 6 of the PDP-11. */
  function RegisterModeBits(mode: AddrMode): Word
    requires mode in {Reg, RegDef, AutoInc, AutoDec, Indexed}
  {
    match mode
    case Reg => 0
    case RegDef => 8
    case AutoInc => 16
    case AutoDec => 32
    case Indexed => 48
  }

  /** The six-bit operand field that `encodeOperand` returns. `#n`, `@#a` and `a` are the
      PC-based forms: octal 027, 037 and 067. An immediate destination is refused. */
  function OperandField(op: Operand, isSrc: bool): (r: Result<Word, GenError>)
    ensures r.Ok? ==> r.value < 64
  {
    match op.mode
    case Imm => if isSrc then Ok(23) else Err(ImmediateDestination)
    case Rel => Ok(55)
    case Abs => Ok(31)
    case _ =>
      match RegisterCode(op.reg)
      case Err(e) => Err(e)
      case Ok(r) => Ok(Or(RegisterModeBits(op.mode), r))
  }

  /** The AUTODEC case of `encodeOperand` as written: octal 030 ORed onto the register. */
  function AutoDecFieldAsWritten(reg: string): (r: Result<Word, GenError>)
    ensures r.Ok? ==> r.value < 64
  {
    match RegisterCode(reg)
    case Err(e) => Err(e)
    case Ok(r) => Ok(Or(24, r))
  }

  // ---------------------------------------------------------------- emissions

  /** The words a piece of the walk appends, and the exception that ends it, if any. */
  datatype Emission = Emission(words: seq<Word>, error: Option<GenError>)

  function Appends(words: seq<Word>): Emission { Emission(words, None) }

  function Throw(e: GenError): Emission { Emission([], Some(e)) }

  /** One piece after another: an exception in the first ends the walk. */
  function Then(a: Emission, b: Emission): (r: Emission)
    ensures a.error.Some? ==> r == a
    ensures a.error.None? ==> r.words == a.words + b.words && r.error == b.error
  {
    if a.error.Some? then a else Emission(a.words + b.words, b.error)
  }

  /** What a call of `encodeOperand` appends: an indexed operand's offset, at once. */
  function OperandEmission(op: Operand, isSrc: bool): Emission
  {
    match OperandField(op, isSrc)
    case Err(e) => Throw(e)
    case Ok(_) => Appends(if op.mode == Indexed then [ToWord(op.value)] else [])
  }

  /** `if (o) encodeOperand(*o, isSrc)`. */
  function EncodeIf(o: Option<Operand>, isSrc: bool): Emission
  {
    if o.None? then Appends([]) else OperandEmission(o.value, isSrc)
  }

  /** The field of an optional operand once its encoding succeeded; 0 when it is absent. */
  function FieldOf(o: Option<Operand>, isSrc: bool): (f: Word)
    ensures f < 64
  {
    if o.Some? && OperandField(o.value, isSrc).Ok? then OperandField(o.value, isSrc).value else 0
  }

  /** The modes that take an extension word after the instruction. */
  predicate HasExtension(op: Operand)
  {
    op.mode in {Imm, Abs, Rel, Indexed}
  }

  /** The extension word of an optional operand: its `value`, not a symbol's address. */
  function Extension(o: Option<Operand>): seq<Word>
  {
    if o.Some? && HasExtension(o.value) then [ToWord(o.value.value)] else []
  }

  /** The extension word after `JSR` and `JMP`: only for relative and absolute targets. */
  function JumpExtension(op: Operand): seq<Word>
  {
    if op.mode == Rel || op.mode == Abs then [ToWord(op.value)] else []
  }

  /** The opcode of a double-operand (`MOV` octal 010000, `CMP` 020000, `ADD` 060000, `SUB`
      160000) or single-operand (`CLR` 005000 to `NEG` 005400, `JMP` 000100) instruction. */
  function Opcode(k: InstrKind): Word
    requires k !in {JSR, RTS, HALT}
  {
    match k
    case MOV => 0x1000
    case CMP => 0x2000
    case ADD => 0x6000
    case SUB => 0xE000
    case CLR => 0xA00
    case COM => 0xA40
    case INC => 0xA80
    case DEC => 0xAC0
    case NEG => 0xB00
    case JMP => 0x40
  }

  /** `opcode | (src_mode * 0100) | dst_mode`. */
  function PrimaryWord(opcode: Word, src: Word, dst: Word): Word
    requires src < 64
  {
    Or(Or(opcode, src * 64), dst)
  }

  /** The `JSR` case: octal 004000, the source register shifted by 6, the destination field;
      then a relative or absolute target's extension word. Both operands are read, and
      `createJsr` sets no source. */
  function JsrEmission(i: Instruction): Emission
  {
    if i.src.None? || i.dst.None? then Throw(MissingOperand)
    else
      match RegisterCode(i.src.value.reg)
      case Err(e) => Throw(e)
      case Ok(r) =>
        Then(OperandEmission(i.dst.value, false),
             Appends([Or(Or(0x800, r * 64), FieldOf(i.dst, false))] + JumpExtension(i.dst.value)))
  }

  /** The `RTS` case: octal 000200 ORed with the register of the destination, which
      `createRts` does not set. */
  function RtsEmission(i: Instruction): Emission
  {
    if i.dst.None? then Throw(MissingOperand)
    else
      match RegisterCode(i.dst.value.reg)
      case Err(e) => Throw(e)
      case Ok(r) => Appends([Or(0x80, r)])
  }

  /** Lines 77-94 of `encodeInstruction`: each operand encoded, then encoded again (the source
      operand not again for `JMP`). */
  function FieldPasses(i: Instruction): Emission
  {
    Then(EncodeIf(i.src, true),
      Then(EncodeIf(i.dst, false),
        Then(if i.kind == JMP then Appends([]) else EncodeIf(i.src, true),
          EncodeIf(i.dst, false))))
  }

  /** Lines 96-125 of `encodeInstruction`: `JMP` encodes its destination once more and emits
      octal 000100 with it; the others emit the primary word and the extension words. */
  function FinalWords(i: Instruction): Emission
    requires i.kind !in {JSR, RTS, HALT}
  {
    if i.kind == JMP then
      if i.dst.None? then Throw(JmpNeedsDestination)
      else Then(OperandEmission(i.dst.value, false),
                Appends([Or(Opcode(JMP), FieldOf(i.dst, false))] + JumpExtension(i.dst.value)))
    else
      Appends([PrimaryWord(Opcode(i.kind), FieldOf(i.src, true), FieldOf(i.dst, false))]
           + Extension(i.src) + Extension(i.dst))
  }

  /** `encodeInstruction`. */
  function InstructionEmission(i: Instruction): Emission
  {
    if i.kind == JSR then JsrEmission(i)
    else if i.kind == RTS then RtsEmission(i)
    else if i.kind == HALT then Appends([0])
    else Then(FieldPasses(i), FinalWords(i))
  }

  /** The words one `.WORD` operand, `.BYTE` operand or `.ASCII` character appends. `.BYTE`
      pads with a zero after every operand when it has an odd number of them. */
  function DirectiveChunk(d: Directive, op: Operand): seq<Word>
  {
    match d.kind
    case WORD => [ToWord(op.value)]
    case BYTE => [LowByte(op.value)] + (if |d.operands| % 2 != 0 then [0] else [])
    case ASCII => [LowByte(ToWord(op.value))]
    case _ => []
  }

  /** The words of `visit(const Directive&)` for the operands `ops`, taken in order. */
  function DirectiveWords(d: Directive, ops: seq<Operand>): seq<Word>
  {
    if |ops| == 0 then [] else DirectiveWords(d, ops[..|ops| - 1]) + DirectiveChunk(d, ops[|ops| - 1])
  }

  /** What `accept` appends for one statement; a label appends its statement's words. */
  function NodeEmission(n: Node): Emission
    decreases n
  {
    match n
    case Instr(i) => InstructionEmission(i)
    case Dir(d) => Appends(DirectiveWords(d, d.operands))
    case Lbl(_, s) => if s.None? then Appends([]) else NodeEmission(s.value)
  }

  /** What `visit(const Program&)` appends for the statements, in order. */
  function ProgramEmission(stmts: seq<Node>): Emission
  {
    if |stmts| == 0 then Appends([]) else Then(ProgramEmission(stmts[..|stmts| - 1]), NodeEmission(stmts[|stmts| - 1]))
  }

  /** `generate`: the machine code, or the exception that ended the walk. */
  function Generated(p: Program): Result<seq<Word>, GenError>
  {
    var e := ProgramEmission(p.statements);
    if e.error.Some? then Err(e.error.value) else Ok(e.words)
  }

  // ---------------------------------------------------------------- the class

  class CodeGenerator {
    var output: seq<Word>
    var currentPc: Word

    /** `current_pc` counts the words in `output`, modulo 2^16. */
    predicate Valid()
      reads this
    {
      currentPc == |output| % 0x1_0000
    }

    constructor()
      ensures Valid() && output == [] && currentPc == 0
    {
      output := [];
      currentPc := 0;
    }

    method Generate(p: Program) returns (r: Result<seq<Word>, GenError>)
      modifies this
      ensures Valid()
      ensures output == ProgramEmission(p.statements).words
      ensures r == Generated(p)
    {
      output := [];
      currentPc := 0;
      var err := VisitProgram(p);
      if err.Some? {
        return Err(err.value);
      }
      return Ok(output);
    }

    method Emit(word: Word)
      requires Valid()
      modifies this
      ensures Valid()
      ensures output == old(output) + [word]
      ensures currentPc == ToWord(old(currentPc) + 1)
    {
      output := output + [word];
      ToWordAdd(|old(output)|, 1);
      currentPc := ToWord(currentPc + 1);
    }

    method VisitProgram(p: Program) returns (err: Option<GenError>)
      requires Valid()
      modifies this
      ensures Valid()
      ensures output == old(output) + ProgramEmission(p.statements).words
      ensures err == ProgramEmission(p.statements).error
    {
      var stmts := p.statements;
      var i := 0;
      err := None;
      while i < |stmts| && err.None?
        invariant 0 <= i <= |stmts| && Valid()
        invariant output == old(output) + ProgramEmission(stmts[..i]).words
        invariant err == ProgramEmission(stmts[..i]).error
        decreases |stmts| - i
      {
        ProgramStep(stmts, i);
        err := VisitNode(stmts[i]);
        i := i + 1;
      }
      if i < |stmts| {
        ProgramErrorStops(stmts, i);
      } else {
        assert stmts[..i] == stmts;
      }
    }

    method VisitNode(n: Node) returns (err: Option<GenError>)
      requires Valid()
      modifies this
      ensures Valid()
      ensures output == old(output) + NodeEmission(n).words
      ensures err == NodeEmission(n).error
      decreases n
    {
      match n
      case Instr(i) =>
        err := EncodeInstruction(i);
      case Dir(d) =>
        VisitDirective(d);
        err := None;
      case Lbl(_, s) =>
        err := None;
        if s.Some? {
          err := VisitNode(s.value);
        }
    }

    method EncodeInstruction(i: Instruction) returns (err: Option<GenError>)
      requires Valid()
      modifies this
      ensures Valid()
      ensures output == old(output) + InstructionEmission(i).words
      ensures err == InstructionEmission(i).error
    {
      if i.kind == JSR {
        err := EncodeJsr(i);
      } else if i.kind == RTS {
        err := EncodeRts(i);
      } else if i.kind == HALT {
        Emit(0);
        err := None;
      } else {
        err := EncodeGeneric(i);
      }
    }

    /** Every kind but `JSR`, `RTS` and `HALT`: the field passes, then the final words. */
    method EncodeGeneric(i: Instruction) returns (err: Option<GenError>)
      requires Valid() && i.kind !in {JSR, RTS, HALT}
      modifies this
      ensures Valid()
      ensures output == old(output) + Then(FieldPasses(i), FinalWords(i)).words
      ensures err == Then(FieldPasses(i), FinalWords(i)).error
    {
      err := EncodeFields(i);
      if err.Some? {
        return;
      }
      err := EncodeFinal(i);
    }

    method EncodeJsr(i: Instruction) returns (err: Option<GenError>)
      requires Valid() && i.kind == JSR
      modifies this
      ensures Valid()
      ensures output == old(output) + JsrEmission(i).words
      ensures err == JsrEmission(i).error
    {
      if i.src.None? || i.dst.None? {
        return Some(MissingOperand);
      }
      var r := RegisterCode(i.src.value.reg);
      if r.Err? {
        return Some(r.error);
      }
      var dst := EncodeOperand(i.dst.value, false);
      if dst.Err? {
        return Some(dst.error);
      }
      Emit(Or(Or(0x800, r.value * 64), dst.value));
      if i.dst.value.mode == Rel || i.dst.value.mode == Abs {
        Emit(ToWord(i.dst.value.value));
      }
      err := None;
    }

    method EncodeRts(i: Instruction) returns (err: Option<GenError>)
      requires Valid() && i.kind == RTS
      modifies this
      ensures Valid()
      ensures output == old(output) + RtsEmission(i).words
      ensures err == RtsEmission(i).error
    {
      if i.dst.None? {
        return Some(MissingOperand);
      }
      var r := RegisterCode(i.dst.value.reg);
      if r.Err? {
        return Some(r.error);
      }
      Emit(Or(0x80, r.value));
      err := None;
    }

    /** Lines 77-94 of `encodeInstruction`. */
    method EncodeFields(i: Instruction) returns (err: Option<GenError>)
      requires Valid()
      modifies this
      ensures Valid()
      ensures output == old(output) + FieldPasses(i).words
      ensures err == FieldPasses(i).error
    {
      err := EncodeOptional(i.src, true);
      if err.Some? {
        return;
      }
      ghost var o1 := output;
      err := EncodeOptional(i.dst, false);
      if err.Some? {
        return;
      }
      ghost var o2 := output;
      if i.kind != JMP {
        err := EncodeOptional(i.src, true);
        if err.Some? {
          return;
        }
      }
      ghost var o3 := output;
      err := EncodeOptional(i.dst, false);
    }

    /** `if (o) encodeOperand(*o, isSrc)`, for its emission and its exception. */
    method EncodeOptional(o: Option<Operand>, isSrc: bool) returns (err: Option<GenError>)
      requires Valid()
      modifies this
      ensures Valid()
      ensures output == old(output) + EncodeIf(o, isSrc).words
      ensures err == EncodeIf(o, isSrc).error
    {
      err := None;
      if o.Some? {
        var f := EncodeOperand(o.value, isSrc);
        if f.Err? {
          err := Some(f.error);
        }
      }
    }

    /** Lines 96-125 of `encodeInstruction`, once the operands have been encoded. */
    method EncodeFinal(i: Instruction) returns (err: Option<GenError>)
      requires Valid() && i.kind !in {JSR, RTS, HALT}
      modifies this
      ensures Valid()
      ensures output == old(output) + FinalWords(i).words
      ensures err == FinalWords(i).error
    {
      if i.kind == JMP {
        if i.dst.None? {
          return Some(JmpNeedsDestination);
        }
        var f := EncodeOperand(i.dst.value, false);
        if f.Err? {
          return Some(f.error);
        }
        Emit(Or(0x40, f.value));
        if i.dst.value.mode == Rel || i.dst.value.mode == Abs {
          Emit(ToWord(i.dst.value.value));
        }
        return None;
      }
      Emit(PrimaryWord(Opcode(i.kind), FieldOf(i.src, true), FieldOf(i.dst, false)));
      if i.src.Some? && HasExtension(i.src.value) {
        Emit(ToWord(i.src.value.value));
      }
      if i.dst.Some? && HasExtension(i.dst.value) {
        Emit(ToWord(i.dst.value.value));
      }
      err := None;
    }

    /** `encodeOperand`: the field, and for an indexed operand the offset appended at once. */
    method EncodeOperand(op: Operand, isSrc: bool) returns (r: Result<Word, GenError>)
      requires Valid()
      modifies this
      ensures Valid()
      ensures r == OperandField(op, isSrc)
      ensures output == old(output) + OperandEmission(op, isSrc).words
    {
      match op.mode {
        case Imm =>
          if !isSrc {
            return Err(ImmediateDestination);
          }
          r := Ok(23);
        case Rel =>
          r := Ok(55);
        case Abs =>
          r := Ok(31);
        case Indexed =>
          var reg := RegisterCode(op.reg);
          if reg.Err? {
            return Err(reg.error);
          }
          r := Ok(Or(RegisterModeBits(Indexed), reg.value));
          Emit(ToWord(op.value));
        case _ =>
          var reg := RegisterCode(op.reg);
          if reg.Err? {
            return Err(reg.error);
          }
          r := Ok(Or(RegisterModeBits(op.mode), reg.value));
      }
    }

    method VisitDirective(d: Directive)
      requires Valid()
      modifies this
      ensures Valid()
      ensures output == old(output) + DirectiveWords(d, d.operands)
    {
      var ops := d.operands;
      if d.kind !in {WORD, BYTE, ASCII} {
        assert DirectiveWords(d, ops) == [] by {
          EmptyChunks(d, ops);
        }
        return;
      }
      var i := 0;
      while i < |ops|
        invariant 0 <= i <= |ops| && Valid()
        invariant output == old(output) + DirectiveWords(d, ops[..i])
        decreases |ops| - i
      {
        assert ops[..i + 1][..i] == ops[..i];
        EmitChunk(d, ops[i]);
        i := i + 1;
      }
      assert ops[..i] == ops;
    }

    /** One pass of the loop of `visit(const Directive&)`. */
    method EmitChunk(d: Directive, op: Operand)
      requires Valid() && d.kind in {WORD, BYTE, ASCII}
      modifies this
      ensures Valid()
      ensures output == old(output) + DirectiveChunk(d, op)
    {
      if d.kind == WORD {
        Emit(ToWord(op.value));
      } else if d.kind == BYTE {
        Emit(LowByte(op.value));
        if |d.operands| % 2 != 0 {
          Emit(0);
        }
      } else {
        Emit(LowByte(ToWord(op.value)));
      }
    }
  }

  /** One more statement, once the walk so far has thrown nothing: its words follow, and its
      exception, if any, is the walk's. */
  lemma ProgramStep(stmts: seq<Node>, i: nat)
    requires i < |stmts| && ProgramEmission(stmts[..i]).error.None?
    ensures ProgramEmission(stmts[..i + 1]).words == ProgramEmission(stmts[..i]).words + NodeEmission(stmts[i]).words
    ensures ProgramEmission(stmts[..i + 1]).error == NodeEmission(stmts[i]).error
  {
    assert stmts[..i + 1][..i] == stmts[..i];
  }

  /** An exception at statement `k` ends the walk. */
  lemma {:induction false} ProgramErrorStops(stmts: seq<Node>, k: nat)
    requires 0 < k <= |stmts| && ProgramEmission(stmts[..k]).error.Some?
    ensures ProgramEmission(stmts) == ProgramEmission(stmts[..k])
    decreases |stmts|
  {
    if k < |stmts| {
      var front := stmts[..|stmts| - 1];
      assert front[..k] == stmts[..k];
      ProgramErrorStops(front, k);
    } else {
      assert stmts[..k] == stmts;
    }
  }

  /** The directives other than `.WORD`, `.BYTE` and `.ASCII` append nothing. */
  lemma {:induction false} EmptyChunks(d: Directive, ops: seq<Operand>)
    requires d.kind !in {WORD, BYTE, ASCII}
    ensures DirectiveWords(d, ops) == []
    decreases |ops|
  {
    if |ops| > 0 {
      EmptyChunks(d, ops[..|ops| - 1]);
    }
  }
}
