/** The syntax tree of ast.hpp and the `ASTBuilder` constructors of ast.cpp. */
module Ast {
  import opened Common
  import opened Lexer

  /** The eight PDP-11 addressing modes. */
  datatype AddrMode = Reg | Imm | Abs | Rel | RegDef | AutoInc | AutoDec | Indexed

  /** An operand: its mode, a register name, an integer value and a symbol (label) name. Which field
      means something depends on the mode. */
  datatype Operand = Operand(mode: AddrMode, reg: string, value: int, symbol: string)

  /** `Instruction::Type`, in declaration order. */
  datatype InstrKind = MOV | CMP | ADD | SUB | JSR | RTS | HALT | CLR | COM | INC | DEC | NEG | JMP

  datatype Instruction = Instruction(kind: InstrKind, src: Option<Operand>, dst: Option<Operand>)

  /** `Directive::Type`, in declaration order. */
  datatype DirKind = WORD | BYTE | END | EQU | ASCII | FILL

  datatype Directive = Directive(kind: DirKind, operands: seq<Operand>)

  /** A statement: an instruction, a directive, or a label that owns at most one statement.
      Each node owns its children and, the type being inductive, no node contains itself. */
  datatype Node =
    | Instr(instr: Instruction)
    | Dir(dir: Directive)
    | Lbl(name: string, statement: Option<Node>)

  /** The program: its statements in source order. */
  datatype Program = Program(statements: seq<Node>)

  /** `static_cast<Instruction::Type>(n)`: the enumerator with value `n`, if there is one. */
  function InstrKindOfOrdinal(n: nat): (k: Option<InstrKind>)
    ensures k.Some? <==> n < 13
  {
    if n < 13 then Some([MOV, CMP, ADD, SUB, JSR, RTS, HALT, CLR, COM, INC, DEC, NEG, JMP][n])
    else None
  }

  /** `static_cast<Directive::Type>(n)`: the enumerator with value `n`, if there is one. */
  function DirKindOfOrdinal(n: nat): (k: Option<DirKind>)
    ensures k.Some? <==> n < 6
  {
    if n < 6 then Some([WORD, BYTE, END, EQU, ASCII, FILL][n]) else None
  }

  // ------------------------------------------------------------------ operands

  /** A default-initialised operand: value 0, empty register and label. */
  function Fresh(mode: AddrMode): Operand
  {
    Operand(mode, "", 0, "")
  }

  /** `createReg`: accepts `PC`, `SP` and `R0`..`R7`; anything else is
      `std::invalid_argument`. */
  function CreateReg(reg: string): (r: Result<Operand, string>)
    ensures r.Ok? <==> IsRegisterName(reg)
    ensures r.Ok? ==> r.value.mode == Reg && r.value.reg == reg && r.value.value == 0 && r.value.symbol == ""
  {
    if reg != "PC" && reg != "SP" && !(|reg| == 2 && reg[0] == 'R' && '0' <= reg[1] <= '7') then
      Err("Invalid register: " + reg)
    else
      Ok(Fresh(Reg).(reg := reg))
  }

  function CreateImm(value: int): Operand { Fresh(Imm).(value := value) }

  /** `createAbs` keeps its argument as the symbol name; the value stays 0. */
  function CreateAbs(symbol: string): Operand { Fresh(Abs).(symbol := symbol) }

  function CreateRel(symbol: string): Operand { Fresh(Rel).(symbol := symbol) }

  function CreateRegDef(reg: string): Operand { Fresh(RegDef).(reg := reg) }

  function CreateAutoInc(reg: string): Operand { Fresh(AutoInc).(reg := reg) }

  function CreateAutoDec(reg: string): Operand { Fresh(AutoDec).(reg := reg) }

  function CreateIndexed(offset: int, reg: string): Operand { Fresh(Indexed).(value := offset, reg := reg) }

  function CreateLabelRef(symbol: string): Operand { Fresh(Rel).(symbol := symbol) }

  // ------------------------------------------------------------------ instructions

  function CreateMov(src: Option<Operand>, dst: Option<Operand>): Instruction { Instruction(MOV, src, dst) }
  function CreateCmp(src: Option<Operand>, dst: Option<Operand>): Instruction { Instruction(CMP, src, dst) }
  function CreateAdd(src: Option<Operand>, dst: Option<Operand>): Instruction { Instruction(ADD, src, dst) }
  function CreateSub(src: Option<Operand>, dst: Option<Operand>): Instruction { Instruction(SUB, src, dst) }

  /** `createJsr` sets only the destination; the linkage register is never recorded. */
  function CreateJsr(target: string): Instruction { Instruction(JSR, None, Some(CreateRel(target))) }

  function CreateRts(): Instruction { Instruction(RTS, None, None) }
  function CreateHalt(): Instruction { Instruction(HALT, None, None) }

  function CreateClr(dst: Option<Operand>): Instruction { Instruction(CLR, None, dst) }
  function CreateCom(dst: Option<Operand>): Instruction { Instruction(COM, None, dst) }
  function CreateInc(dst: Option<Operand>): Instruction { Instruction(INC, None, dst) }
  function CreateDec(dst: Option<Operand>): Instruction { Instruction(DEC, None, dst) }
  function CreateNeg(dst: Option<Operand>): Instruction { Instruction(NEG, None, dst) }

  function CreateJmp(target: string): Instruction { Instruction(JMP, None, Some(CreateRel(target))) }

  // ------------------------------------------------------------------ directives

  function CreateWord(values: seq<Operand>): Directive { Directive(WORD, values) }
  function CreateByte(values: seq<Operand>): Directive { Directive(BYTE, values) }

  /** `static_cast<int>(c)` for a `char`, which is signed: bytes 128..255 become negative. */
  function CharValue(c: char): (v: int)
    ensures -128 <= v < 128
    ensures v % 256 == c as int % 256
  {
    var b := c as int % 256;
    if b < 128 then b else b - 256
  }

  /** The operands `createAscii` pushes: one immediate per character, in order. */
  function AsciiOperands(text: string): (ops: seq<Operand>)
    ensures |ops| == |text|
    ensures forall i :: 0 <= i < |text| ==> ops[i] == CreateImm(CharValue(text[i]))
  {
    if text == [] then [] else [CreateImm(CharValue(text[0]))] + AsciiOperands(text[1..])
  }

  /** `createAscii`: the `for` loop over the characters of `text`. */
  method CreateAscii(text: string) returns (dir: Directive)
    ensures dir.kind == ASCII && |dir.operands| == |text|
    ensures forall i :: 0 <= i < |text| ==> dir.operands[i] == CreateImm(CharValue(text[i]))
  {
    var operands: seq<Operand> := [];
    for i := 0 to |text|
      invariant |operands| == i
      invariant forall j :: 0 <= j < i ==> operands[j] == CreateImm(CharValue(text[j]))
    {
      operands := operands + [CreateImm(CharValue(text[i]))];
    }
    dir := Directive(ASCII, operands);
  }

  function CreateEqu(symbol: string, value: int): Directive
  {
    Directive(EQU, [CreateLabelRef(symbol), CreateImm(value)])
  }

  function CreateEnd(): Directive { Directive(END, []) }

  function CreateFill(count: int, value: int): Directive
  {
    Directive(FILL, [CreateImm(count), CreateImm(value)])
  }

  function CreateLabel(name: string, statement: Option<Node>): Node { Lbl(name, statement) }

  function CreateProgram(): Program { Program([]) }

  // ------------------------------------------------------------------ properties

  /** The method and the function agree on every text. */
  lemma CreateAsciiAgrees(text: string, dir: Directive)
    requires dir.kind == ASCII && |dir.operands| == |text|
    requires forall i :: 0 <= i < |text| ==> dir.operands[i] == CreateImm(CharValue(text[i]))
    ensures dir == Directive(ASCII, AsciiOperands(text))
  {
  }

  /** The operand builders set exactly one meaningful field each; the others keep the
      default (value 0, empty register, empty label). */
  lemma OperandBuilders(v: int, s: string)
    ensures Fresh(Imm).value == 0 && Fresh(Imm).reg == "" && Fresh(Imm).symbol == ""
    ensures CreateImm(v) == Operand(Imm, "", v, "")
    ensures CreateAbs(s) == Operand(Abs, "", 0, s) && CreateAbs(s).value == 0
    ensures CreateRel(s) == Operand(Rel, "", 0, s) == CreateLabelRef(s)
    ensures CreateRegDef(s) == Operand(RegDef, s, 0, "")
    ensures CreateAutoInc(s) == Operand(AutoInc, s, 0, "")
    ensures CreateAutoDec(s) == Operand(AutoDec, s, 0, "")
    ensures CreateIndexed(v, s) == Operand(Indexed, s, v, "")
  {
  }

  /** The double-operand builders keep both operands; the single-operand ones set the
      destination only; `createJsr` and `createJmp` jump to `Relative(target)` and have no
      source; `createRts` and `createHalt` have no operands. */
  lemma InstructionBuilders(src: Option<Operand>, dst: Option<Operand>, target: string)
    ensures CreateMov(src, dst).src == src && CreateMov(src, dst).dst == dst
    ensures CreateCmp(src, dst).src == src && CreateCmp(src, dst).dst == dst
    ensures CreateAdd(src, dst).src == src && CreateAdd(src, dst).dst == dst
    ensures CreateSub(src, dst).src == src && CreateSub(src, dst).dst == dst
    ensures forall i :: i in [CreateClr(dst), CreateCom(dst), CreateInc(dst), CreateDec(dst), CreateNeg(dst)]
              ==> i.src.None? && i.dst == dst
    ensures CreateJsr(target) == Instruction(JSR, None, Some(Operand(Rel, "", 0, target)))
    ensures CreateJmp(target) == Instruction(JMP, None, Some(Operand(Rel, "", 0, target)))
    ensures CreateRts().src.None? && CreateRts().dst.None?
    ensures CreateHalt().src.None? && CreateHalt().dst.None?
  {
  }

  /** `.EQU l, v` holds exactly `[Relative(l), Immediate(v)]`; `.FILL c, v` holds exactly
      `[Immediate(c), Immediate(v)]`; `.END` holds nothing. */
  lemma DirectiveBuilders(l: string, c: int, v: int)
    ensures CreateEqu(l, v).operands == [Operand(Rel, "", 0, l), Operand(Imm, "", v, "")]
    ensures CreateFill(c, v).operands == [Operand(Imm, "", c, ""), Operand(Imm, "", v, "")]
    ensures CreateEnd().operands == []
  {
  }
}
