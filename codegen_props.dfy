/** Properties of the code generator: how the pieces of the walk compose, how an instruction
    word is laid out, what each directive appends, and a few programs worked through. */
module CodeGenProps {
  import opened Common
  import opened Lexer
  import opened Ast
  import opened CodeGen

  // ---------------------------------------------------------------- composition

  /** `Then` is associative and `Appends([])` is its unit: a walk can be cut anywhere. */
  lemma ThenAssociative(a: Emission, b: Emission, c: Emission)
    ensures Then(Then(a, b), c) == Then(a, Then(b, c))
  {
    if a.error.None? && b.error.None? {
      assert (a.words + b.words) + c.words == a.words + (b.words + c.words);
    }
  }

  lemma ThenUnit(a: Emission)
    ensures Then(Appends([]), a) == a && Then(a, Appends([])) == a
  {
    assert [] + a.words == a.words && a.words + [] == a.words;
  }

  /** The statements are emitted in order: `a + b` emits `a`'s words, then `b`'s. */
  lemma {:induction false} ProgramAppend(a: seq<Node>, b: seq<Node>)
    ensures ProgramEmission(a + b) == Then(ProgramEmission(a), ProgramEmission(b))
    decreases |b|
  {
    if |b| == 0 {
      assert a + b == a;
      ThenUnit(ProgramEmission(a));
    } else {
      var ab := a + b;
      var front := b[..|b| - 1];
      assert ab[..|ab| - 1] == a + front;
      assert ab[|ab| - 1] == b[|b| - 1];
      ProgramAppend(a, front);
      ThenAssociative(ProgramEmission(a), ProgramEmission(front), NodeEmission(b[|b| - 1]));
    }
  }

  /** The instructions and directives of a statement, its labels taken away. */
  function Unlabelled(n: Node): seq<Node>
    decreases n
  {
    match n
    case Lbl(_, s) => if s.None? then [] else Unlabelled(s.value)
    case _ => [n]
  }

  function UnlabelledAll(stmts: seq<Node>): seq<Node>
  {
    if |stmts| == 0 then [] else UnlabelledAll(stmts[..|stmts| - 1]) + Unlabelled(stmts[|stmts| - 1])
  }

  lemma {:induction false} NodeUnlabelled(n: Node)
    ensures NodeEmission(n) == ProgramEmission(Unlabelled(n))
    decreases n
  {
    match n
    case Lbl(_, s) =>
      if s.Some? {
        NodeUnlabelled(s.value);
      }
    case Instr(_) =>
      ThenUnit(NodeEmission(n));
      assert [n][..0] == [];
    case Dir(_) =>
      ThenUnit(NodeEmission(n));
      assert [n][..0] == [];
  }

  /** Labels emit nothing of their own: a program emits what it emits with every label taken
      away, and the statements the labels owned put in their place. */
  lemma {:induction false} LabelsEmitNothing(stmts: seq<Node>)
    ensures ProgramEmission(stmts) == ProgramEmission(UnlabelledAll(stmts))
    decreases |stmts|
  {
    if |stmts| > 0 {
      var front := stmts[..|stmts| - 1];
      var last := stmts[|stmts| - 1];
      LabelsEmitNothing(front);
      NodeUnlabelled(last);
      ProgramAppend(UnlabelledAll(front), Unlabelled(last));
    }
  }

  // ---------------------------------------------------------------- registers and fields

  /** Every register name the lexer accepts has a code below 8: `R0`..`R7` their digit, `SP`
      the same code as `R6` and `PC` the same as `R7`. */
  lemma RegisterNames(v: string)
    requires IsRegisterName(v)
    ensures RegisterCode(v).Ok? && RegisterCode(v).value < 8
    ensures v[0] == 'R' ==> RegisterCode(v).value == v[1] as int - '0' as int
    ensures RegisterCode("SP") == RegisterCode("R6") && RegisterCode("PC") == RegisterCode("R7")
  {
  }

  /** `encodeRegister` also accepts `R8` and `R9`, which are no registers of the machine. */
  lemma RegisterCodeLenient()
    ensures RegisterCode("R8") == Ok(8) && !IsRegisterName("R8")
    ensures RegisterCode("R9") == Ok(9) && !IsRegisterName("R9")
  {
  }

  /** The PDP-11 mode number of each addressing form; the PC-based forms use modes 2 (`#n`,
      that is `(PC)+`), 3 (`@#a`, that is `@(PC)+`) and 6 (`a`, that is `X(PC)`). */
  function ModeNumber(m: AddrMode): nat
  {
    match m
    case Reg => 0
    case RegDef => 1
    case AutoInc => 2
    case AutoDec => 4
    case Indexed => 6
    case Imm => 2
    case Abs => 3
    case Rel => 6
  }

  /** The register a field names: PC for the PC-based forms. */
  function FieldRegister(op: Operand): nat
  {
    if op.mode in {Imm, Abs, Rel} then 7
    else if RegisterCode(op.reg).Ok? then RegisterCode(op.reg).value else 0
  }

  /** `OR`ing a mode's bits onto a register below 8 is `8 * mode + register`. */
  lemma OrModeRegister(m: nat, r: nat)
    requires 8 * m < 0x1_0000 && r < 8
    ensures Or(8 * m, r) == 8 * m + r
  {
    assert Pow2(3) == 8;
    BitOrDisjoint(m, r, 3);
  }

  /** Every field the generator produces for a register of the machine is the PDP-11 mode
      number times 8 plus the register, so the field gives back both. */
  lemma OperandFieldLayout(op: Operand, isSrc: bool)
    requires OperandField(op, isSrc).Ok?
    requires op.mode in {Imm, Abs, Rel} || RegisterCode(op.reg).value < 8
    ensures var f := OperandField(op, isSrc).value;
      && f == 8 * ModeNumber(op.mode) + FieldRegister(op)
      && f / 8 == ModeNumber(op.mode) && f % 8 == FieldRegister(op)
  {
    if op.mode !in {Imm, Abs, Rel} {
      OrModeRegister(ModeNumber(op.mode), RegisterCode(op.reg).value);
    }
  }

  /** Two register-based operands in different modes get different fields. */
  lemma FieldsTellModesApart(a: Operand, b: Operand)
    requires a.mode in {Reg, RegDef, AutoInc, AutoDec, Indexed} && b.mode in {Reg, RegDef, AutoInc, AutoDec, Indexed}
    requires OperandField(a, true).Ok? && OperandField(b, true).Ok?
    requires RegisterCode(a.reg).value < 8 && RegisterCode(b.reg).value < 8
    requires a.mode != b.mode
    ensures OperandField(a, true) != OperandField(b, true)
  {
    OperandFieldLayout(a, true);
    OperandFieldLayout(b, true);
  }

  /** As written, `-(Rn)` is encoded with mode 3, the PDP-11's autoincrement-deferred
      `@(Rn)+`; and `-(PC)` gets the very field of an absolute operand `@#a`. */
  lemma AutoDecAsWrittenIsMode3(reg: string)
    requires IsRegisterName(reg)
    ensures AutoDecFieldAsWritten(reg).Ok?
    ensures AutoDecFieldAsWritten(reg).value / 8 == 3
    ensures AutoDecFieldAsWritten(reg).value == 24 + RegisterCode(reg).value
    ensures AutoDecFieldAsWritten("PC") == OperandField(Operand(Abs, "", 0, ""), false)
  {
    RegisterNames(reg);
    OrModeRegister(3, RegisterCode(reg).value);
    OrModeRegister(3, 7);
  }

  /** The field used in this model for `-(Rn)` is mode 4, as the PDP-11 defines it, and differs
      from that of every other addressing form with a register of the machine. */
  lemma AutoDecIsMode4(reg: string, other: Operand, isSrc: bool)
    requires IsRegisterName(reg)
    requires other.mode != AutoDec && OperandField(other, isSrc).Ok?
    requires other.mode in {Imm, Abs, Rel} || RegisterCode(other.reg).value < 8
    ensures var op := Operand(AutoDec, reg, 0, "");
      && OperandField(op, isSrc).Ok? && OperandField(op, isSrc).value / 8 == 4
      && OperandField(op, isSrc) != OperandField(other, isSrc)
  {
    var op := Operand(AutoDec, reg, 0, "");
    RegisterNames(reg);
    OperandFieldLayout(op, isSrc);
    OperandFieldLayout(other, isSrc);
  }

  // ---------------------------------------------------------------- instruction words

  /** Three fields packed as `4096 * top + 64 * mid + low` are recovered by division. */
  lemma Unpack(top: nat, mid: nat, low: nat)
    requires mid < 64 && low < 64
    ensures var w := 4096 * top + 64 * mid + low;
      w / 4096 == top && (w / 64) % 64 == mid && w % 64 == low
  {
    var w := 4096 * top + 64 * mid + low;
    assert w == 64 * (64 * top + mid) + low;
    assert w / 64 == 64 * top + mid;
    assert w == 4096 * top + (64 * mid + low) && 64 * mid + low < 4096;
  }

  /** A double-operand word is the opcode in the top four bits, the source field in bits 6-11
      and the destination field in bits 0-5; each is recovered from the word. The opcodes of
      `MOV`, `CMP`, `ADD` and `SUB` are `4096 * top` for `top` 1, 2, 6 and 14. */
  lemma PrimaryWordLayout(top: nat, src: Word, dst: Word)
    requires top < 16 && src < 64 && dst < 64
    ensures var w := PrimaryWord(4096 * top, src, dst);
      && w == 4096 * top + 64 * src + dst
      && w / 4096 == top && (w / 64) % 64 == src && w % 64 == dst
  {
    assert Pow2(6) == 64 && Pow2(12) == 4096;
    BitOrDisjoint(top, 64 * src, 12);
    var mid := 64 * top + src;
    assert 4096 * top + 64 * src == 64 * mid;
    BitOrDisjoint(mid, dst, 6);
    Unpack(top, src, dst);
  }

  /** A single-operand word (`CLR` to `NEG`, no source) is the opcode plus the destination
      field in its low six bits. */
  lemma SingleOperandLayout(k: InstrKind, dst: Word)
    requires k in {CLR, COM, INC, DEC, NEG} && dst < 64
    ensures var w := PrimaryWord(Opcode(k), 0, dst);
      && w == Opcode(k) + dst && w / 64 == Opcode(k) / 64 && w % 64 == dst
  {
    var top := Opcode(k) / 64;
    assert Opcode(k) == 64 * top;
    assert Pow2(6) == 64 && Pow2(0) == 1;
    BitOrDisjoint(Opcode(k), 0, 0);
    BitOrDisjoint(top, dst, 6);
  }

  /** Every opcode is non-zero and leaves the six destination bits free; a double-operand
      opcode also leaves the six source bits free. */
  lemma OpcodeLayout(k: InstrKind)
    requires k !in {JSR, RTS, HALT}
    ensures Opcode(k) > 0 && Opcode(k) % 64 == 0
    ensures k in {MOV, CMP, ADD, SUB} ==> Opcode(k) % 4096 == 0
  {
  }

  /** Without indexed operands, a double-operand instruction that encodes appends its primary
      word and then the extension words of its source and its destination, in that order. */
  lemma PlainInstructionWords(i: Instruction)
    requires i.kind in {MOV, CMP, ADD, SUB} && i.src.Some? && i.dst.Some?
    requires i.src.value.mode != Indexed && i.dst.value.mode != Indexed
    requires InstructionEmission(i).error.None?
    ensures InstructionEmission(i).words
      == [PrimaryWord(Opcode(i.kind), FieldOf(i.src, true), FieldOf(i.dst, false))]
         + Extension(i.src) + Extension(i.dst)
  {
    var f := FieldPasses(i);
    assert f.words == [] by {
      assert EncodeIf(i.src, true).words == [] && EncodeIf(i.dst, false).words == [];
    }
  }

  /** The generic path when both operands encode: two passes, then the final words. */
  lemma GenericEncoded(i: Instruction)
    requires i.kind !in {JSR, RTS, HALT, JMP}
    requires EncodeIf(i.src, true).error.None? && EncodeIf(i.dst, false).error.None?
    ensures var s, d := EncodeIf(i.src, true).words, EncodeIf(i.dst, false).words;
      InstructionEmission(i) == Appends(s + d + s + d + FinalWords(i).words)
  {
    var s, d := EncodeIf(i.src, true).words, EncodeIf(i.dst, false).words;
    assert FieldPasses(i) == Appends(s + (d + (s + d)));
    assert s + (d + (s + d)) + FinalWords(i).words == s + d + s + d + FinalWords(i).words;
  }

  /** The generic path of `encodeInstruction` (every mnemonic but `JSR`, `RTS`, `HALT` and
      `JMP`): the source is encoded, then the destination, then both again, and only then come
      the primary word and the extension words. The first operand that fails to encode ends the
      instruction, keeping what was appended before it. */
  lemma GenericInstructionWords(i: Instruction)
    requires i.kind !in {JSR, RTS, HALT, JMP}
    ensures var s := EncodeIf(i.src, true); var d := EncodeIf(i.dst, false);
      && (s.error.Some? ==> InstructionEmission(i) == s)
      && (s.error.None? && d.error.Some? ==> InstructionEmission(i) == Emission(s.words, d.error))
      && (s.error.None? && d.error.None? ==>
            InstructionEmission(i)
            == Appends(s.words + d.words + s.words + d.words
                       + [PrimaryWord(Opcode(i.kind), FieldOf(i.src, true), FieldOf(i.dst, false))]
                       + Extension(i.src) + Extension(i.dst)))
  {
    var s, d := EncodeIf(i.src, true), EncodeIf(i.dst, false);
    if s.error.None? && d.error.None? {
      GenericEncoded(i);
    } else if s.error.None? {
      assert d.words == [];
      assert s.words + d.words == s.words;
    }
  }

  /** An indexed source's offset is appended twice before the primary word, by the two
      `encodeOperand` calls, and once more after it, as the source's extension word. */
  lemma IndexedSourceTripled(i: Instruction)
    requires i.kind !in {JSR, RTS, HALT, JMP} && i.src.Some? && i.src.value.mode == Indexed
    requires i.dst.None? || i.dst.value.mode != Indexed
    requires InstructionEmission(i).error.None?
    ensures var w := ToWord(i.src.value.value);
      InstructionEmission(i).words
      == [w, w, PrimaryWord(Opcode(i.kind), FieldOf(i.src, true), FieldOf(i.dst, false)), w] + Extension(i.dst)
  {
    GenericInstructionWords(i);
    var s, d := EncodeIf(i.src, true), EncodeIf(i.dst, false);
    var w := ToWord(i.src.value.value);
    assert s.words == [w] && d.words == [];
    var p := PrimaryWord(Opcode(i.kind), FieldOf(i.src, true), FieldOf(i.dst, false));
    assert [w] + [] + [w] + [] + [p] + [w] + Extension(i.dst) == [w, w, p, w] + Extension(i.dst);
  }

  /** ORing a field onto the `JMP` opcode, octal 000100, adds it. */
  lemma JumpOr(f: Word)
    requires f < 64
    ensures Or(0x40, f) == 0x40 + f
  {
    assert Pow2(6) == 64;
    BitOrDisjoint(1, f, 6);
  }

  /** The `JMP` case whose destination encodes: the word is octal 000100 plus the field. */
  lemma JumpEncoded(i: Instruction)
    requires i.kind == JMP && EncodeIf(i.src, true).error.None?
    requires i.dst.Some? && OperandField(i.dst.value, false).Ok?
    ensures var x: seq<Word> := if i.dst.value.mode == Indexed then [ToWord(i.dst.value.value)] else [];
      var f := OperandField(i.dst.value, false).value;
      && Or(0x40, f) == 0x40 + f
      && InstructionEmission(i) == Appends(EncodeIf(i.src, true).words + x + x + x + [Or(0x40, f)] + JumpExtension(i.dst.value))
  {
    var s := EncodeIf(i.src, true).words;
    var x: seq<Word> := if i.dst.value.mode == Indexed then [ToWord(i.dst.value.value)] else [];
    var f := OperandField(i.dst.value, false).value;
    var e := JumpExtension(i.dst.value);
    assert OperandEmission(i.dst.value, false) == Appends(x);
    assert FieldOf(i.dst, false) == f;
    JumpOr(f);
    assert FieldPasses(i) == Appends(s + (x + ([] + x)));
    assert FinalWords(i) == Appends(x + ([Or(0x40, f)] + e));
    assert s + (x + ([] + x)) + (x + ([Or(0x40, f)] + e)) == s + x + x + x + [Or(0x40, f)] + e;
  }

  /** `JMP`: after the source, if any, the destination is encoded three times, and the
      instruction is octal 000100 plus the destination field, followed by an extension word
      only for a relative or absolute target. Without a destination it is refused. */
  lemma JumpWords(i: Instruction)
    requires i.kind == JMP
    ensures var s := EncodeIf(i.src, true);
      && (s.error.Some? ==> InstructionEmission(i) == s)
      && (s.error.None? && i.dst.None? ==> InstructionEmission(i) == Emission(s.words, Some(JmpNeedsDestination)))
      && (s.error.None? && i.dst.Some? && OperandField(i.dst.value, false).Err? ==>
            InstructionEmission(i) == Emission(s.words, Some(OperandField(i.dst.value, false).error)))
      && (s.error.None? && i.dst.Some? && OperandField(i.dst.value, false).Ok? ==>
            var x: seq<Word> := if i.dst.value.mode == Indexed then [ToWord(i.dst.value.value)] else [];
            var f := OperandField(i.dst.value, false).value;
            && Or(0x40, f) == 0x40 + f
            && InstructionEmission(i) == Appends(s.words + x + x + x + [Or(0x40, f)] + JumpExtension(i.dst.value)))
  {
    var s := EncodeIf(i.src, true);
    if s.error.None? {
      if i.dst.None? {
        assert FieldPasses(i) == Appends(s.words + ([] + ([] + [])));
        assert s.words + ([] + ([] + [])) == s.words;
      } else if OperandField(i.dst.value, false).Err? {
        assert s.words + [] == s.words;
      } else {
        JumpEncoded(i);
      }
    }
  }

  /** An immediate operand cannot be a destination: every instruction but `JSR`, `RTS` and
      `HALT` with one is refused, once its source, if any, has encoded. */
  lemma ImmediateDestinationRefused(i: Instruction)
    requires i.kind !in {JSR, RTS, HALT} && i.dst.Some? && i.dst.value.mode == Imm
    ensures InstructionEmission(i).error.Some?
    ensures EncodeIf(i.src, true).error.None? ==>
      InstructionEmission(i) == Emission(EncodeIf(i.src, true).words, Some(ImmediateDestination))
  {
    if i.kind == JMP {
      JumpWords(i);
    } else {
      GenericInstructionWords(i);
    }
  }

  // ---------------------------------------------------------------- examples

  const R0: Operand := Operand(Reg, "R0", 0, "")

  /** `HALT` is the single word 0. */
  lemma HaltExample()
    ensures InstructionEmission(CreateHalt()) == Emission([0], None)
  {
  }

  /** `MOV #5,R0` is octal 012700 followed by 5. */
  lemma MoveImmediateExample()
    ensures InstructionEmission(CreateMov(Some(CreateImm(5)), Some(R0))) == Emission([0x15C0, 5], None)
  {
    var i := CreateMov(Some(CreateImm(5)), Some(R0));
    MoveImmediateFields(i);
    MoveImmediateFinal(i);
    assert InstructionEmission(i) == Then(FieldPasses(i), FinalWords(i));
  }

  lemma MoveImmediateFields(i: Instruction)
    requires i == CreateMov(Some(CreateImm(5)), Some(R0))
    ensures FieldPasses(i) == Appends([]) && OperandField(R0, false) == Ok(0)
  {
    OrModeRegister(0, 0);
  }

  lemma MoveImmediateFinal(i: Instruction)
    requires i == CreateMov(Some(CreateImm(5)), Some(R0)) && OperandField(R0, false) == Ok(0)
    ensures FinalWords(i) == Appends([0x15C0, 5])
  {
    assert FieldOf(i.src, true) == 23 && FieldOf(i.dst, false) == 0;
    assert Extension(i.src) == [5] && Extension(i.dst) == [];
    PrimaryWordLayout(1, 23, 0);
  }

  /** `JMP L` is octal 000167 followed by 0: the generator does not look `L` up. */
  lemma JumpExample(target: string)
    ensures InstructionEmission(CreateJmp(target)) == Emission([0x77, 0], None)
  {
    var i := CreateJmp(target);
    assert FieldPasses(i) == Appends([]);
    OrModeRegister(8, 7);
    assert FinalWords(i) == Appends([0x77, 0]);
    assert InstructionEmission(i) == Then(FieldPasses(i), FinalWords(i));
  }

  /** `createRts` and `createJsr` set no register operand, so both end in the null operand. */
  lemma SubroutineInstructionsFail(target: string)
    ensures InstructionEmission(CreateRts()) == Throw(MissingOperand)
    ensures InstructionEmission(CreateJsr(target)) == Throw(MissingOperand)
  {
  }

  /** A whole program: `MOV #5,R0` then `HALT`. */
  lemma GenerateExample()
    ensures Generated(Program([Lbl("START", Some(Instr(CreateMov(Some(CreateImm(5)), Some(R0))))),
                               Instr(CreateHalt())]))
      == Ok([0x15C0, 5, 0])
  {
    var a := Lbl("START", Some(Instr(CreateMov(Some(CreateImm(5)), Some(R0)))));
    var b := Instr(CreateHalt());
    var s := [a, b];
    MoveImmediateExample();
    HaltExample();
    var ea := NodeEmission(a);
    assert ea == Emission([0x15C0, 5], None);
    assert s[..1][..0] == [];
    assert ProgramEmission(s[..1]) == Then(Appends([]), ea);
    ThenUnit(ea);
    assert s[..2][..1] == s[..1] && s[..2] == s;
    assert ProgramEmission(s) == Then(ea, NodeEmission(b));
    assert [0x15C0, 5] + [0] == [0x15C0, 5, 0];
    assert ProgramEmission(s) == Emission([0x15C0, 5, 0], None);
  }

  // ---------------------------------------------------------------- directives

  /** `.WORD` appends each operand's value, truncated to 16 bits, in order. */
  lemma {:induction false} WordDirectiveWords(d: Directive, ops: seq<Operand>)
    requires d.kind == WORD
    ensures var w := DirectiveWords(d, ops);
      |w| == |ops| && forall i :: 0 <= i < |ops| ==> w[i] == ToWord(ops[i].value)
    decreases |ops|
  {
    if |ops| > 0 {
      WordDirectiveWords(d, ops[..|ops| - 1]);
    }
  }

  /** `.ASCII` appends the low byte of each operand, in order. */
  lemma {:induction false} AsciiDirectiveWords(d: Directive, ops: seq<Operand>)
    requires d.kind == ASCII
    ensures var w := DirectiveWords(d, ops);
      |w| == |ops| && forall i :: 0 <= i < |ops| ==> w[i] == ops[i].value % 256
    decreases |ops|
  {
    if |ops| > 0 {
      AsciiDirectiveWords(d, ops[..|ops| - 1]);
      var v := ops[|ops| - 1].value;
      LowByteOfWord(v);
    }
  }

  /** Truncating to 16 bits keeps the low byte. */
  lemma LowByteOfWord(v: int)
    ensures ToWord(v) % 256 == v % 256
  {
    var q, r := v / 0x1_0000, ToWord(v);
    assert v == 0x1_0000 * q + r;
    assert r == 256 * (r / 256) + r % 256;
    RemainderOf(v, 256 * q + r / 256, r % 256);
  }

  /** `.BYTE` with an even number of operands appends their low bytes; with an odd number it
      appends a 0 after each one. */
  lemma {:induction false} ByteDirectiveWords(d: Directive, ops: seq<Operand>)
    requires d.kind == BYTE
    ensures var w := DirectiveWords(d, ops);
      && (|d.operands| % 2 == 0 ==>
            |w| == |ops| && forall i :: 0 <= i < |ops| ==> w[i] == LowByte(ops[i].value))
      && (|d.operands| % 2 != 0 ==>
            |w| == 2 * |ops|
            && (forall i :: 0 <= i < |ops| ==> w[2 * i] == LowByte(ops[i].value))
            && (forall i :: 0 <= i < |ops| ==> w[2 * i + 1] == 0))
    decreases |ops|
  {
    if |ops| > 0 {
      var front, last := ops[..|ops| - 1], ops[|ops| - 1];
      ByteDirectiveWords(d, front);
      var wf, c := DirectiveWords(d, front), DirectiveChunk(d, last);
      assert DirectiveWords(d, ops) == wf + c;
      if |d.operands| % 2 == 0 {
        assert c == [LowByte(last.value)];
        forall i | 0 <= i < |ops|
          ensures (wf + c)[i] == LowByte(ops[i].value)
        {
          if i < |front| {
            assert ops[i] == front[i];
          }
        }
      } else {
        assert c == [LowByte(last.value), 0];
        forall i | 0 <= i < |ops|
          ensures (wf + c)[2 * i] == LowByte(ops[i].value) && (wf + c)[2 * i + 1] == 0
        {
          if i < |front| {
            assert ops[i] == front[i];
          }
        }
      }
    }
  }

  /** The words of `.ASCII name` are the codes of the characters of `name`, the label operand
      that the parser keeps as the directive's text, modulo 256. */
  lemma AsciiText(text: string)
    ensures var d := Directive(ASCII, AsciiOperands(text));
      var w := DirectiveWords(d, d.operands);
      |w| == |text| && forall i :: 0 <= i < |text| ==> w[i] == CharValue(text[i]) % 256
  {
    var d := Directive(ASCII, AsciiOperands(text));
    AsciiDirectiveWords(d, d.operands);
  }

  // ---------------------------------------------------------------- the image

  /** `saveBinary` writes each word as two bytes, the low one first. */
  function LittleEndian(code: seq<Word>): (bytes: seq<int>)
    ensures |bytes| == 2 * |code|
  {
    if |code| == 0 then [] else LittleEndian(code[..|code| - 1]) + [code[|code| - 1] % 256, code[|code| - 1] / 256]
  }

  /** Every word can be read back from its two bytes. */
  lemma {:induction false} LittleEndianRoundTrip(code: seq<Word>)
    ensures var b := LittleEndian(code);
      forall i :: 0 <= i < |code| ==>
        0 <= b[2 * i] < 256 && 0 <= b[2 * i + 1] < 256 && code[i] == b[2 * i] + 256 * b[2 * i + 1]
    decreases |code|
  {
    if |code| > 0 {
      LittleEndianRoundTrip(code[..|code| - 1]);
    }
  }
}
