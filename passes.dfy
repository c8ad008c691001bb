/** How the two passes relate: the sizes the symbol-table pass counts are not the numbers of
    words the generator emits, so a label's recorded address is not in general the position of
    its statement in the machine code. */
module Passes {
  import opened Common
  import opened Ast
  import opened Lexer
  import SymTab
  import SymTabProps
  import CodeGen
  import CodeGenProps

  /** A single-operand instruction (`CLR` to `NEG`) on a register is counted as two words, as
      every instruction with a destination is, but emits its primary word alone. */
  lemma SingleOperandCountedTwice(k: InstrKind, reg: string)
    requires k in {CLR, COM, INC, DEC, NEG} && IsRegisterName(reg)
    ensures var n := Instr(Instruction(k, None, Some(Operand(Reg, reg, 0, ""))));
      && SymTabProps.Size(n) == 2
      && CodeGen.NodeEmission(n).error.None?
      && |CodeGen.NodeEmission(n).words| == 1
  {
    CodeGenProps.RegisterNames(reg);
  }

  /** `.FILL n, v` is counted as `n` words and emits none. */
  lemma FillEmitsNothing(count: int, value: int)
    ensures var n := Dir(CreateFill(count, value));
      && SymTabProps.Size(n) == count
      && CodeGen.NodeEmission(n) == CodeGen.Emission([], None)
  {
    var d := CreateFill(count, value);
    assert d.operands[..1][..0] == [] && d.operands[..2][..1] == d.operands[..1];
    assert CodeGen.DirectiveWords(d, d.operands[..1]) == [];
    assert d.operands[..2] == d.operands;
    assert CodeGen.DirectiveWords(d, d.operands) == [];
  }

  /** `MOV X(Rn)X(Rn),R0` (the parser reads a number operand twice) is the tree below; it is
      counted as two words and emits four: the offset twice, the primary word and the offset
      once more. */
  lemma IndexedCountedTwoEmitsFour(offset: int, reg: string)
    requires IsRegisterName(reg)
    ensures var n := Instr(CreateMov(Some(CreateIndexed(offset, reg)), Some(Operand(Reg, "R0", 0, ""))));
      && SymTabProps.Size(n) == 2
      && CodeGen.NodeEmission(n).error.None?
      && |CodeGen.NodeEmission(n).words| == 4
  {
    var i := CreateMov(Some(CreateIndexed(offset, reg)), Some(Operand(Reg, "R0", 0, "")));
    CodeGenProps.RegisterNames(reg);
    CodeGenProps.RegisterNames("R0");
    CodeGenProps.GenericInstructionWords(i);
    CodeGenProps.IndexedSourceTripled(i);
  }

  /** In `A: CLR R0,Rn` / `B:` (a one-operand instruction keeps the operand after the comma),
      the first pass records `B` at address 2, while the generator has
      emitted a single word before it. */
  lemma LabelAfterSingleOperand(first: string, second: string, reg: string)
    requires first != second && IsRegisterName(reg)
    ensures var s := [Lbl(first, Some(Instr(CreateClr(Some(Operand(Reg, reg, 0, "")))))), Lbl(second, None)];
      var o := SymTab.BuildTable(map[], Program(s));
      && o.error.None? && second in o.table.symbols && o.table.symbols[second].value == 2
      && |CodeGen.ProgramEmission(s[..1]).words| == 1
  {
    var a := Lbl(first, Some(Instr(CreateClr(Some(Operand(Reg, reg, 0, ""))))));
    var b := Lbl(second, None);
    var s := [a, b];
    var t0 := SymTab.Table(map[], 0);
    assert s[..1] == [a] && [a][..0] == [] && s[..2] == s && s[..1][..0] == [];
    var t1 := SymTab.Table(map[first := SymTab.Symbol(0, true, false, 0)], 2);
    var l := SymTab.LabelStep(t0, first);
    assert l == SymTab.Outcome(SymTab.Table(map[first := SymTab.Symbol(0, true, false, 0)], 0), None);
    assert SymTab.Bump(0, 2) == 2;
    assert SymTab.Step(t0, a) == SymTab.Outcome(t1, None);
    assert SymTab.StepAll(t0, s[..1][..0]) == SymTab.Outcome(t0, None);
    assert SymTab.StepAll(t0, s[..1]) == SymTab.Outcome(t1, None);
    SymTabProps.LabelRecordsAddress(t1, second, None);
    SingleOperandCountedTwice(CLR, reg);
    var ea := CodeGen.NodeEmission(a);
    assert ea.error.None? && |ea.words| == 1;
    assert CodeGen.ProgramEmission([a]) == CodeGen.Then(CodeGen.Appends([]), ea);
  }
}
