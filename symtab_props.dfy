/** Properties of the symbol-table pass: how far each statement moves the address counter, what
    the map holds afterwards, and which programs it rejects. */
module SymTabProps {
  import opened Common
  import opened Ast
  import opened SymTab

  // ---------------------------------------------------------------- sizes

  /** The words a statement occupies by the rules of the first pass: 2 for an instruction with
      a destination and 1 for one without; `n` for `.WORD` with `n` operands, `(n + 1) / 2`
      for `.BYTE`, the first operand's value for `.FILL` and 0 for other directives; and for a
      label, the size of the statement it owns. */
  function Size(n: Node): int
  {
    match n
    case Instr(i) => if i.dst.Some? then 2 else 1
    case Dir(d) =>
      (match d.kind
       case WORD => |d.operands|
       case BYTE => (|d.operands| + 1) / 2
       case FILL => if |d.operands| == 0 then 0 else d.operands[0].value
       case _ => 0)
    case Lbl(_, s) => if s.Some? then Size(s.value) else 0
  }

  function TotalSize(stmts: seq<Node>): int
  {
    if |stmts| == 0 then 0 else TotalSize(stmts[..|stmts| - 1]) + Size(stmts[|stmts| - 1])
  }

  /** A statement that throws nothing moves the counter by its size, modulo 2^16. */
  lemma {:induction false} StepAdvancesBySize(t: Table, n: Node)
    requires Step(t, n).error.None?
    ensures Step(t, n).table.addr == Bump(t.addr, Size(n))
    decreases n
  {
    match n
    case Instr(_) =>
    case Dir(d) =>
    case Lbl(name, s) =>
      var o := LabelStep(t, name);
      if s.Some? {
        StepAdvancesBySize(o.table, s.value);
      } else {
        assert Bump(t.addr, 0) == t.addr;
      }
  }

  /** The counter after a walk without exceptions is the total size of the statements, added to
      where it started, modulo 2^16. */
  lemma {:induction false} StepAllAdvances(t: Table, stmts: seq<Node>)
    requires StepAll(t, stmts).error.None?
    ensures StepAll(t, stmts).table.addr == Bump(t.addr, TotalSize(stmts))
    decreases |stmts|
  {
    if |stmts| > 0 {
      var front := stmts[..|stmts| - 1];
      var o := StepAll(t, front);
      StepAllAdvances(t, front);
      StepAdvancesBySize(o.table, stmts[|stmts| - 1]);
      ToWordAdd(t.addr + TotalSize(front), Size(stmts[|stmts| - 1]));
    } else {
      assert Bump(t.addr, 0) == t.addr;
    }
  }

  /** `build` starts counting at address 0, whatever the map held. */
  lemma BuildCountsFromZero(symbols: map<string, Symbol>, p: Program)
    requires BuildTable(symbols, p).error.None?
    ensures BuildTable(symbols, p).table.addr == ToWord(TotalSize(p.statements))
  {
    StepAllAdvances(Table(symbols, 0), p.statements);
  }

  // ---------------------------------------------------------------- program order

  /** Walking `a + b` is walking `a`, then, unless that threw, walking `b` from where `a` left
      the table. */
  lemma {:induction false} StepAllAppend(t: Table, a: seq<Node>, b: seq<Node>)
    ensures StepAll(t, a + b)
      == (var o := StepAll(t, a); if o.error.Some? then o else StepAll(o.table, b))
    decreases |b|
  {
    if |b| == 0 {
      assert a + b == a;
    } else {
      var ab := a + b;
      assert ab[..|ab| - 1] == a + b[..|b| - 1];
      assert ab[|ab| - 1] == b[|b| - 1];
      StepAllAppend(t, a, b[..|b| - 1]);
    }
  }

  // ---------------------------------------------------------------- the map

  /** Only labels and `.EQU` write the map. */
  lemma StatementKeepsMap(t: Table, n: Node)
    requires n.Instr? || (n.Dir? && n.dir.kind != EQU)
    ensures Step(t, n).table.symbols == t.symbols
  {
  }

  /** Every entry the pass writes is marked defined; so from a table whose entries are all
      defined (the empty one in particular) `validate` cannot fail. */
  lemma {:induction false} StepKeepsDefined(t: Table, n: Node)
    requires AllDefined(t.symbols)
    ensures AllDefined(Step(t, n).table.symbols)
    decreases n
  {
    match n
    case Instr(_) =>
    case Dir(d) =>
    case Lbl(name, s) =>
      var o := LabelStep(t, name);
      if o.error.None? && s.Some? {
        StepKeepsDefined(o.table, s.value);
      }
  }

  lemma {:induction false} StepAllKeepsDefined(t: Table, stmts: seq<Node>)
    requires AllDefined(t.symbols)
    ensures AllDefined(StepAll(t, stmts).table.symbols)
    decreases |stmts|
  {
    if |stmts| > 0 {
      var front := stmts[..|stmts| - 1];
      StepAllKeepsDefined(t, front);
      var o := StepAll(t, front);
      if o.error.None? {
        StepKeepsDefined(o.table, stmts[|stmts| - 1]);
      }
    }
  }

  lemma ValidateNeverFails(p: Program)
    ensures AllDefined(BuildTable(map[], p).table.symbols)
  {
    StepAllKeepsDefined(Table(map[], 0), p.statements);
  }

  // ---------------------------------------------------------------- labels

  /** Whether processing `n` writes `name` over an entry that is already defined: only an
      `.EQU` of that name does, directly or as the statement a label owns. */
  predicate Rebinds(n: Node, name: string)
    decreases n
  {
    match n
    case Instr(_) => false
    case Dir(d) => d.kind == EQU && |d.operands| == 2 && d.operands[0].symbol == name
    case Lbl(_, s) => s.Some? && Rebinds(s.value, name)
  }

  /** A defined entry survives every statement that does not rebind it: a label of the same
      name is a duplicate, and one of another name writes another entry. */
  lemma {:induction false} StepKeepsEntry(t: Table, n: Node, name: string)
    requires name in t.symbols && t.symbols[name].isDefined && !Rebinds(n, name)
    ensures name in Step(t, n).table.symbols && Step(t, n).table.symbols[name] == t.symbols[name]
    decreases n
  {
    match n
    case Instr(_) =>
    case Dir(d) =>
    case Lbl(l, s) =>
      var o := LabelStep(t, l);
      if o.error.None? && s.Some? {
        StepKeepsEntry(o.table, s.value, name);
      }
  }

  /** A label binds its name to the address at which it stands, and takes no room itself: the
      statement it owns is processed from the same address, with the name already bound, and
      the label as a whole moves the counter by that statement's size. */
  lemma LabelRecordsAddress(t: Table, name: string, s: Option<Node>)
    requires !(name in t.symbols && t.symbols[name].isDefined)
    requires s.None? || !Rebinds(s.value, name)
    ensures var o := Step(t, Lbl(name, s));
      && name in o.table.symbols && o.table.symbols[name] == Symbol(t.addr, true, false, t.addr)
      && (s.Some? ==> o == Step(Table(t.symbols[name := Symbol(t.addr, true, false, t.addr)], t.addr), s.value))
      && (o.error.None? ==> o.table.addr == Bump(t.addr, Size(Lbl(name, s))))
  {
    var l := LabelStep(t, name);
    if s.Some? {
      StepKeepsEntry(l.table, s.value, name);
    }
    if Step(t, Lbl(name, s)).error.None? {
      StepAdvancesBySize(t, Lbl(name, s));
    }
  }

  /** A name that is already defined, by a label or by `.EQU`, cannot label a statement again:
      the pass throws "Duplicate label" and the table is left unchanged. */
  lemma DuplicateRejected(t: Table, name: string, s: Option<Node>)
    requires name in t.symbols && t.symbols[name].isDefined
    ensures Step(t, Lbl(name, s)) == Outcome(t, Some(DuplicateLabel(name)))
  {
  }

  // ---------------------------------------------------------------- constants

  /** `.EQU` binds the name of its first operand to the value of its second, truncated to 16
      bits, as a constant; it does not move the counter and does not look for an earlier
      definition of the name. */
  lemma EquDefines(t: Table, name: string, value: int)
    ensures Step(t, Dir(CreateEqu(name, value)))
      == Outcome(Table(t.symbols[name := Symbol(ToWord(value), true, true, t.addr)], t.addr), None)
  {
  }

  /** `.EQU` with other than two operands is "Invalid .EQU directive". */
  lemma EquArity(t: Table, ops: seq<Operand>)
    ensures Step(t, Dir(Directive(EQU, ops))).error.Some? <==> |ops| != 2
    ensures |ops| != 2 ==> Step(t, Dir(Directive(EQU, ops))) == Outcome(t, Some(InvalidEqu))
  {
  }

  /** A constant and then a label of the same name: the label is a duplicate. */
  lemma EquThenLabel()
    ensures StepAll(Table(map[], 0), [Dir(CreateEqu("X", 5)), Lbl("X", None)]).error
      == Some(DuplicateLabel("X"))
  {
    var s := [Dir(CreateEqu("X", 5)), Lbl("X", None)];
    assert s[..1][..0] == [];
    assert s[..1] == [Dir(CreateEqu("X", 5))];
    assert StepAll(Table(map[], 0), s[..1][..0]) == Outcome(Table(map[], 0), None);
    EquDefines(Table(map[], 0), "X", 5);
    var o := StepAll(Table(map[], 0), s[..1]);
    assert o.table.symbols == map["X" := Symbol(5, true, true, 0)];
  }

  /** A label and then a constant of the same name: the constant silently replaces it. */
  lemma LabelThenEqu()
    ensures StepAll(Table(map[], 0), [Lbl("X", None), Dir(CreateEqu("X", 5))])
      == Outcome(Table(map["X" := Symbol(5, true, true, 0)], 0), None)
  {
    var s := [Lbl("X", None), Dir(CreateEqu("X", 5))];
    assert s[..1][..0] == [];
    assert s[..1] == [Lbl("X", None)];
    assert StepAll(Table(map[], 0), s[..1][..0]) == Outcome(Table(map[], 0), None);
    var o := StepAll(Table(map[], 0), s[..1]);
    assert o == Outcome(Table(map["X" := Symbol(0, true, false, 0)], 0), None);
    EquDefines(o.table, "X", 5);
    assert o.table.symbols["X" := Symbol(5, true, true, 0)] == map["X" := Symbol(5, true, true, 0)];
  }

  // ---------------------------------------------------------------- an example

  const R0: Operand := Operand(Reg, "R0", 0, "")
  const R1: Operand := Operand(Reg, "R1", 0, "")

  /** `START: MOV #5,R0` / `LOOP: CLR R0,R1` / `HALT`: the trees the parser builds for it. */
  const Counting: seq<Node> := [
    Lbl("START", Some(Instr(CreateMov(Some(CreateImm(5)), Some(R0))))),
    Lbl("LOOP", Some(Instr(CreateClr(Some(R1))))),
    Instr(CreateHalt())
  ]

  /** `START` is at 0 and `LOOP` at 2, and the counter ends at 5: `CLR R1` counts as two words,
      as every instruction with a destination does. */
  lemma CountingExample()
    ensures var o := BuildTable(map[], Program(Counting));
      && o.error.None? && o.table.addr == 5
      && o.table.symbols == map["START" := Symbol(0, true, false, 0), "LOOP" := Symbol(2, true, false, 2)]
  {
    var t0 := Table(map[], 0);
    assert Counting[..0] == [];
    assert Counting[..1][..0] == [];
    assert Counting[..2][..1] == Counting[..1];
    assert Counting[..3][..2] == Counting[..2];
    assert Counting[..3] == Counting;
    var t1 := Table(map["START" := Symbol(0, true, false, 0)], 2);
    assert StepAll(t0, Counting[..1]) == Outcome(t1, None);
    var t2 := Table(map["START" := Symbol(0, true, false, 0), "LOOP" := Symbol(2, true, false, 2)], 4);
    assert StepAll(t0, Counting[..2]) == Outcome(t2, None);
  }
}
