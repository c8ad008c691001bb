/** The first pass of symtab.cpp: one walk over the statements that counts 16-bit word
    addresses and records every label and `.EQU` constant. The specification functions work
    on a `Table` value, and the `SymbolTable` class updates its fields as the source does. */
module SymTab {
  import opened Common
  import opened Ast

  /** `SymbolTable::Symbol`. `line` holds whatever the source stores in it, which is the
      address counter at the definition. */
  datatype Symbol = Symbol(value: Word, isDefined: bool, isConstant: bool, line: nat)

  /** The exceptions of symtab.cpp, plus the out-of-range read of `.FILL` without operands. */
  datatype SymError =
    | DuplicateLabel(name: string)
    | InvalidEqu
    | MissingFillCount
    | UndefinedSymbol(name: string)
    | SymbolNotDefined(name: string)

  /** The builder's state: the name-to-symbol map and `current_addr`. */
  datatype Table = Table(symbols: map<string, Symbol>, addr: Word)

  /** The state after a step and the exception it threw, if any; an exception leaves the
      state as it was at the throw. */
  datatype Outcome = Outcome(table: Table, error: Option<SymError>)

  /** `current_addr += n` on a `uint16_t`. */
  function Bump(addr: Word, n: int): (a: Word)
    ensures a == (addr + n) % 0x1_0000
  {
    ToWord(addr + n)
  }

  /** Every stored entry is marked defined. */
  predicate AllDefined(symbols: map<string, Symbol>)
  {
    forall name :: name in symbols ==> symbols[name].isDefined
  }

  // ---------------------------------------------------------------- one statement

  /** `processDirective`: only `.EQU` does something. It needs exactly two operands and stores
      the second one's value, truncated to 16 bits, under the first one's label name, as a
      constant, whether or not that name is already taken. */
  function EquStep(t: Table, d: Directive): (o: Outcome)
    ensures o.table.addr == t.addr
    ensures d.kind != EQU ==> o == Outcome(t, None)
    ensures d.kind == EQU ==> (o.error.Some? <==> |d.operands| != 2)
  {
    if d.kind != EQU then Outcome(t, None)
    else if |d.operands| != 2 then Outcome(t, Some(InvalidEqu))
    else
      var name := d.operands[0].symbol;
      Outcome(t.(symbols := t.symbols[name := Symbol(ToWord(d.operands[1].value), true, true, t.addr)]), None)
  }

  /** The address switch of `processNode` for a directive, after `processDirective`. */
  function DirectiveStep(t: Table, d: Directive): Outcome
  {
    var o := EquStep(t, d);
    if o.error.Some? then o
    else
      var t1 := o.table;
      match d.kind
      case WORD => Outcome(t1.(addr := Bump(t1.addr, |d.operands|)), None)
      case BYTE => Outcome(t1.(addr := Bump(t1.addr, (|d.operands| + 1) / 2)), None)
      case FILL =>
        if |d.operands| == 0 then Outcome(t1, Some(MissingFillCount))
        else Outcome(t1.(addr := Bump(t1.addr, d.operands[0].value)), None)
      case _ => Outcome(t1, None)
  }

  /** `processLabel`: a name already defined is a duplicate; otherwise the name is bound to
      the current address. */
  function LabelStep(t: Table, name: string): (o: Outcome)
    ensures o.table.addr == t.addr
  {
    if name in t.symbols && t.symbols[name].isDefined then Outcome(t, Some(DuplicateLabel(name)))
    else Outcome(t.(symbols := t.symbols[name := Symbol(t.addr, true, false, t.addr)]), None)
  }

  /** `processNode`: an instruction takes 2 words when it has a destination and 1 otherwise;
      a label is recorded before the statement it owns is processed. */
  function Step(t: Table, n: Node): Outcome
    decreases n
  {
    match n
    case Instr(i) => Outcome(t.(addr := Bump(t.addr, if i.dst.Some? then 2 else 1)), None)
    case Dir(d) => DirectiveStep(t, d)
    case Lbl(name, s) =>
      var o := LabelStep(t, name);
      if o.error.Some? || s.None? then o else Step(o.table, s.value)
  }

  /** The loop of `build` over the first `|stmts|` statements, stopping at the first
      exception. */
  function StepAll(t: Table, stmts: seq<Node>): Outcome
    decreases |stmts|
  {
    if |stmts| == 0 then Outcome(t, None)
    else
      var o := StepAll(t, stmts[..|stmts| - 1]);
      if o.error.Some? then o else Step(o.table, stmts[|stmts| - 1])
  }

  /** The first exception ends the walk: the statements after it change nothing. */
  lemma {:induction false} ErrorStops(t: Table, stmts: seq<Node>, k: nat)
    requires k <= |stmts| && StepAll(t, stmts[..k]).error.Some?
    ensures StepAll(t, stmts) == StepAll(t, stmts[..k])
    decreases |stmts|
  {
    if k < |stmts| {
      var front := stmts[..|stmts| - 1];
      assert front[..k] == stmts[..k];
      ErrorStops(t, front, k);
    } else {
      assert stmts[..k] == stmts;
    }
  }

  /** The state and exception of `build` up to `validate`: the counter restarts at 0, the
      map is kept. */
  function BuildTable(symbols: map<string, Symbol>, p: Program): Outcome
  {
    StepAll(Table(symbols, 0), p.statements)
  }

  // ---------------------------------------------------------------- the class

  class SymbolTable {
    var symbols: map<string, Symbol>
    var currentAddr: Word

    function State(): Table
      reads this
    {
      Table(symbols, currentAddr)
    }

    /** `currentAddress`. */
    function CurrentAddress(): Word
      reads this
    {
      currentAddr
    }

    constructor()
      ensures symbols == map[] && currentAddr == 0
    {
      symbols := map[];
      currentAddr := 0;
    }

    method Build(p: Program) returns (err: Option<SymError>)
      modifies this
      ensures State() == BuildTable(old(symbols), p).table
      ensures BuildTable(old(symbols), p).error.Some? ==> err == BuildTable(old(symbols), p).error
      ensures BuildTable(old(symbols), p).error.None? ==> (err.None? <==> AllDefined(symbols))
      ensures BuildTable(old(symbols), p).error.None? && err.Some? ==>
        err.value.SymbolNotDefined? && err.value.name in symbols && !symbols[err.value.name].isDefined
    {
      currentAddr := 0;
      ghost var start := State();
      var stmts := p.statements;
      var i := 0;
      while i < |stmts|
        invariant 0 <= i <= |stmts|
        invariant StepAll(start, stmts[..i]) == Outcome(State(), None)
        decreases |stmts| - i
      {
        assert stmts[..i + 1][..i] == stmts[..i];
        err := ProcessNode(stmts[i]);
        if err.Some? {
          ErrorStops(start, stmts, i + 1);
          return;
        }
        i := i + 1;
      }
      assert stmts[..i] == stmts;
      err := Validate();
    }

    method ProcessNode(n: Node) returns (err: Option<SymError>)
      modifies this
      ensures State() == Step(old(State()), n).table
      ensures err == Step(old(State()), n).error
      decreases n
    {
      match n
      case Instr(i) =>
        currentAddr := Bump(currentAddr, if i.dst.Some? then 2 else 1);
        err := None;
      case Dir(d) =>
        err := ProcessDirective(d);
        if err.Some? {
          return;
        }
        match d.kind {
          case WORD => currentAddr := Bump(currentAddr, |d.operands|);
          case BYTE => currentAddr := Bump(currentAddr, (|d.operands| + 1) / 2);
          case FILL =>
            if |d.operands| == 0 {
              return Some(MissingFillCount);
            }
            currentAddr := Bump(currentAddr, d.operands[0].value);
          case _ =>
        }
      case Lbl(name, s) =>
        err := ProcessLabel(name);
        if err.None? && s.Some? {
          err := ProcessNode(s.value);
        }
    }

    method ProcessDirective(d: Directive) returns (err: Option<SymError>)
      modifies this
      ensures State() == EquStep(old(State()), d).table
      ensures err == EquStep(old(State()), d).error
    {
      err := None;
      if d.kind == EQU {
        if |d.operands| != 2 {
          return Some(InvalidEqu);
        }
        var target := d.operands[0];
        var value := d.operands[1];
        symbols := symbols[target.symbol := Symbol(ToWord(value.value), true, true, currentAddr)];
      }
    }

    method ProcessLabel(name: string) returns (err: Option<SymError>)
      modifies this
      ensures State() == LabelStep(old(State()), name).table
      ensures err == LabelStep(old(State()), name).error
    {
      if name in symbols && symbols[name].isDefined {
        return Some(DuplicateLabel(name));
      }
      symbols := symbols[name := Symbol(currentAddr, true, false, currentAddr)];
      err := None;
    }

    /** `resolve`: the stored value, or "Undefined symbol" for an absent name. */
    method Resolve(name: string) returns (r: Result<Word, SymError>)
      ensures r.Ok? <==> name in symbols
      ensures r.Ok? ==> r.value == symbols[name].value
      ensures r.Err? ==> r.error == UndefinedSymbol(name)
    {
      if name !in symbols {
        return Err(UndefinedSymbol(name));
      }
      return Ok(symbols[name].value);
    }

    /** `validate`: the walk over the map in an unspecified order, failing at an entry that is
        not defined. */
    method Validate() returns (err: Option<SymError>)
      ensures err.None? <==> AllDefined(symbols)
      ensures err.Some? ==>
        err.value.SymbolNotDefined? && err.value.name in symbols && !symbols[err.value.name].isDefined
    {
      var left := symbols.Keys;
      while left != {}
        invariant left <= symbols.Keys
        invariant forall name :: name in symbols && name !in left ==> symbols[name].isDefined
        decreases |left|
      {
        var name :| name in left;
        if !symbols[name].isDefined {
          return Some(SymbolNotDefined(name));
        }
        left := left - {name};
      }
      return None;
    }
  }
}
