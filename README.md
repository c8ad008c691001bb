# A model of a PDP-11 assembler

The assembler translates PDP-11 assembly text into 16-bit machine words in four passes:

1. the **lexer** turns the text into tokens (`lexer.hpp`, `lexer.cpp`);
2. the **parser** builds a syntax tree of instructions, directives and labels (`parser.cpp`), using the builders of `ast.cpp`;
3. the **symbol table** counts word addresses and records labels and `.EQU` constants (`symtab.cpp`);
4. the **code generator** appends the instruction words and extension words (`codegen.cpp`).

Each pass has two layers in the model:

- **Specification functions** over values, such as a cursor, a token position, a table or an emission.
- **A class** with the fields of the C++ class (`position`/`line`/`column`, `currentPos`, `symbols`/`current_addr`, `output`/`current_pc`). Each method is proved to leave exactly the state the specification function computes.

The properties of each pass are lemmas in a separate module.

Modules:

| file | module | models |
|---|---|---|
| common.dfy | `Common` | `Option`/`Result`, 16-bit words, `uint16_t` truncation, bitwise OR on naturals |
| tokens.dfy | `Tokens` | `TokenType`, `Token`, the `keywords` and `directives` tables |
| lexer.dfy | `Lexer` | `tokenize` and its helpers |
| lexer_props.dfy | `LexerProps` | what the token stream looks like |
| ast.dfy | `Ast` | the syntax tree and the `ASTBuilder` functions |
| parser.dfy | `ParserSpec` | the recursive descent, as functions of a token position |
| parser_class.dfy | `ParserClass` | the `Parser` class |
| parser_props.dfy | `ParserProps` | operand forms, instruction and directive shapes, termination of `parseProgram` |
| symtab.dfy | `SymTab` | `SymbolTable` |
| symtab_props.dfy | `SymTabProps` | sizes, the map, duplicate labels, `.EQU` |
| codegen.dfy | `CodeGen` | `CodeGenerator` |
| codegen_props.dfy | `CodeGenProps` | instruction layout, fields, directives, examples |
| passes.dfy | `Passes` | how the first pass's addresses relate to the emitted words |

Modelling choices:

- **Token kinds.** `TokenType` is a `newtype` over the integers 0..31, in declaration order. The parser reads the enumerator values through `static_cast`, to `Instruction::Type` (parser.cpp:88) and to `Directive::Type` (parser.cpp:124), so the values matter. `DIRECTIVE_FILL` is named at parser.cpp:64 but is not declared in lexer.hpp. The model gives it the value after `DIRECTIVE_ASCII`, and the lexer never produces it.
- **Exceptions.** They are values: `Result`, `Parsed` (result and cursor), `Outcome` (table and error) and `Emission` (words and error). The state after a throw is the state at the throw.
- **Null pointers.** `JSR` and `RTS` read an operand that their builders never set (codegen.cpp:49, 64). This is modelled as the error `MissingOperand`. A `.FILL` without operands in the first pass is modelled as `MissingFillCount`.
- **`std::stoi`.** It is modelled as leading white space, a sign, then the longest run of decimal digits. It fails with `invalid_argument` or `out_of_range`. So `0x1F` reads as 0. Those two exceptions are not `runtime_error`s, so they escape the recovery loop of `parseProgram`, and the model returns them as `Escaped`.
- **`parseProgram` loops forever** on a LABEL that no colon follows. The model returns `Spins(pos)` when an iteration ends where it began, and proves that this happens exactly at such a label.
- **Defects kept as written.** Besides the corrections listed under "## Findings", the model keeps these behaviours of the code:
  - `(`, `-` and number operands are consumed twice;
  - `CLR R0` keeps no operand, because the one-operand builders take the operand after a comma;
  - the generator never looks symbols up, so extension words are the operand's `value`;
  - an indexed operand's offset is emitted once per `encodeOperand` call;
  - `.BYTE` pads after every operand when the count is odd;
  - `encodeRegister` accepts `R8` and `R9`;
  - a symbol's `line` field holds the address counter;
  - the sizes the first pass counts differ from the words the generator emits.

## Model

| member | source | states |
|---|---|---|
| Tokens.KeywordTableExact | lexer.hpp:76-82 | a string maps to a kind in `keywords` exactly when the kind is a mnemonic (one of the first 13 enumerators) and the string is its upper-case name |
| Tokens.KeywordLookupIsCaseSensitive | lexer.hpp:76-82 | `mov` and `Mov` are not keywords; `MOV` is |
| Tokens.DirectiveTableExact | lexer.hpp:84-90 | `directives` holds exactly `.WORD`, `.BYTE`, `.END`, `.EQU` and `.ASCII`; `.FILL` is absent and no entry is the fill kind |
| Lexer.Step | lexer.cpp:97-108 | advancing over a newline moves to the next line at column 1; advancing over any other character moves one column right; at the end nothing changes |
| Lexer.Peek | lexer.cpp:93-95 | the current character, or NUL past the end |
| Lexer.ScanWhile | lexer.cpp:110-114 | the cursor stops at the first character outside the class, and every character it passed is in the class |
| Lexer.NumberEnd | lexer.cpp:128-151 | a number consumes at least its first digit and stays within the text |
| Lexer.Classify | lexer.cpp:162-186 | keywords before directives, then REGISTER exactly for a register name, otherwise LABEL |
| Lexer.Piece | lexer.cpp:10-86 | each turn of the `tokenize` loop consumes at least one character |
| Lexer.LexOntoAppends | lexer.cpp:7-91 | the accumulating loop of `tokenize` appends to what it holds the tokens lexed from the cursor on |
| Lexer.LexFrom | lexer.cpp:7-91 | the tokens lexed from a cursor on; `LexerProps.LexFromShape` proves they end with exactly one END_OF_FILE and are well formed, and `LexerProps.TokensAtTheirPositions` that each is the text at its position |
| Lexer.Tokenize | lexer.cpp:7-91 | `tokenize` from the start of the text; its shape is `LexerProps.TokenizeShape` and the class loop returns it (`Lexer.Lexer.Tokenize`) |
| Lexer.Lexer.constructor | lexer.hpp:71-74 | a fresh lexer starts at position 0, line 1, column 1 |
| Lexer.Lexer.Advance | lexer.cpp:97-108 | the cursor moves as `Step` says, and the character returned is the one it moved over |
| Lexer.Lexer.SkipWhitespace | lexer.cpp:110-114 | the cursor moves past the run of white space |
| Lexer.Lexer.AdvanceWhile | lexer.cpp:110-114 | the cursor moves past the run of characters in the class |
| Lexer.Lexer.ParseNumber | lexer.cpp:128-151 | the NUMBER token is the source slice passed over, with the line and column of its first character |
| Lexer.Lexer.ParseIdentifierOrKeyword | lexer.cpp:153-187 | the token is the maximal identifier run, classified, with the position of its first character |
| Lexer.Lexer.ScanPiece | lexer.cpp:10-86 | one turn of the loop pushes the tokens of that step and leaves the cursor where it says |
| Lexer.Lexer.Tokenize | lexer.cpp:7-91 | the loop returns the token stream the specification function defines and leaves the lexer at the end of the text |
| LexerProps.NumberSliceIsNumber | lexer.cpp:128-151 | a NUMBER lexeme is decimal digits, or `0x`/`0X` then hex digits, or `0o`/`0O` then octal digits |
| LexerProps.IdentifierWellFormed | lexer.cpp:153-187 | an identifier token is classified by its lexeme and is never END_OF_FILE |
| LexerProps.PunctWellFormed | lexer.cpp:36-86 | each of `: , ( ) # @ + -` gives its own one-character token; any other stray character gives an UNKNOWN token holding that character |
| LexerProps.PieceWellFormed | lexer.cpp:10-86 | a turn of the loop pushes at most one token, which is well formed and not END_OF_FILE |
| LexerProps.LexFromShape | lexer.cpp:7-91 | the stream ends with exactly one END_OF_FILE token, the last one, and every token is well formed |
| LexerProps.TokenizeShape | lexer.cpp:7-91 | the same for `tokenize` from the start; every other token has a non-empty lexeme, and none is of the fill kind |
| LexerProps.PieceSlice | lexer.cpp:129-131 | a pushed token's lexeme is the source text at the turn's start, with that line and column |
| LexerProps.ConsLocated | lexer.cpp:10-87 | a token located at `p`, put in front of tokens located after `p`, keeps the positions strictly increasing |
| LexerProps.TokensAtTheirPositions | lexer.cpp:97-108 | every token is the source text at its position, carries the line and column of that position, and the positions strictly increase |
| LexerProps.CommentProducesNoTokens | lexer.cpp:18-24 | text from `;` up to, but not including, the next newline produces no tokens |
| LexerProps.WhitespaceProducesNoTokens | lexer.cpp:13-16 | a run of white space produces no tokens |
| LexerProps.RegisterExactly | lexer.cpp:174-183 | an identifier is a REGISTER exactly when it is `SP`, `PC` or `R0`..`R7` |
| LexerProps.LowerCaseMnemonicIsLabel | lexer.cpp:165-167 | `mov` lexes as LABEL |
| LexerProps.NotRegisters | lexer.cpp:175-186 | `R8` and `R10` lex as LABEL |
| LexerProps.FillIsLabel | lexer.hpp:84-90 | `.FILL` lexes as LABEL |
| Ast.InstrKindOfOrdinal | ast.hpp:55-58 | `Instruction::Type` has 13 enumerators, so the cast finds one exactly below 13 |
| Ast.DirKindOfOrdinal | ast.hpp:69-71 | `Directive::Type` has 6 enumerators, so the cast finds one exactly below 6 |
| Ast.CreateReg | ast.cpp:10-20 | exactly `PC`, `SP` and `R0`..`R7` are accepted, giving a register operand with that name and the other fields at their defaults |
| Ast.CharValue | ast.cpp:193-203 | a `char` read as a signed byte, between -128 and 127, which agrees with the character code modulo 256 |
| Ast.AsciiOperands | ast.cpp:193-203 | one immediate operand per character, in order |
| Ast.CreateAscii | ast.cpp:193-203 | the `for` loop builds an `.ASCII` directive whose i-th operand holds the code of the i-th character |
| Ast.CreateAsciiAgrees | ast.cpp:193-203 | the loop and the function give the same directive |
| Ast.OperandBuilders | ast.cpp:22-77 | each operand builder sets one field and leaves the value at 0 and the names empty; `createAbs` stores its argument as the label |
| Ast.InstructionBuilders | ast.cpp:80-183 | MOV/CMP/ADD/SUB keep both operands; CLR..NEG set only the destination; JSR and JMP target `Relative(target)` with no source; RTS and HALT have no operands |
| Ast.DirectiveBuilders | ast.cpp:212-232 | `.EQU l,v` is `[Relative(l), Immediate(v)]`, `.FILL c,v` is `[Immediate(c), Immediate(v)]`, `.END` holds nothing |
| ParserSpec.TokenAt | parser.cpp:335-341 | past the end, the current token is the END_OF_FILE sentinel |
| ParserSpec.KindAt | parser.cpp:335-341 | a kind other than END_OF_FILE comes from a token inside the list |
| ParserSpec.Next | parser.cpp:351-355 | `advance` moves one token on inside the list and never past its end |
| ParserSpec.AddressingModeAt | parser.cpp:256-332 | the mode and the cursor after it; REGISTER consumes nothing, and a mode that consumes nothing is REGISTER or RELATIVE |
| ParserSpec.DeferredModeAt | parser.cpp:274-292 | a success is REG_DEF or AUTOINC and moves past the register; the token forms and the errors are `ParserSpec.DeferredModeAtCases` |
| ParserSpec.DeferredModeAtCases | parser.cpp:274-292 | after `(`, the tokens `Rn + )` give AUTOINC three tokens on and `Rn )` give REG_DEF two tokens on (the PLUS is tested before the `)`); otherwise the "Expected" error of the first token that does not fit, with the cursor left there (`FirstMismatch`) of whichever of the two forms the second token selects |
| ParserSpec.AutoDecModeAt | parser.cpp:294-305 | a success is AUTODEC and moves past the parenthesis; the token form and the errors are `ParserSpec.AutoDecModeAtCases` |
| ParserSpec.AutoDecModeAtCases | parser.cpp:294-305 | after `-`, the tokens `( Rn )` give AUTODEC three tokens on; otherwise the "Expected" error of the first token that does not fit, with the cursor left there (`FirstMismatch`) |
| ParserSpec.IndexedModeAt | parser.cpp:307-319 | a success is INDEXED and moves past the number; the token form and the errors are `ParserSpec.IndexedModeAtCases` |
| ParserSpec.IndexedModeAtCases | parser.cpp:307-319 | a NUMBER that `std::stoi` refuses raises its exception at the number; one it reads followed by `( Rn )` gives INDEXED four tokens on; otherwise the "Expected" error of the first token that does not fit, with the cursor left there (`FirstMismatch`), from the parenthesis |
| ParserSpec.IndexRegisterAt | parser.cpp:311-318 | the cursor stays inside the list; the token form and the errors are `ParserSpec.IndexRegisterAtCases` |
| ParserSpec.IndexRegisterAtCases | parser.cpp:311-318 | `( Rn )` gives INDEXED three tokens on; otherwise the "Expected" error of the first token that does not fit, with the cursor left there (`FirstMismatch`) |
| ParserSpec.Stoi | parser.cpp:173 | `std::stoi`: a success fits an `int`, and text that is empty after white space is `invalid_argument`; `ParserProps.StoiOfDigits` and `ParserProps.LeadingDigitsRun` give the value it reads |
| ParserSpec.NumberAt | parser.cpp:173 | the current lexeme through `std::stoi`: a value that fits an `int`, or a `StoiFailure`, the exception the recovery loop does not catch |
| ParserSpec.OperandBody | parser.cpp:162-253 | the operand built has the mode `parseAddressingMode` returned |
| ParserSpec.RegDefBody | parser.cpp:195-202 | a success is a REG_DEF operand and consumes at least one token; the token form and the errors are `ParserSpec.RegDefBodyCases` |
| ParserSpec.RegDefBodyCases | parser.cpp:195-202 | `Rn )` builds `Operand(REG_DEF, Rn)` two tokens on; otherwise the "Expected" error of the first token that does not fit, with the cursor left there (`FirstMismatch`) |
| ParserSpec.AutoIncBody | parser.cpp:205-214 | a success is an AUTOINC operand and consumes at least one token; the token form and the errors are `ParserSpec.AutoIncBodyCases` |
| ParserSpec.AutoIncBodyCases | parser.cpp:205-214 | `Rn + )` builds `Operand(AUTOINC, Rn)` three tokens on; otherwise the "Expected" error of the first token that does not fit, with the cursor left there (`FirstMismatch`) |
| ParserSpec.AutoDecBody | parser.cpp:217-228 | a success is an AUTODEC operand and consumes at least one token; the token form and the errors are `ParserSpec.AutoDecBodyCases` |
| ParserSpec.AutoDecBodyCases | parser.cpp:217-228 | `- ( Rn )` builds `Operand(AUTODEC, Rn)` four tokens on; otherwise the "Expected" error of the first token that does not fit, with the cursor left there (`FirstMismatch`) |
| ParserSpec.IndexOffsetAt | parser.cpp:231-240 | the offset of an indexed operand is a number or a label, and the operand built is INDEXED |
| ParserSpec.IndexedBody | parser.cpp:231-250 | a success is an INDEXED operand and consumes at least one token; the token form and the errors are `ParserSpec.IndexedBodyCases` |
| ParserSpec.IndexedBodyCases | parser.cpp:231-250 | an offset that fails raises its error at the offset; an offset followed by `( Rn )` builds `Operand(INDEXED, Rn)` with the offset's value and label four tokens on; otherwise the "Expected" error of the first token that does not fit, with the cursor left there (`FirstMismatch`), from the parenthesis |
| ParserSpec.OperandAt | parser.cpp:158-255 | a successful operand consumes at least one token, and the cursor stays within the list |
| ParserSpec.InstrMap | parser.cpp:37-51 | `instrMap` holds exactly the 13 mnemonic kinds |
| ParserSpec.OperandPairAt | parser.cpp:94-102 | the source operand, then an optional second one; the cursor stays within the list |
| ParserSpec.SecondOperandAt | parser.cpp:97-101 | without a comma there is no second operand and nothing is consumed |
| ParserSpec.InstructionFor | parser.cpp:94-120 | the instruction built from the mnemonic and its operands; the cursor stays within the list |
| ParserSpec.InstructionAt | parser.cpp:87-121 | an instruction consumes its mnemonic at least |
| ParserSpec.DirMap | parser.cpp:58-65 | `dirMap` holds exactly the six directive kinds, `.FILL`'s included |
| ParserSpec.OperandListAt | parser.cpp:127-134 | the comma-separated operand list, empty at END_OF_FILE; the cursor stays within the list |
| ParserSpec.BuildDirective | parser.cpp:136-154 | the switch on the directive kind consumes nothing more |
| ParserSpec.DirectiveAt | parser.cpp:123-155 | with the corrected dispatch, a directive consumes its token at least |
| ParserSpec.DirectiveAtAsWritten | parser.cpp:123-155 | with the cast as written, a directive consumes its token at least; `ParserProps.DirectiveAsWrittenRejects` proves that it always fails |
| ParserSpec.ListStep | parser.cpp:130-134 | one turn of the operand loop: an error ends it, a missing comma ends it with one operand, a comma goes on to the next |
| ParserSpec.Recover | parser.cpp:18-22 | recovery stops at the first LABEL or END_OF_FILE, or at the end, and skips nothing else |
| ParserSpec.StatementAt | parser.cpp:29-72 | a statement that succeeds, or that starts with a label and a colon, consumes a token |
| ParserSpec.LabelAt | parser.cpp:74-85 | with the colon consumed, a label consumes its name and colon at least |
| ParserSpec.LabelAtAsWritten | parser.cpp:74-85 | with the colon left unconsumed, a label consumes its name at least; `ParserProps.LabelAsWrittenRejects` proves that it always fails at the colon |
| ParserSpec.ProgramFrom | parser.cpp:7-27 | the loop is reported as endless only at a LABEL that no colon follows |
| ParserSpec.StrayLabel | parser.cpp:16-23 | an iteration that fails and recovers to where it began started on a LABEL without a colon |
| ParserClass.Parser.constructor | parser.hpp:32-33 | the parser starts at token 0 |
| ParserClass.Parser.Advance | parser.cpp:351-355 | the cursor moves one token on while inside the list |
| ParserClass.Parser.ParseAddressingMode | parser.cpp:256-332 | the mode and the new cursor are those of the specification function |
| ParserClass.Parser.ParseDeferredMode | parser.cpp:274-292 | the mode and the new cursor are those of the specification function |
| ParserClass.Parser.ParseAutoDecMode | parser.cpp:294-305 | the mode and the new cursor are those of the specification function |
| ParserClass.Parser.ParseIndexedMode | parser.cpp:307-319 | the mode and the new cursor are those of the specification function |
| ParserClass.Parser.ParseOperand | parser.cpp:158-255 | the operand or error and the new cursor are those of the specification function |
| ParserClass.Parser.ParseRegDefOperand | parser.cpp:195-202 | the operand or error and the new cursor are those of the specification function |
| ParserClass.Parser.ParseAutoIncOperand | parser.cpp:205-214 | the operand or error and the new cursor are those of the specification function |
| ParserClass.Parser.ParseAutoDecOperand | parser.cpp:217-228 | the operand or error and the new cursor are those of the specification function |
| ParserClass.Parser.ParseIndexOffset | parser.cpp:231-240 | the offset operand as the specification function reads it |
| ParserClass.Parser.ParseIndexedOperand | parser.cpp:231-250 | the operand or error and the new cursor are those of the specification function |
| ParserClass.Parser.ParseInstruction | parser.cpp:87-121 | the same for instructions |
| ParserClass.Parser.ParseOperandPair | parser.cpp:94-102 | the operand pair and the new cursor are those of the specification function |
| ParserClass.Parser.ParseSecondOperand | parser.cpp:97-101 | the optional second operand and the new cursor are those of the specification function |
| ParserClass.Parser.ParseInstructionOperands | parser.cpp:94-120 | the instruction and the new cursor are those of the specification function |
| ParserClass.Parser.ParseOperandList | parser.cpp:127-134 | the loop collects the operand list the specification function defines |
| ParserClass.Parser.ParseDirective | parser.cpp:123-155 | the same for directives, with the corrected dispatch |
| ParserClass.Parser.ParseStatement | parser.cpp:29-72 | the same for statements |
| ParserClass.Parser.ParseLabel | parser.cpp:74-85 | the same for labels, with the colon consumed |
| ParserClass.Parser.ParseProgram | parser.cpp:7-27 | the loop gives the program, the escaped exception, or the position where it would spin |
| ParserProps.StoiOfDigits | parser.cpp:173 | `std::stoi` reads a run of decimal digits that fits an `int` as its decimal value |
| ParserProps.LeadingDigitsRun | parser.cpp:173 | `std::stoi` reads the longest run of digits at the front |
| ParserProps.StoiOfScannedDigits | parser.cpp:173 | a NUMBER lexeme made only of decimal digits, below 2^31, reads as its decimal value |
| ParserProps.PrefixedLiteralsReadAsZero | parser.cpp:173 | the lexer's `0x` and `0o` literals read as 0 |
| ParserProps.OperandAccepts | parser.cpp:158-332 | every operand `parseOperand` accepts has one of the listed token forms; `(`, `-` and number forms must appear twice |
| ParserProps.SimpleAccepts | parser.cpp:164-192 | a register, immediate, absolute or relative operand has its listed form |
| ParserProps.RegDefAccepts | parser.cpp:195-202 | an accepted REG_DEF operand has its listed form |
| ParserProps.AutoIncAccepts | parser.cpp:205-214 | an accepted AUTOINC operand has its listed form |
| ParserProps.AutoDecAccepts | parser.cpp:217-228 | an accepted AUTODEC operand has its listed form |
| ParserProps.IndexedAccepts | parser.cpp:231-250 | an accepted INDEXED operand has its listed form |
| ParserProps.OperandFormAccepted | parser.cpp:158-332 | conversely, every listed form is accepted, with the operand and the cursor the form names |
| ParserProps.RegDefFormAccepted | parser.cpp:195-202 | the REG_DEF form is accepted as that operand, ending at that cursor |
| ParserProps.AutoIncFormAccepted | parser.cpp:205-214 | the AUTOINC form is accepted as that operand, ending at that cursor |
| ParserProps.AutoDecFormAccepted | parser.cpp:217-228 | the AUTODEC form is accepted as that operand, ending at that cursor |
| ParserProps.IndexedFormAccepted | parser.cpp:231-250 | the INDEXED form is accepted as that operand, ending at that cursor |
| ParserProps.InstructionCastAgrees | parser.cpp:88 | the `static_cast` of a mnemonic kind gives the kind `instrMap` names |
| ParserProps.InstructionWithoutOperands | parser.cpp:94-111 | RTS and HALT consume only the mnemonic |
| ParserProps.BuildsEveryKind | parser.cpp:104-120 | the switch builds an instruction for every mnemonic kind |
| ParserProps.OperandPairShape | parser.cpp:96-101 | one operand, and a second one exactly when a comma follows |
| ParserProps.InstructionOperands | parser.cpp:94-117 | every other mnemonic fails exactly when its operands fail |
| ParserProps.InstructionKeeps | parser.cpp:104-117 | MOV..SUB keep (src, dst); CLR..NEG keep only the operand after the comma; JSR and JMP jump to `Relative(src.label)` |
| ParserProps.ClrWithoutCommaHasNoDestination | parser.cpp:112 | `CLR R0` parses to a CLR with no operand |
| ParserProps.DirectiveShape | parser.cpp:130-151 | `.WORD`/`.BYTE` keep the operand list; `.END` drops it; `.ASCII` needs one operand; `.EQU` and `.FILL` need exactly two |
| ParserProps.DirectiveCastNeverMatches | parser.cpp:124 | every directive token kind is cast to a value outside `Directive::Type` |
| ParserProps.DirectiveAsWrittenRejects | parser.cpp:123-155 | as written, every directive is an error, "Unsupported directive" when its operands parse |
| ParserProps.WordDirectiveExample | parser.cpp:123-155 | `.WORD #5` is rejected as written and gives `[Immediate(5)]` once corrected |
| ParserProps.WordOperands | parser.cpp:127-134 | `#5` followed by END_OF_FILE is the operand list `[Immediate(5)]` |
| ParserProps.FiveReadsAsFive | parser.cpp:173 | `std::stoi("5")` is 5 |
| ParserProps.LabelAsWrittenRejects | parser.cpp:74-85 | as written, every label is an "Unexpected token" error at the colon |
| ParserProps.LabelShape | parser.cpp:74-85 | with the colon consumed, a label owns the statement after it, or none at END_OF_FILE, and fails exactly when that statement fails |
| ParserProps.ProgramKeepsPrefix | parser.cpp:10-24 | the statements kept so far stay at the front of the program |
| ParserProps.ParsedStartsOrdered | parser.cpp:10-24 | the cursors at which the loop parses a statement strictly increase, lie inside the list, and are cursors where `parseStatement` succeeds |
| ParserProps.ProgramKeepsParsedStatements | parser.cpp:10-24 | a finished program is the statements held before, then the statement parsed at each of those cursors, in order; a statement that throws adds nothing |
| ParserProps.ProgramIsParsedStatements | parser.cpp:7-27 | from the start, a finished program holds exactly the statements that parsed, as `parseStatement` returned them, in the order of their strictly increasing cursors |
| ParserProps.StrayLabelSpins | parser.cpp:16-23 | at a LABEL that no colon follows, the loop never ends |
| ParserProps.StrayLabelExample | parser.cpp:7-27 | `FOO HALT` spins at `FOO` |
| ParserProps.LabelledHaltExample | parser.cpp:7-85 | `L1: HALT` parses, once corrected, to a label owning HALT |
| ParserProps.MoveImmediateExample | parser.cpp:7-121 | `MOV #5, R0` parses to MOV with `Immediate(5)` and `Register(R0)` |
| SymTab.Bump | symtab.hpp:34 | the address counter is a `uint16_t`: additions wrap modulo 2^16 |
| SymTab.EquStep | symtab.cpp:51-68 | only `.EQU` writes; it fails exactly with other than two operands and never moves the counter |
| SymTab.LabelStep | symtab.cpp:70-81 | a label never moves the counter |
| SymTab.ErrorStops | symtab.cpp:4-12 | the first exception ends the walk |
| SymTab.Step | symtab.cpp:14-44 | `processNode`; `SymTabProps.StepAdvancesBySize` proves the counter moves by the node's size and `SymTabProps.StatementKeepsMap`, `StepKeepsDefined` and `StepKeepsEntry` what it writes |
| SymTab.DirectiveStep | symtab.cpp:20-36 | `processDirective` followed by the counter update; `SymTabProps.EquDefines`, `EquArity` and `StepAdvancesBySize` state its effect |
| SymTab.StepAll | symtab.cpp:7-9 | the walk over the statements; `SymTabProps.StepAllAdvances`, `StepAllAppend` and `StepAllKeepsDefined` state its effect, and `SymTab.ErrorStops` that the first exception ends it |
| SymTab.BuildTable | symtab.cpp:4-12 | the walk from address 0; `SymTabProps.BuildCountsFromZero` and `SymTabProps.ValidateNeverFails` state its result |
| SymTab.SymbolTable.constructor | symtab.hpp:30-34 | the table starts empty, at address 0 |
| SymTab.SymbolTable.Build | symtab.cpp:4-12 | the fields end as the walk from address 0 leaves them, the walk's exception is returned, and otherwise `validate` reports exactly the entries not defined |
| SymTab.SymbolTable.ProcessNode | symtab.cpp:14-44 | the fields and the exception are those of the specification step |
| SymTab.SymbolTable.ProcessDirective | symtab.cpp:51-68 | the same for `processDirective` |
| SymTab.SymbolTable.ProcessLabel | symtab.cpp:70-81 | the same for `processLabel` |
| SymTab.SymbolTable.Resolve | symtab.cpp:83-88 | it succeeds exactly for a stored name and returns its value; otherwise "Undefined symbol" |
| SymTab.SymbolTable.Validate | symtab.cpp:90-95 | it fails exactly when some entry is not defined, naming such an entry |
| SymTabProps.StepAdvancesBySize | symtab.cpp:14-44 | an instruction adds 2 with a destination and 1 without; `.WORD` adds n, `.BYTE` (n+1)/2, `.FILL` its first operand's value and any other directive 0; a label adds the size of its statement; all modulo 2^16 |
| SymTabProps.StepAllAdvances | symtab.cpp:7-9 | after the walk, the counter is the start plus the total size, modulo 2^16 |
| SymTabProps.BuildCountsFromZero | symtab.cpp:4-12 | `build` counts from 0 |
| SymTabProps.StepAllAppend | symtab.cpp:7-9 | statements are processed in program order |
| SymTabProps.StatementKeepsMap | symtab.cpp:14-37 | instructions and directives other than `.EQU` leave the map alone |
| SymTabProps.StepKeepsDefined | symtab.cpp:61-80 | every entry written is marked defined |
| SymTabProps.StepAllKeepsDefined | symtab.cpp:7-9 | a whole walk keeps every entry defined |
| SymTabProps.ValidateNeverFails | symtab.cpp:90-95 | from an empty map, every entry is defined, so `validate` never throws |
| SymTabProps.LabelRecordsAddress | symtab.cpp:38-43 | a new label records the address before its statement unless that statement rebinds the name; the statement is then processed at the same address, and the counter moves by the label's size |
| SymTabProps.StepKeepsEntry | symtab.cpp:14-81 | a defined entry survives any statement that does not rebind its name |
| SymTabProps.Size | symtab.cpp:17-43 | the number of words the first pass counts for a node; `SymTabProps.StepAdvancesBySize` proves the counter moves by it |
| SymTabProps.DuplicateRejected | symtab.cpp:71-73 | a name already defined, by a label or by `.EQU`, is a "Duplicate label" error that changes nothing |
| SymTabProps.EquDefines | symtab.cpp:52-67 | `.EQU` stores the constant truncated to 16 bits, with no duplicate check and without moving the counter |
| SymTabProps.EquArity | symtab.cpp:54-56 | `.EQU` fails exactly when it has other than two operands |
| SymTabProps.EquThenLabel | symtab.cpp:61-73 | a constant and then a label of the same name is a duplicate |
| SymTabProps.LabelThenEqu | symtab.cpp:61-80 | a label and then a constant of the same name: the constant replaces it |
| SymTabProps.CountingExample | symtab.cpp:4-44 | `START: MOV #5,R0` / `LOOP: CLR R0,R1` / `HALT`, whose CLR keeps `R1` as its destination, gives START 0, LOOP 2 and a final count of 5 |
| CodeGen.RegisterCode | codegen.cpp:166-173 | `PC` is 7, `SP` is 6, `R` with any decimal digit is that digit; anything else is "Invalid register" |
| CodeGen.OperandField | codegen.cpp:129-164 | every field fits in six bits (with the autodecrement correction) |
| CodeGen.AutoDecFieldAsWritten | codegen.cpp:152-154 | the as-written autodecrement field fits in six bits |
| CodeGen.Then | codegen.cpp:18-22 | an exception in the first piece ends the walk; otherwise the words are concatenated |
| CodeGen.FieldOf | codegen.cpp:77-94 | an absent operand's field is 0, and every field is below 64 |
| CodeGen.Opcode | codegen.cpp:40-67 | the opcode of each instruction kind except JSR, RTS and HALT; its layout is `CodeGenProps.OpcodeLayout` |
| CodeGen.PrimaryWord | codegen.cpp:108 | `opcode \| src * 0100 \| dst`; `CodeGenProps.PrimaryWordLayout` proves it is their sum and that each part is recovered from it |
| CodeGen.OperandEmission | codegen.cpp:129-164 | one `encodeOperand` call: the field's error, or the offset of an indexed operand and nothing otherwise; `CodeGenProps.OperandFieldLayout` states the field |
| CodeGen.JsrEmission | codegen.cpp:46-54 | the `JSR` case; `CodeGenProps.SubroutineInstructionsFail` proves it fails on what `createJsr` builds |
| CodeGen.RtsEmission | codegen.cpp:63-65 | the `RTS` case; `CodeGenProps.SubroutineInstructionsFail` proves it fails on what `createRts` builds |
| CodeGen.FieldPasses | codegen.cpp:77-94 | the four `encodeOperand` calls before the primary word; `CodeGenProps.GenericInstructionWords` and `CodeGenProps.JumpWords` give the words they append |
| CodeGen.FinalWords | codegen.cpp:96-125 | the primary word and the extension words, or the `JMP` form; stated by `CodeGenProps.GenericInstructionWords` and `CodeGenProps.JumpWords` |
| CodeGen.InstructionEmission | codegen.cpp:33-127 | `encodeInstruction`; `CodeGenProps.GenericInstructionWords`, `JumpWords`, `PlainInstructionWords`, `IndexedSourceTripled` and `ImmediateDestinationRefused` state its words and errors |
| CodeGen.DirectiveWords | codegen.cpp:175-198 | the words of a directive's operands, in order; `CodeGenProps.WordDirectiveWords`, `ByteDirectiveWords` and `AsciiDirectiveWords` state them |
| CodeGen.NodeEmission | codegen.cpp:24-32 | one statement's words; `CodeGenProps.LabelsEmitNothing` proves a label adds none of its own |
| CodeGen.ProgramEmission | codegen.cpp:18-22 | the statements' words in order, ending at the first exception; `CodeGenProps.ProgramAppend` and `CodeGen.ProgramErrorStops` state it |
| CodeGen.Generated | codegen.cpp:5-10 | the code `generate` returns, or its exception; `CodeGen.CodeGenerator.Generate` returns it and `CodeGenProps.GenerateExample` computes one |
| CodeGen.CodeGenerator.constructor | codegen.hpp:25-26 | an empty output and a zero counter |
| CodeGen.CodeGenerator.Generate | codegen.cpp:5-10 | the output is cleared and holds exactly the program's words; the result is the code or the exception |
| CodeGen.CodeGenerator.Emit | codegen.cpp:12-16 | one word appended, and the counter still counts the words modulo 2^16 |
| CodeGen.CodeGenerator.VisitProgram | codegen.cpp:18-22 | the loop appends the statements' words in order and stops at the first exception |
| CodeGen.CodeGenerator.VisitNode | codegen.cpp:24-32 | a label appends only its statement's words |
| CodeGen.CodeGenerator.EncodeInstruction | codegen.cpp:33-127 | the words appended and the exception are those of the specification function |
| CodeGen.CodeGenerator.EncodeJsr | codegen.cpp:46-54 | the same for the `JSR` case |
| CodeGen.CodeGenerator.EncodeRts | codegen.cpp:63-65 | the same for the `RTS` case |
| CodeGen.CodeGenerator.EncodeGeneric | codegen.cpp:77-125 | the same for every other kind: the double encoding of the operands, then the final words |
| CodeGen.CodeGenerator.EncodeFields | codegen.cpp:77-94 | the same for the double encoding of the operands |
| CodeGen.CodeGenerator.EncodeOptional | codegen.cpp:77-94 | an operand that is present is encoded, appending its extension words; an absent one appends nothing |
| CodeGen.CodeGenerator.EncodeFinal | codegen.cpp:96-125 | the same for the primary word and the extension words |
| CodeGen.CodeGenerator.EncodeOperand | codegen.cpp:129-164 | the field is returned, and an indexed operand's offset is appended at once |
| CodeGen.CodeGenerator.VisitDirective | codegen.cpp:175-198 | the directive's words are appended in operand order |
| CodeGen.CodeGenerator.EmitChunk | codegen.cpp:178-193 | one turn of a directive loop |
| CodeGen.ProgramStep | codegen.cpp:18-22 | after statements that threw nothing, one more statement appends its words and its exception, if any, is the walk's |
| CodeGen.ProgramErrorStops | codegen.cpp:18-22 | an exception at a statement ends the walk |
| CodeGen.EmptyChunks | codegen.cpp:195-196 | `.EQU`, `.END` and `.FILL` emit nothing |
| CodeGenProps.ThenAssociative | codegen.cpp:18-22 | pieces of the walk compose associatively |
| CodeGenProps.ProgramAppend | codegen.cpp:18-22 | `a + b` emits `a`'s words, then `b`'s |
| CodeGenProps.LabelsEmitNothing | codegen.cpp:24-28 | a program emits what it emits with its labels replaced by the statements they own |
| CodeGenProps.RegisterNames | codegen.cpp:166-173 | every register name the lexer accepts gets a code below 8, with SP equal to R6 and PC equal to R7 |
| CodeGenProps.RegisterCodeLenient | codegen.cpp:169-171 | `R8` and `R9` are accepted, with codes 8 and 9 |
| CodeGenProps.OrModeRegister | codegen.cpp:146-157 | ORing a mode's bits onto a register below 8 is `8 * mode + register` |
| CodeGenProps.OperandFieldLayout | codegen.cpp:129-164 | every field is the PDP-11 mode number times 8 plus the register; the fixed codes are 027, 037 and 067 |
| CodeGenProps.FieldsTellModesApart | codegen.cpp:146-157 | two register-based operands in different modes get different fields |
| CodeGenProps.AutoDecAsWrittenIsMode3 | codegen.cpp:152-154 | as written, `-(Rn)` is encoded with mode 3, and `-(PC)` gets the field of `@#a` |
| CodeGenProps.AutoDecIsMode4 | codegen.cpp:152-154 | corrected, `-(Rn)` is mode 4 and differs from every other form's field |
| CodeGenProps.PrimaryWordLayout | codegen.cpp:108 | the primary word is `opcode + 64 * src + dst`, and each part is recovered from the word |
| CodeGenProps.OpcodeLayout | codegen.cpp:40-67 | every opcode is non-zero and leaves the six destination bits free; a double-operand opcode also leaves the six source bits free |
| CodeGenProps.SingleOperandLayout | codegen.cpp:56-60 | a CLR..NEG word is the opcode plus the destination field |
| CodeGenProps.PlainInstructionWords | codegen.cpp:108-125 | without indexed operands, the primary word comes first, then the source's and the destination's extension words |
| CodeGenProps.GenericInstructionWords | codegen.cpp:77-125 | for every instruction but JSR, RTS, HALT and JMP: the source, then the destination, each encoded twice, then the primary word and the source's and destination's extension words; the first operand that fails ends it |
| CodeGenProps.IndexedSourceTripled | codegen.cpp:79-125 | for every such instruction with an indexed source (and a destination that is not indexed), the offset is emitted twice before the primary word and once after it |
| CodeGenProps.JumpWords | codegen.cpp:77-106 | `JMP`: octal 000100 plus the destination field after the field passes, with an extension word only for a relative or absolute target; "JMP requires destination" without one |
| CodeGenProps.HaltExample | codegen.cpp:66 | HALT is the word 0 |
| CodeGenProps.MoveImmediateExample | codegen.cpp:40-125 | `MOV #5,R0` is octal 012700 followed by 5 |
| CodeGenProps.JumpExample | codegen.cpp:97-106 | `JMP L` is octal 000167 followed by 0; no symbol lookup happens |
| CodeGenProps.SubroutineInstructionsFail | codegen.cpp:46-65 | JSR and RTS as the builders make them read a missing operand |
| CodeGenProps.ImmediateDestinationRefused | codegen.cpp:136-139 | every instruction but JSR, RTS and HALT with an immediate destination fails, with "Immediate mode not allowed for destination" once its source has encoded |
| CodeGenProps.GenerateExample | codegen.cpp:5-28 | `START: MOV #5,R0` / `HALT` gives 012700, 5, 0 |
| CodeGenProps.WordDirectiveWords | codegen.cpp:177-181 | `.WORD` emits each value, truncated to 16 bits, in order |
| CodeGenProps.AsciiDirectiveWords | codegen.cpp:190-194 | `.ASCII` emits the low byte of each operand, in order |
| CodeGenProps.ByteDirectiveWords | codegen.cpp:182-189 | `.BYTE` emits the low bytes, with a 0 after each one when the count is odd |
| CodeGenProps.AsciiText | codegen.cpp:190-194 | `.ASCII name` (the parser passes the label operand's name as the text) emits one word per character of the name, its code modulo 256 |
| CodeGenProps.LittleEndian | main.cpp:9-16 | the bytes written for the code, two per word |
| CodeGenProps.LittleEndianRoundTrip | main.cpp:9-16 | each word is written as two bytes, low first, and is recovered from them |
| Passes.SingleOperandCountedTwice | symtab.cpp:18 | a CLR..NEG on a register is counted as two words but emits one |
| Passes.FillEmitsNothing | symtab.cpp:30-32 | `.FILL n, v` is counted as n words and emits none |
| Passes.IndexedCountedTwoEmitsFour | codegen.cpp:155-157 | `MOV X(Rn)X(Rn),R0`, which parses to MOV from `X(Rn)` to R0, is counted as two words and emits four |
| Passes.LabelAfterSingleOperand | symtab.cpp:38-43 | in `A: CLR R0,Rn` / `B:`, whose CLR keeps `Rn` as its destination, B is recorded at 2 although one word precedes it |

## Left out

- Reading the input file, argument handling, writing the output file and exit codes (main.cpp) are I/O. Only the little-endian split is modelled.
- The debug `printf` calls in the parser and the generator have no effect on the result and are not modelled.
- The visitor and `dynamic_cast` dispatch are replaced by matching on the `Node` datatype. The empty `visit(const Operand&)` and `processInstruction` do nothing, so they are not modelled.
- The generator keeps a reference to the symbol table that it never reads. The model has no such field.
- The `default:` branches that throw "Unsupported instruction" and "Unknown addressing mode" cannot be reached with a well-typed tree, so they have no error value.
- `validate` walks an `unordered_map` in an unspecified order. The model picks an arbitrary entry, and `SymTab.SymbolTable.Validate` promises only that a reported entry is one not defined, not which one.
- C++ leaves open the order in which the operands of `|` are evaluated on the `JSR` line. The model evaluates the source register before the destination field. This decides which exception comes first when both fail.
- `SymTab.SymbolTable.CurrentAddress` is a getter and has no contract of its own.
- `std::stoi` is modelled on decimal digits only, as the parser uses it.
- `int` overflow in the parser's values is not modelled: operand values are unbounded integers, truncated to 16 bits where the source stores them in a `uint16_t`.
- `isspace` and `isxdigit` are modelled as their ASCII sets.
- The source text is a sequence of characters, read as ASCII. lexer.cpp works on the bytes of a `std::string`: a non-ASCII character written in UTF-8 gives one UNKNOWN token and one column per byte, and `isspace` receives a negative `char` for it. The model gives one UNKNOWN token and one column per character, and `Ast.CharValue` reads a character code modulo 256.

## Findings

| source | as written | input that shows it | evidently intended | confidence | as-written member | corrected member |
|---|---|---|---|---|---|---|
| parser.cpp:124 | the directive token kind is cast to `Directive::Type`, and every directive token's value (16 and above) is past that enumeration, so every directive is "Unsupported directive" | `.WORD #5` | dispatch on the kind `dirMap` names (parser.cpp:58-65) | high, not executed | ParserSpec.DirectiveAtAsWritten, ParserProps.DirectiveAsWrittenRejects | ParserSpec.DirectiveAt, ParserProps.DirectiveShape |
| parser.cpp:74-85 | `expect` checks the colon but does not consume it, so the statement after the label starts at `:` and fails with "Unexpected token: :" | `L1: HALT` | advance past the colon before parsing the owned statement | high, not executed | ParserSpec.LabelAtAsWritten, ParserProps.LabelAsWrittenRejects | ParserSpec.LabelAt, ParserProps.LabelShape |
| codegen.cpp:153 | autodecrement is encoded as octal 030, which is the PDP-11's mode 3 (autoincrement deferred) | `MOV -(R1)-(R1),R0` (the parser reads `-(R1)` twice): source field 031 instead of 041; `-(PC)` gets the same field as `@#a` | octal 040, mode 4 | high, not executed | CodeGen.AutoDecFieldAsWritten, CodeGenProps.AutoDecAsWrittenIsMode3 | CodeGen.OperandField, CodeGenProps.AutoDecIsMode4 |
