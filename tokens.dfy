/** Token kinds, the token record and the two lookup tables of lexer.hpp. */
module Tokens {

  /** The `TokenType` enumeration, as the integers its enumerators stand for: the parser's
      `static_cast`s read those values, so each kind is a constant of an integer type, in
      the order of the enumeration. `DirectiveFill` is named by the parser's directive table
      but is missing from the enumeration; the model gives it the value right after
      `DirectiveAscii` so that the parser can be modelled, and the lexer never produces it. */
  newtype TokenKind = k: int | 0 <= k < 32

  const Mov: TokenKind := 0
  const Cmp: TokenKind := 1
  const Add: TokenKind := 2
  const Sub: TokenKind := 3
  const Jsr: TokenKind := 4
  const Rts: TokenKind := 5
  const Halt: TokenKind := 6
  const Clr: TokenKind := 7
  const Com: TokenKind := 8
  const Inc: TokenKind := 9
  const Dec: TokenKind := 10
  const Neg: TokenKind := 11
  const Jmp: TokenKind := 12
  const Register: TokenKind := 13
  const Number: TokenKind := 14
  const Label: TokenKind := 15
  const DirectiveWord: TokenKind := 16
  const DirectiveByte: TokenKind := 17
  const DirectiveEnd: TokenKind := 18
  const DirectiveEqu: TokenKind := 19
  const DirectiveAscii: TokenKind := 20
  const DirectiveFill: TokenKind := 21
  const Comma: TokenKind := 22
  const LParen: TokenKind := 23
  const RParen: TokenKind := 24
  const Hash: TokenKind := 25
  const At: TokenKind := 26
  const Plus: TokenKind := 27
  const Minus: TokenKind := 28
  const Colon: TokenKind := 29
  const EndOfFile: TokenKind := 30
  const Unknown: TokenKind := 31

  /** A token: its kind, its lexeme, and the line and column of its first character. */
  datatype Token = Token(kind: TokenKind, lexeme: string, line: nat, column: nat)

  predicate IsMnemonic(k: TokenKind)
  {
    k <= Jmp
  }

  /** The `keywords` table: the thirteen upper-case mnemonics. */
  const Keywords: map<string, TokenKind> := map[
    "MOV" := Mov, "CMP" := Cmp, "ADD" := Add, "SUB" := Sub, "JSR" := Jsr, "RTS" := Rts,
    "HALT" := Halt, "CLR" := Clr, "COM" := Com, "INC" := Inc, "DEC" := Dec, "NEG" := Neg,
    "JMP" := Jmp]

  /** The `directives` table: five directive names; `.FILL` is not among them. */
  const Directives: map<string, TokenKind> := map[
    ".WORD" := DirectiveWord, ".BYTE" := DirectiveByte, ".END" := DirectiveEnd,
    ".EQU" := DirectiveEqu, ".ASCII" := DirectiveAscii]

  /** The upper-case spelling of a mnemonic kind. */
  function MnemonicName(k: TokenKind): string
    requires IsMnemonic(k)
  {
    ["MOV", "CMP", "ADD", "SUB", "JSR", "RTS", "HALT", "CLR", "COM", "INC", "DEC", "NEG", "JMP"][k]
  }

  /** The keyword table maps a string to a kind exactly when the string is the upper-case
      name of that mnemonic, so lookup is case-sensitive and total over the mnemonics. */
  lemma KeywordTableExact(s: string, k: TokenKind)
    ensures s in Keywords && Keywords[s] == k <==> IsMnemonic(k) && s == MnemonicName(k)
  {
  }

  lemma KeywordLookupIsCaseSensitive()
    ensures "mov" !in Keywords && "Mov" !in Keywords && "MOV" in Keywords
  {
  }

  /** The directive table holds exactly five entries, each a directive kind other than
      `DirectiveFill`; `.FILL` is absent. */
  lemma DirectiveTableExact()
    ensures Directives.Keys == {".WORD", ".BYTE", ".END", ".EQU", ".ASCII"}
    ensures ".FILL" !in Directives
    ensures forall s :: s in Directives ==> Directives[s] != DirectiveFill
  {
  }
}
