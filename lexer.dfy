/** The tokenizer of lexer.cpp: specification functions over a cursor, and the `Lexer` class
    whose methods update `position`, `line` and `column` as the source does. */
module Lexer {
  import opened Tokens

  // ---------------------------------------------------------------- character classes

  /** `isspace` in the "C" locale. */
  predicate IsSpace(c: char)
  {
    c == ' ' || c == '\t' || c == '\n' || c == '\r' || c as int == 0x0B || c as int == 0x0C
  }

  predicate IsDigit(c: char) { '0' <= c <= '9' }

  predicate IsAlpha(c: char) { 'a' <= c <= 'z' || 'A' <= c <= 'Z' }

  predicate IsAlphaNumeric(c: char) { IsAlpha(c) || IsDigit(c) }

  /** `isxdigit` in the "C" locale. */
  predicate IsHexDigit(c: char) { IsDigit(c) || 'a' <= c <= 'f' || 'A' <= c <= 'F' }

  predicate IsOctDigit(c: char) { '0' <= c <= '7' }

  predicate IsIdentChar(c: char) { IsAlphaNumeric(c) || c == '.' }

  /** The character classes that the scanning loops of the lexer run over. */
  datatype CharClass = Space | Digit | HexDigit | OctDigit | IdentChar | NotNewline

  predicate InClass(cls: CharClass, c: char)
  {
    match cls
    case Space => IsSpace(c)
    case Digit => IsDigit(c)
    case HexDigit => IsHexDigit(c)
    case OctDigit => IsOctDigit(c)
    case IdentChar => IsIdentChar(c)
    case NotNewline => c != '\n'
  }

  // ---------------------------------------------------------------- the cursor

  /** The lexer's `position`, `line` and `column`. */
  datatype Cursor = Cursor(pos: nat, line: nat, column: nat)

  /** The cursor of a fresh lexer. */
  const Start: Cursor := Cursor(0, 1, 1)

  /** `peek`: the character at a position, or NUL past the end. */
  function Peek(src: string, pos: nat): char
  {
    if pos < |src| then src[pos] else '\0'
  }

  /** `advance`: past the end nothing moves; a newline starts the next line at column 1;
      any other character moves one column to the right. */
  function Step(src: string, c: Cursor): (d: Cursor)
    ensures c.pos < |src| ==> d.pos == c.pos + 1
    ensures c.pos < |src| && src[c.pos] == '\n' ==> d.line == c.line + 1 && d.column == 1
    ensures c.pos < |src| && src[c.pos] != '\n' ==> d.line == c.line && d.column == c.column + 1
    ensures c.pos >= |src| ==> d == c
  {
    if c.pos >= |src| then c
    else if src[c.pos] == '\n' then Cursor(c.pos + 1, c.line + 1, 1)
    else Cursor(c.pos + 1, c.line, c.column + 1)
  }

  /** A loop `while (P(peek())) advance();` (with `position < size` also tested, which is the
      same thing for every class but `NotNewline`, since NUL is in no other class). */
  function ScanWhile(src: string, c: Cursor, cls: CharClass): (d: Cursor)
    requires c.pos <= |src|
    ensures c.pos <= d.pos <= |src|
    ensures forall i :: c.pos <= i < d.pos ==> InClass(cls, src[i])
    ensures d.pos < |src| ==> !InClass(cls, src[d.pos])
    decreases |src| - c.pos
  {
    if c.pos < |src| && InClass(cls, src[c.pos]) then ScanWhile(src, Step(src, c), cls) else c
  }

  /** `parseNumber`: a leading `0` followed by `x`/`X` or `o`/`O` selects a run of hex or
      octal digits; otherwise a run of decimal digits. */
  function NumberEnd(src: string, c: Cursor): (d: Cursor)
    requires c.pos < |src| && IsDigit(src[c.pos])
    ensures c.pos < d.pos <= |src|
  {
    if src[c.pos] == '0' then
      var c1 := Step(src, c);
      if Peek(src, c1.pos) == 'x' || Peek(src, c1.pos) == 'X' then ScanWhile(src, Step(src, c1), HexDigit)
      else if Peek(src, c1.pos) == 'o' || Peek(src, c1.pos) == 'O' then ScanWhile(src, Step(src, c1), OctDigit)
      else ScanWhile(src, c1, Digit)
    else ScanWhile(src, c, Digit)
  }

  // ---------------------------------------------------------------- classification

  /** The register test of `parseIdentifierOrKeyword`, as the source writes it. */
  predicate LexesAsRegister(v: string)
  {
    && (|v| == 2 || |v| == 3)
    && (v[0] == 'R' || v == "SP" || v == "PC")
    && (if v[0] == 'R' then |v| == 2 && '0' <= v[1] <= '7' else v == "SP" || v == "PC")
  }

  /** The register names of the machine: `SP`, `PC` and `R0` to `R7`. */
  predicate IsRegisterName(v: string)
  {
    v == "SP" || v == "PC" || (|v| == 2 && v[0] == 'R' && '0' <= v[1] <= '7')
  }

  /** The kind of an identifier: keyword, else directive, else register, else label. */
  function Classify(v: string): (k: TokenKind)
    ensures v in Keywords ==> k == Keywords[v]
    ensures v !in Keywords && v in Directives ==> k == Directives[v]
    ensures v !in Keywords && v !in Directives ==> (k == Register <==> IsRegisterName(v))
    ensures v !in Keywords && v !in Directives && !IsRegisterName(v) ==> k == Label
  {
    if v in Keywords then Keywords[v]
    else if v in Directives then Directives[v]
    else if LexesAsRegister(v) then Register
    else Label
  }

  /** The kind of a one-character token: punctuation, or `Unknown`. */
  function PunctKind(ch: char): TokenKind
  {
    match ch
    case ':' => Colon
    case ',' => Comma
    case '(' => LParen
    case ')' => RParen
    case '#' => Hash
    case '@' => At
    case '+' => Plus
    case '-' => Minus
    case _ => Unknown
  }

  // ---------------------------------------------------------------- the token stream

  /** One iteration of the `tokenize` loop at cursor `c`: the tokens it pushes (none for
      whitespace and comments, one otherwise) and the cursor it leaves. */
  function Piece(src: string, c: Cursor): (r: (seq<Token>, Cursor))
    requires c.pos < |src|
    ensures c.pos < r.1.pos <= |src|
  {
    var ch := src[c.pos];
    if IsSpace(ch) then ([], ScanWhile(src, c, Space))
    else if ch == ';' then ([], ScanWhile(src, c, NotNewline))
    else if IsDigit(ch) then
      var d := NumberEnd(src, c);
      ([Token(Number, src[c.pos..d.pos], c.line, c.column)], d)
    else if IsAlpha(ch) || ch == '.' then
      var d := ScanWhile(src, c, IdentChar);
      var v := src[c.pos..d.pos];
      ([Token(Classify(v), v, c.line, c.column)], d)
    else
      ([Token(PunctKind(ch), [ch], c.line, c.column)], Step(src, c))
  }

  /** The tokens that the `tokenize` loop produces from cursor `c` to the end of `src`,
      the `END_OF_FILE` token included. */
  function LexFrom(src: string, c: Cursor): seq<Token>
    requires c.pos <= |src|
    decreases |src| - c.pos
  {
    if c.pos >= |src| then [Token(EndOfFile, "", c.line, c.column)]
    else
      var r := Piece(src, c);
      r.0 + LexFrom(src, r.1)
  }

  /** The `tokenize` loop as it runs: `acc` holds the tokens pushed so far. */
  function LexOnto(src: string, c: Cursor, acc: seq<Token>): seq<Token>
    requires c.pos <= |src|
    decreases |src| - c.pos
  {
    if c.pos >= |src| then acc + [Token(EndOfFile, "", c.line, c.column)]
    else LexOnto(src, Piece(src, c).1, acc + Piece(src, c).0)
  }

  /** Running the loop onto `acc` appends to `acc` what `LexFrom` describes. */
  lemma {:induction false} LexOntoAppends(src: string, c: Cursor, acc: seq<Token>)
    requires c.pos <= |src|
    ensures LexOnto(src, c, acc) == acc + LexFrom(src, c)
    decreases |src| - c.pos
  {
    if c.pos < |src| {
      var r := Piece(src, c);
      LexOntoAppends(src, r.1, acc + r.0);
      assert (acc + r.0) + LexFrom(src, r.1) == acc + (r.0 + LexFrom(src, r.1));
    }
  }

  /** The result of `tokenize` on a fresh lexer. */
  function Tokenize(src: string): seq<Token>
  {
    LexFrom(src, Start)
  }

  // ---------------------------------------------------------------- the class

  class Lexer {
    const source: string
    var position: nat
    var line: nat
    var column: nat

    function Cur(): Cursor
      reads this
    {
      Cursor(position, line, column)
    }

    ghost predicate Valid()
      reads this
    {
      position <= |source|
    }

    /** A lexer starts at position 0, line 1, column 1. */
    constructor (source: string)
      ensures Valid() && this.source == source
      ensures Cur() == Start
    {
      this.source := source;
      position, line, column := 0, 1, 1;
    }

    method Advance() returns (ch: char)
      requires Valid()
      modifies this
      ensures Valid() && Cur() == Step(source, old(Cur()))
      ensures ch == Peek(source, old(position))
    {
      if position >= |source| {
        return '\0';
      }
      ch := source[position];
      position := position + 1;
      if ch == '\n' {
        line := line + 1;
        column := 1;
      } else {
        column := column + 1;
      }
    }

    method SkipWhitespace()
      requires Valid()
      modifies this
      ensures Valid() && Cur() == ScanWhile(source, old(Cur()), Space)
    {
      while IsSpace(Peek(source, position))
        invariant Valid()
        invariant ScanWhile(source, Cur(), Space) == ScanWhile(source, old(Cur()), Space)
        decreases |source| - position
      {
        var ch := Advance();
      }
    }

    /** The loop shape shared by the digit loops of `parseNumber`, the identifier loop and the
        comment loop. */
    method AdvanceWhile(cls: CharClass)
      requires Valid()
      modifies this
      ensures Valid() && Cur() == ScanWhile(source, old(Cur()), cls)
    {
      while position < |source| && InClass(cls, Peek(source, position))
        invariant Valid()
        invariant ScanWhile(source, Cur(), cls) == ScanWhile(source, old(Cur()), cls)
        decreases |source| - position
      {
        var ch := Advance();
      }
    }

    method ParseNumber() returns (t: Token)
      requires Valid() && position < |source| && IsDigit(source[position])
      modifies this
      ensures Valid() && Cur() == NumberEnd(source, old(Cur()))
      ensures t == Token(Number, source[old(position)..position], old(line), old(column))
    {
      var start, startLine, startColumn := position, line, column;
      if Peek(source, position) == '0' {
        var ch := Advance();
        if Peek(source, position) == 'x' || Peek(source, position) == 'X' {
          ch := Advance();
          AdvanceWhile(HexDigit);
        } else if Peek(source, position) == 'o' || Peek(source, position) == 'O' {
          ch := Advance();
          AdvanceWhile(OctDigit);
        } else {
          AdvanceWhile(Digit);
        }
      } else {
        AdvanceWhile(Digit);
      }
      t := Token(Number, source[start..position], startLine, startColumn);
    }

    method ParseIdentifierOrKeyword() returns (t: Token)
      requires Valid()
      modifies this
      ensures Valid() && Cur() == ScanWhile(source, old(Cur()), IdentChar)
      ensures t == Token(Classify(source[old(position)..position]),
                         source[old(position)..position], old(line), old(column))
    {
      var start, startLine, startColumn := position, line, column;
      AdvanceWhile(IdentChar);
      var value := source[start..position];
      var kind;
      if value in Keywords {
        kind := Keywords[value];
      } else if value in Directives {
        kind := Directives[value];
      } else if LexesAsRegister(value) {
        kind := Register;
      } else {
        kind := Label;
      }
      t := Token(kind, value, startLine, startColumn);
    }

    /** One iteration of the `tokenize` loop body. */
    method ScanPiece() returns (pushed: seq<Token>)
      requires Valid() && position < |source|
      modifies this
      ensures Valid()
      ensures pushed == Piece(source, old(Cur())).0
      ensures Cur() == Piece(source, old(Cur())).1
    {
      var current := Peek(source, position);
      pushed := [];
      if IsSpace(current) {
        SkipWhitespace();
      } else if current == ';' {
        AdvanceWhile(NotNewline);
      } else if IsDigit(current) {
        var t := ParseNumber();
        pushed := [t];
      } else if IsAlpha(current) || current == '.' {
        var t := ParseIdentifierOrKeyword();
        pushed := [t];
      } else {
        var t := Token(PunctKind(current), [current], line, column);
        var ch := Advance();
        pushed := [t];
      }
    }

    method Tokenize() returns (tokens: seq<Token>)
      requires Valid()
      modifies this
      ensures tokens == LexFrom(source, old(Cur()))
      ensures Valid() && position == |source|
    {
      tokens := [];
      while position < |source|
        invariant Valid()
        invariant LexOnto(source, Cur(), tokens) == LexOnto(source, old(Cur()), [])
        decreases |source| - position
      {
        var pushed := ScanPiece();
        tokens := tokens + pushed;
      }
      tokens := tokens + [Token(EndOfFile, "", line, column)];
      LexOntoAppends(source, old(Cur()), []);
      assert [] + LexFrom(source, old(Cur())) == LexFrom(source, old(Cur()));
    }
  }
}
