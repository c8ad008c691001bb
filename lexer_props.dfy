/** Properties of the token stream that `tokenize` produces. */
module LexerProps {
  import opened Tokens
  import opened Lexer

  // ---------------------------------------------------------------- shapes of lexemes

  predicate AllIn(s: string, cls: CharClass)
  {
    forall i :: 0 <= i < |s| ==> InClass(cls, s[i])
  }

  /** A NUMBER lexeme: decimal digits, or `0x`/`0X` and hex digits, or `0o`/`0O` and octal
      digits. */
  predicate IsNumberLexeme(v: string)
  {
    && |v| > 0 && IsDigit(v[0])
    && (|| AllIn(v, Digit)
        || (|v| >= 2 && v[0] == '0' && (v[1] == 'x' || v[1] == 'X') && AllIn(v[2..], HexDigit))
        || (|v| >= 2 && v[0] == '0' && (v[1] == 'o' || v[1] == 'O') && AllIn(v[2..], OctDigit)))
  }

  /** An identifier lexeme: starts at a letter or `.`, then letters, digits and `.`. */
  predicate IsIdentifier(v: string)
  {
    |v| > 0 && (IsAlpha(v[0]) || v[0] == '.') && AllIn(v, IdentChar)
  }

  /** A character that starts no other token. */
  predicate IsStray(ch: char)
  {
    && !IsSpace(ch) && ch != ';' && !IsDigit(ch) && !IsAlpha(ch) && ch != '.'
    && ch !in {':', ',', '(', ')', '#', '@', '+', '-'}
  }

  /** What each kind of token may hold. */
  predicate WellFormed(t: Token)
  {
    var k := t.kind;
    if k == EndOfFile then t.lexeme == ""
    else if k == Number then IsNumberLexeme(t.lexeme)
    else if k == Unknown then |t.lexeme| == 1 && IsStray(t.lexeme[0])
    else if k == Colon then t.lexeme == ":"
    else if k == Comma then t.lexeme == ","
    else if k == LParen then t.lexeme == "("
    else if k == RParen then t.lexeme == ")"
    else if k == Hash then t.lexeme == "#"
    else if k == At then t.lexeme == "@"
    else if k == Plus then t.lexeme == "+"
    else if k == Minus then t.lexeme == "-"
    else if k == DirectiveFill then false
    else IsIdentifier(t.lexeme) && Classify(t.lexeme) == t.kind
  }

  // ---------------------------------------------------------------- one piece

  lemma {:induction false} ScanWhileAll(src: string, c: Cursor, cls: CharClass)
    requires c.pos <= |src|
    ensures AllIn(src[c.pos..ScanWhile(src, c, cls).pos], cls)
  {
  }

  lemma NumberSliceIsNumber(src: string, c: Cursor)
    requires c.pos < |src| && IsDigit(src[c.pos])
    ensures IsNumberLexeme(src[c.pos..NumberEnd(src, c).pos])
  {
    var d := NumberEnd(src, c);
    var v := src[c.pos..d.pos];
    var c1 := Step(src, c);
    if src[c.pos] == '0' && (Peek(src, c1.pos) == 'x' || Peek(src, c1.pos) == 'X') {
      var e := ScanWhile(src, Step(src, c1), HexDigit);
      assert v[2..] == src[c.pos + 2..e.pos];
    } else if src[c.pos] == '0' && (Peek(src, c1.pos) == 'o' || Peek(src, c1.pos) == 'O') {
      var e := ScanWhile(src, Step(src, c1), OctDigit);
      assert v[2..] == src[c.pos + 2..e.pos];
    } else if src[c.pos] == '0' {
      var e := ScanWhile(src, c1, Digit);
      assert forall i :: 1 <= i < |v| ==> v[i] == src[c1.pos + i - 1];
    }
  }

  lemma IdentifierWellFormed(v: string, line: nat, column: nat)
    requires IsIdentifier(v)
    ensures WellFormed(Token(Classify(v), v, line, column)) && Classify(v) != EndOfFile
  {
    var k := Classify(v);
    if v in Keywords {
      assert k in Keywords.Values;
    } else if v in Directives {
      assert k in Directives.Values;
    }
  }

  lemma PunctWellFormed(ch: char, line: nat, column: nat)
    requires !IsSpace(ch) && ch != ';' && !IsDigit(ch) && !IsAlpha(ch) && ch != '.'
    ensures WellFormed(Token(PunctKind(ch), [ch], line, column)) && PunctKind(ch) != EndOfFile
  {
  }

  lemma PieceWellFormed(src: string, c: Cursor)
    requires c.pos < |src|
    ensures |Piece(src, c).0| <= 1
    ensures |Piece(src, c).0| == 1 ==> WellFormed(Piece(src, c).0[0]) && Piece(src, c).0[0].kind != EndOfFile
  {
    var ch := src[c.pos];
    if IsSpace(ch) || ch == ';' {
    } else if IsDigit(ch) {
      NumberSliceIsNumber(src, c);
    } else if IsAlpha(ch) || ch == '.' {
      var d := ScanWhile(src, c, IdentChar);
      var v := src[c.pos..d.pos];
      assert v[0] == ch;
      IdentifierWellFormed(v, c.line, c.column);
    } else {
      PunctWellFormed(ch, c.line, c.column);
    }
  }

  // ---------------------------------------------------------------- the whole stream

  /** `tokenize` ends with exactly one `END_OF_FILE` token, the last one, and every token is
      well formed: in particular every other token has a non-empty lexeme, and no token is
      of the kind `DirectiveFill`. */
  lemma {:induction false} LexFromShape(src: string, c: Cursor)
    requires c.pos <= |src|
    ensures var ts := LexFrom(src, c);
      && |ts| > 0 && ts[|ts| - 1].kind == EndOfFile
      && (forall i :: 0 <= i < |ts| - 1 ==> ts[i].kind != EndOfFile)
      && (forall i :: 0 <= i < |ts| ==> WellFormed(ts[i]))
    decreases |src| - c.pos
  {
    if c.pos < |src| {
      var r := Piece(src, c);
      PieceWellFormed(src, c);
      LexFromShape(src, r.1);
      var rest := LexFrom(src, r.1);
      assert LexFrom(src, c) == r.0 + rest;
    }
  }

  lemma TokenizeShape(src: string)
    ensures var ts := Tokenize(src);
      && |ts| > 0 && ts[|ts| - 1].kind == EndOfFile
      && (forall i :: 0 <= i < |ts| - 1 ==> ts[i].kind != EndOfFile && |ts[i].lexeme| > 0)
      && (forall i :: 0 <= i < |ts| ==> WellFormed(ts[i]) && ts[i].kind != DirectiveFill)
  {
    LexFromShape(src, Start);
    var ts := Tokenize(src);
    forall i | 0 <= i < |ts| - 1
      ensures |ts[i].lexeme| > 0
    {
      assert WellFormed(ts[i]);
    }
  }

  // ---------------------------------------------------------------- positions

  /** The cursor after advancing `p` times from the start: the line and column of the
      character at position `p`. */
  function CursorAt(src: string, p: nat): (c: Cursor)
    requires p <= |src|
    ensures c.pos == p
  {
    if p == 0 then Start else Step(src, CursorAt(src, p - 1))
  }

  /** The start position of each token of `LexFrom(src, c)` (the EOF token starts at the
      end of the source). */
  function TokenStarts(src: string, c: Cursor): (ps: seq<nat>)
    requires c.pos <= |src|
    ensures |ps| > 0 && ps[|ps| - 1] == |src|
    decreases |src| - c.pos
  {
    if c.pos >= |src| then [c.pos]
    else
      var r := Piece(src, c);
      (if |r.0| == 1 then [c.pos] else []) + TokenStarts(src, r.1)
  }

  lemma {:induction false} TokenStartsLength(src: string, c: Cursor)
    requires c.pos <= |src|
    ensures |TokenStarts(src, c)| == |LexFrom(src, c)|
    decreases |src| - c.pos
  {
    if c.pos < |src| {
      PieceWellFormed(src, c);
      TokenStartsLength(src, Piece(src, c).1);
    }
  }

  predicate Consistent(src: string, c: Cursor)
  {
    c.pos <= |src| && c == CursorAt(src, c.pos)
  }

  lemma {:induction false} ScanWhileConsistent(src: string, c: Cursor, cls: CharClass)
    requires Consistent(src, c)
    ensures Consistent(src, ScanWhile(src, c, cls))
    decreases |src| - c.pos
  {
    if c.pos < |src| && InClass(cls, src[c.pos]) {
      ScanWhileConsistent(src, Step(src, c), cls);
    }
  }

  lemma PieceConsistent(src: string, c: Cursor)
    requires Consistent(src, c) && c.pos < |src|
    ensures Consistent(src, Piece(src, c).1)
  {
    var ch := src[c.pos];
    if IsSpace(ch) {
      ScanWhileConsistent(src, c, Space);
    } else if ch == ';' {
      ScanWhileConsistent(src, c, NotNewline);
    } else if IsDigit(ch) {
      var c1 := Step(src, c);
      if ch == '0' {
        if c1.pos < |src| {
          ScanWhileConsistent(src, Step(src, c1), HexDigit);
          ScanWhileConsistent(src, Step(src, c1), OctDigit);
        }
        ScanWhileConsistent(src, c1, Digit);
      } else {
        ScanWhileConsistent(src, c, Digit);
      }
    } else if IsAlpha(ch) || ch == '.' {
      ScanWhileConsistent(src, c, IdentChar);
    }
  }

  /** The token a piece pushes is the source text at the piece's start, and ends within
      the piece. */
  lemma PieceSlice(src: string, c: Cursor)
    requires c.pos < |src| && |Piece(src, c).0| == 1
    ensures var r := Piece(src, c);
      c.pos + |r.0[0].lexeme| <= r.1.pos && src[c.pos..c.pos + |r.0[0].lexeme|] == r.0[0].lexeme
      && r.0[0].line == c.line && r.0[0].column == c.column
  {
  }

  /** Token `t` is the source text at position `p`, with the line and column of `p`. */
  predicate Located(src: string, t: Token, p: nat)
  {
    && p <= |src| - |t.lexeme|
    && src[p..p + |t.lexeme|] == t.lexeme
    && t.line == CursorAt(src, p).line
    && t.column == CursorAt(src, p).column
  }

  /** The tokens `ts` start at the strictly increasing positions `ps`, all at or after `from`. */
  predicate AllLocated(src: string, ts: seq<Token>, ps: seq<nat>, from: nat)
  {
    && |ps| == |ts|
    && (forall i :: 0 <= i < |ts| ==> from <= ps[i] && Located(src, ts[i], ps[i]))
    && (forall i :: 0 <= i < |ts| - 1 ==> ps[i] < ps[i + 1])
  }

  /** Prepending a token located at `p` to tokens located after `p`. */
  lemma ConsLocatedOne(src: string, p: nat, t: Token, ts: seq<Token>, ps: seq<nat>, from: nat)
    requires Located(src, t, p) && AllLocated(src, ts, ps, from) && p < from
    ensures AllLocated(src, [t] + ts, [p] + ps, p)
  {
    var ts2, ps2 := [t] + ts, [p] + ps;
    forall i | 0 <= i < |ts2|
      ensures p <= ps2[i] && Located(src, ts2[i], ps2[i])
    {
      if i > 0 {
        assert ts2[i] == ts[i - 1] && ps2[i] == ps[i - 1];
      }
    }
    forall i | 0 <= i < |ts2| - 1
      ensures ps2[i] < ps2[i + 1]
    {
      assert ps2[i + 1] == ps[i];
      if i > 0 {
        assert ps2[i] == ps[i - 1];
      }
    }
  }

  /** Prepending the tokens of one piece, started at `p`, to tokens located after `p`. */
  lemma ConsLocated(src: string, p: nat, hd: seq<Token>, ts: seq<Token>, ps: seq<nat>, from: nat)
    requires |hd| <= 1 && (|hd| == 1 ==> Located(src, hd[0], p))
    requires AllLocated(src, ts, ps, from) && p < from
    ensures AllLocated(src, hd + ts, (if |hd| == 1 then [p] else []) + ps, p)
  {
    if |hd| == 1 {
      assert hd == [hd[0]];
      ConsLocatedOne(src, p, hd[0], ts, ps, from);
    } else {
      assert hd + ts == ts && [] + ps == ps;
    }
  }

  lemma LexFromUnfold(src: string, c: Cursor)
    requires c.pos < |src|
    ensures var r := Piece(src, c);
      && LexFrom(src, c) == r.0 + LexFrom(src, r.1)
      && TokenStarts(src, c) == (if |r.0| == 1 then [c.pos] else []) + TokenStarts(src, r.1)
  {
  }

  lemma LocatedHead(src: string, c: Cursor)
    requires Consistent(src, c) && c.pos < |src| && |Piece(src, c).0| == 1
    ensures Located(src, Piece(src, c).0[0], c.pos)
  {
    PieceSlice(src, c);
  }

  /** Every token's lexeme is the source text at its start position, and its line and column
      are those of its first character; the start positions strictly increase. */
  lemma {:induction false} TokensAtTheirPositions(src: string, c: Cursor)
    requires Consistent(src, c)
    ensures AllLocated(src, LexFrom(src, c), TokenStarts(src, c), c.pos)
    decreases |src| - c.pos
  {
    if c.pos < |src| {
      var r := Piece(src, c);
      PieceConsistent(src, c);
      PieceWellFormed(src, c);
      TokensAtTheirPositions(src, r.1);
      LexFromUnfold(src, c);
      if |r.0| == 1 {
        LocatedHead(src, c);
      }
      ConsLocated(src, c.pos, r.0, LexFrom(src, r.1), TokenStarts(src, r.1), r.1.pos);
    } else {
      assert c.pos == |src| && src[c.pos..c.pos] == "";
    }
  }

  // ---------------------------------------------------------------- skipped text

  /** Characters from `;` up to, but not including, the next newline produce no tokens. */
  lemma CommentProducesNoTokens(src: string, c: Cursor)
    requires c.pos < |src| && src[c.pos] == ';'
    ensures var d := ScanWhile(src, c, NotNewline);
      && (d.pos == |src| || src[d.pos] == '\n')
      && (forall i :: c.pos <= i < d.pos ==> src[i] != '\n')
      && LexFrom(src, c) == LexFrom(src, d)
  {
  }

  /** A run of whitespace produces no tokens. */
  lemma WhitespaceProducesNoTokens(src: string, c: Cursor)
    requires c.pos < |src| && IsSpace(src[c.pos])
    ensures LexFrom(src, c) == LexFrom(src, ScanWhile(src, c, Space))
  {
  }

  // ---------------------------------------------------------------- classification

  /** An identifier lexes as REGISTER exactly when it is `SP`, `PC` or `R0`..`R7`. */
  lemma RegisterExactly(v: string)
    ensures Classify(v) == Register <==> IsRegisterName(v)
  {
    if IsRegisterName(v) {
      assert v !in Keywords;
      assert v !in Directives;
    } else if v in Keywords {
      assert Keywords[v] in Keywords.Values;
    } else if v in Directives {
      assert Directives[v] in Directives.Values;
    }
  }

  /** Lookup is exact: lower-case mnemonics are labels. */
  lemma LowerCaseMnemonicIsLabel()
    ensures Classify("mov") == Label
  {
    KeywordLookupIsCaseSensitive();
  }

  /** `R8` and `R10` are labels, not registers. */
  lemma NotRegisters()
    ensures Classify("R8") == Label && Classify("R10") == Label
  {
    RegisterExactly("R8");
    RegisterExactly("R10");
    assert !IsRegisterName("R8") && !IsRegisterName("R10");
  }

  /** `.FILL` is not a directive token. */
  lemma FillIsLabel()
    ensures Classify(".FILL") == Label
  {
    DirectiveTableExact();
    RegisterExactly(".FILL");
  }
}
