/** The lexer as an object with a reading position (pdef/lexer.c). */
module Lexers {
  import opened Pdef
  import opened Tokens

  /** The line and column after a piece of text. */
  function LineAfter(text: string): nat {
    if text == "" then 1
    else LineAfter(text[..|text| - 1]) + if text[|text| - 1] == '\n' then 1 else 0
  }

  function ColumnAfter(text: string): nat {
    if text == "" || text[|text| - 1] == '\n' then 1 else ColumnAfter(text[..|text| - 1]) + 1
  }

  /** The line is one more than the number of line ends, and the column one more than the characters since the last. */
  lemma {:induction false} LineExactly(text: string)
    ensures LineAfter(text) == 1 + multiset(text)['\n']
  {
    if text != "" {
      LineExactly(text[..|text| - 1]);
      assert text == text[..|text| - 1] + [text[|text| - 1]];
    }
  }

  lemma {:induction false} ColumnExactly(start: string, text: string)
    requires '\n' !in text && (start == "" || start[|start| - 1] == '\n')
    ensures ColumnAfter(start + text) == 1 + |text|
    decreases |text|
  {
    if text == "" {
      assert start + "" == start;
    } else {
      var n := |text| - 1;
      ColumnExactly(start, text[..n]);
      assert (start + text)[..|start| + n] == start + text[..n];
      assert (start + text)[|start| + n] == text[n] && text[n] in text;
    }
  }

  class Lexer {
    const source: string
    var pos: nat
    var line: nat
    var column: nat
    var error: Option<LexError>

    /** The position never passes the terminator, and line and column are those of the position. */
    ghost predicate Valid()
      reads this
    {
      pos <= |source| && line == LineAfter(source[..pos]) && column == ColumnAfter(source[..pos])
    }

    function Rest(): string
      reads this
      requires pos <= |source|
    {
      source[pos..]
    }

    constructor (source: string)
      ensures Valid() && Rest() == source && this.source == source && error == None
    {
      this.source := source;
      pos, line, column, error := 0, 1, 1, None;
    }

    method CurrentChar() returns (c: char)
      requires Valid()
      ensures c == Head(Rest())
    {
      return if pos < |source| then source[pos] else '\0';
    }

    /** The character after the current one, which is not the terminator. */
    method PeekChar() returns (c: char)
      requires Valid() && pos < |source|
      ensures c == Second(Rest())
    {
      return if pos + 1 < |source| then source[pos + 1] else '\0';
    }

    method Advance()
      requires Valid() && pos < |source|
      modifies this`pos, this`line, this`column
      ensures Valid() && pos == old(pos) + 1 && Rest() == old(Rest())[1..]
    {
      assert source[..pos + 1][..pos] == source[..pos];
      if source[pos] == '\n' {
        line := line + 1;
        column := 1;
      } else {
        column := column + 1;
      }
      pos := pos + 1;
    }

    method SkipWhitespace()
      requires Valid()
      modifies this`pos, this`line, this`column
      ensures Valid() && pos >= old(pos) && SkipBlanks(Rest()) == SkipBlanks(old(Rest()))
      ensures !IsSpace(Head(Rest()))
    {
      var c := CurrentChar();
      while IsSpace(c)
        invariant Valid() && pos >= old(pos) && SkipBlanks(Rest()) == SkipBlanks(old(Rest()))
        invariant c == Head(Rest())
        decreases |source| - pos
      {
        Advance();
        c := CurrentChar();
      }
    }

    method SkipComment()
      requires Valid()
      modifies this`pos, this`line, this`column
      ensures Valid() && pos >= old(pos)
      ensures var s := old(Rest());
        Rest() == if s != "" && s[0] == '/' && Second(s) == '/' then AfterComment(s) else s
    {
      var c := CurrentChar();
      if c == '/' {
        var d := PeekChar();
        if d == '/' {
          while c != '\0' && c != '\n'
            invariant Valid() && pos >= old(pos)
            invariant c == Head(Rest()) && AfterComment(Rest()) == AfterComment(old(Rest()))
            decreases |source| - pos
          {
            Advance();
            c := CurrentChar();
          }
        }
      }
    }

    method SkipWhitespaceAndComments()
      requires Valid()
      modifies this`pos, this`line, this`column
      ensures Valid() && pos >= old(pos) && Rest() == SkipBlanks(old(Rest()))
    {
      while true
        invariant Valid() && pos >= old(pos) && SkipBlanks(Rest()) == SkipBlanks(old(Rest()))
        decreases |source| - pos
      {
        SkipWhitespace();
        var c := CurrentChar();
        if c != '/' {
          break;
        }
        var d := PeekChar();
        if d != '/' {
          break;
        }
        ghost var s := Rest();
        SkipComment();
        assert AfterComment(s) == AfterComment(s[1..]);
      }
    }

    /** Reads characters of a class into the text buffer while it has room. */
    method ReadSpan(class_: CharClass) returns (text: string)
      requires Valid()
      modifies this`pos, this`line, this`column
      ensures Valid() && pos >= old(pos)
      ensures var n := Span(old(Rest()), class_, TEXT_ROOM);
        text == old(Rest())[..n] && Rest() == old(Rest())[n..]
    {
      hide LineAfter, ColumnAfter, Span;
      text := "";
      ghost var s := Rest();
      var c := CurrentChar();
      while InClass(c, class_) && |text| < TEXT_ROOM
        invariant Valid() && pos == old(pos) + |text| && c == Head(Rest())
        invariant |text| <= TEXT_ROOM && text == source[old(pos)..pos]
        invariant forall i :: 0 <= i < |text| ==> InClass(text[i], class_)
        decreases |source| - pos
      {
        text := text + [c];
        Advance();
        c := CurrentChar();
      }
      assert text == s[..|text|] && Rest() == s[|text|..];
      SpanIs(s, class_, TEXT_ROOM, |text|);
    }

    method ReadIdentifier() returns (token: Token)
      requires Valid()
      modifies this`pos, this`line, this`column
      ensures Valid() && pos >= old(pos)
      ensures Scanned(token, Rest(), None) == ScanWord(old(Rest()))
    {
      var text := ReadSpan(Alnum);
      return Token(WordKind(text), text, 0);
    }

    method ReadNumber() returns (token: Token, ok: bool)
      requires Valid() && IsDigit(Head(Rest()))
      modifies this
      ensures Valid() && pos >= old(pos)
      ensures var r := ScanNumber(old(Rest()));
        token == r.token && Rest() == r.rest && ok == r.error.None? &&
        error == if ok then old(error) else r.error
    {
      hide Numeral, Span;
      ghost var s := Rest();
      var c := CurrentChar();
      var d := PeekChar();
      if c == '0' && (d == 'x' || d == 'X') {
        Advance();
        Advance();
        assert Rest() == s[2..];
        SpanDigits(Rest(), HexDigits);
        var digits := ReadSpan(HexDigits);
        if |digits| == 0 {
          error := Some(InvalidHex);
          return Token(Number, "", 0), false;
        }
        return Token(Number, digits, Saturated(Numeral(digits, 16))), true;
      }
      SpanDigits(s, Digits);
      var digits := ReadSpan(Digits);
      return Token(Number, digits, DecimalValue(digits)), true;
    }

    /** One character of a string literal; \" stands for a quote. */
    method ReadStringChar() returns (c: char)
      requires Valid() && Rest() != ""
      modifies this`pos, this`line, this`column
      ensures Valid() && pos > old(pos)
      ensures c == StringChar(old(Rest())) && Rest() == old(Rest())[StringStep(old(Rest()))..]
    {
      c := CurrentChar();
      var d := PeekChar();
      if c == '\\' && d == '"' {
        c := '"';
        assert Rest()[1..][1..] == Rest()[2..];
        Advance();
      }
      Advance();
    }

    method ReadString() returns (token: Token, ok: bool)
      requires Valid() && Rest() != ""
      modifies this
      ensures Valid() && pos >= old(pos)
      ensures var r := ScanString(old(Rest()));
        token == r.token && Rest() == r.rest && ok == r.error.None? &&
        error == if ok then old(error) else r.error
    {
      hide LineAfter, ColumnAfter, StringStep, StringChar, StringText;
      Advance();
      ghost var whole := StringText(Rest(), TEXT_ROOM);
      var text := "";
      ghost var more := whole.0;
      var c := CurrentChar();
      while c != '"' && c != '\0' && |text| < TEXT_ROOM
        invariant Valid() && pos >= old(pos) && c == Head(Rest()) && error == old(error)
        invariant |text| <= TEXT_ROOM && StringText(Rest(), TEXT_ROOM - |text|) == (more, whole.1)
        invariant whole.0 == text + more
        decreases |source| - pos
      {
        StringTextUnfolds(Rest(), TEXT_ROOM - |text|);
        c := ReadStringChar();
        assert more[1..] == StringText(Rest(), TEXT_ROOM - |text| - 1).0;
        text := text + [c];
        more := more[1..];
        c := CurrentChar();
      }
      StringTextUnfolds(Rest(), TEXT_ROOM - |text|);
      assert text + "" == text;
      token := Token(StringLiteral, text, 0);
      if c != '"' {
        error := Some(UnterminatedString);
        return token, false;
      }
      Advance();
      return token, true;
    }

    /** The next token and where it starts. */
    method NextToken() returns (token: Token, tokenLine: nat, tokenColumn: nat, ok: bool)
      requires Valid()
      modifies this
      ensures Valid() && pos >= old(pos)
      ensures var r := Scan(old(Rest()));
        token == r.token && Rest() == r.rest && ok == r.error.None? &&
        error == if ok then old(error) else r.error
      ensures var before := source[..|source| - |SkipBlanks(old(Rest()))|];
        tokenLine == LineAfter(before) && tokenColumn == ColumnAfter(before)
    {
      hide LineAfter, ColumnAfter, SkipBlanks, Span, WordKind, KeywordKind, StringText;
      SkipWhitespaceAndComments();
      assert pos == |source| - |SkipBlanks(old(Rest()))|;
      tokenLine, tokenColumn := line, column;
      ghost var s := Rest();
      var c := CurrentChar();
      if c == '\0' {
        return EOF_TOKEN, tokenLine, tokenColumn, true;
      }
      if IsAlpha(c) {
        token := ReadIdentifier();
        return token, tokenLine, tokenColumn, true;
      }
      if IsDigit(c) {
        token, ok := ReadNumber();
        return token, tokenLine, tokenColumn, ok;
      }
      if c == '"' {
        token, ok := ReadString();
        return token, tokenLine, tokenColumn, ok;
      }
      if c == '@' {
        token, ok := ReadKeyword();
        return token, tokenLine, tokenColumn, ok;
      }
      token, ok := ReadSymbol();
    }

    method ReadKeyword() returns (token: Token, ok: bool)
      requires Valid() && Rest() != ""
      modifies this
      ensures Valid() && pos >= old(pos)
      ensures var r := ScanKeyword(old(Rest()));
        token == r.token && Rest() == r.rest && ok == r.error.None? &&
        error == if ok then old(error) else r.error
    {
      Advance();
      var c := CurrentChar();
      if !IsAlpha(c) {
        return Token(AtSign, "", 0), true;
      }
      var text := ReadSpan(Alnum);
      var kind := KeywordKind(text);
      if kind == Bad {
        error := Some(UnknownKeyword);
        return Token(Bad, text, 0), false;
      }
      return Token(kind, text, 0), true;
    }

    method ReadSymbol() returns (token: Token, ok: bool)
      requires Valid() && Rest() != ""
      modifies this
      ensures Valid() && pos >= old(pos)
      ensures var r := ScanSymbol(old(Rest()));
        token == r.token && Rest() == r.rest && ok == r.error.None? &&
        error == if ok then old(error) else r.error
    {
      ghost var s := Rest();
      var c := CurrentChar();
      var d := PeekChar();
      if WithEquals(c).Some? && d == '=' {
        Advance();
        Advance();
        assert s[..2] == [c, '='];
        return Token(WithEquals(c).value, [c, '='], 0), true;
      }
      if Symbol(c).Some? {
        Advance();
        return Token(Symbol(c).value, [c], 0), true;
      }
      error := Some(UnexpectedCharacter);
      return Token(Bad, "", 0), false;
    }

    /** Looks at the next token and restores the lexer, its error included. */
    method PeekToken() returns (token: Token, ok: bool)
      requires Valid()
      modifies this
      ensures Valid() && pos == old(pos) && line == old(line) && column == old(column) && error == old(error)
      ensures token == Scan(Rest()).token && ok == Scan(Rest()).error.None?
    {
      var savedPos, savedLine, savedColumn, savedError := pos, line, column, error;
      var tokenLine, tokenColumn;
      token, tokenLine, tokenColumn, ok := NextToken();
      pos, line, column, error := savedPos, savedLine, savedColumn, savedError;
    }
  }
}
