/** What the lexer and the parser report as errors. */
module Rejections {
  import opened Pdef
  import opened Tokens
  import opened Spelling
  import opened Grammar
  import opened Syntax
  import opened RoundTrip

  // ---------- The lexer ----------

  lemma {:induction false} NoQuoteNoEnd(s: string, room: nat)
    requires '"' !in s
    ensures Head(StringText(s, room).1) != '"'
    decreases |s|
  {
    if !StringEnds(s, room) {
      assert forall c :: c in s[StringStep(s)..] ==> c in s;
      NoQuoteNoEnd(s[StringStep(s)..], room - 1);
    } else if s != "" {
      assert s[0] in s;
    }
  }

  /** A literal that is not closed before the end of the source is an error. */
  lemma UnclosedLiteral(text: string)
    requires '"' !in text
    ensures Scan("\"" + text).error == Some(UnterminatedString)
  {
    hide StringText;
    var all := "\"" + text;
    assert all[0] == '"' && all[1..] == text && SkipBlanks(all) == all;
    NoQuoteNoEnd(text, TEXT_ROOM);
  }

  lemma {:induction false} TooLong(text: string, s: string, room: nat)
    requires |text| > room && '"' !in text && '\\' !in text && '\0' !in text
    ensures StringText(text + s, room) == (text[..room], text[room..] + s)
    decreases room
  {
    if room == 0 {
      assert text[..0] == "" && text[0..] == text;
    } else {
      var all := text + s;
      assert all[0] == text[0] && text[0] in text && all[1..] == text[1..] + s;
      TooLong(text[1..], s, room - 1);
      assert text[..room] == [text[0]] + text[1..][..room - 1];
      assert text[1..][room - 1..] == text[room..];
    }
  }

  /** So is one of more than 255 characters, closed or not. */
  lemma LongLiteral(text: string, s: string)
    requires |text| > 255 && '"' !in text && '\\' !in text && '\0' !in text
    ensures Scan("\"" + (text + s)).error == Some(UnterminatedString)
  {
    hide StringText;
    var all := "\"" + (text + s);
    assert all[0] == '"' && all[1..] == text + s && SkipBlanks(all) == all;
    TooLong(text, s, 255);
    assert (text[255..] + s)[0] == text[255] && text[255] in text;
  }

  /** After '@' only three words are known. */
  lemma UnknownKeyword(word: string, s: string)
    requires Word(word) && !IsAlnum(Head(s))
    ensures Scan("@" + (word + s)).error == if word in ["protocol", "const", "filter"] then None else Some(LexError.UnknownKeyword)
  {
    var all := "@" + (word + s);
    assert all[0] == '@' && all[1..] == word + s && SkipBlanks(all) == all;
    SpanStops(word, s, Alnum);
  }

  /** An '@' that no word follows is a token of its own, which no block starts with. */
  lemma LoneAt(s: string)
    requires !IsAlpha(Head(s))
    ensures Scan("@" + s) == Scanned(Token(AtSign, "", 0), s, None)
  {
    var all := "@" + s;
    assert all[0] == '@' && all[1..] == s && SkipBlanks(all) == all;
  }

  /** A character that starts no token is an error, and the reading position stays where it is. */
  lemma StrayCharacter(c: char, s: string)
    requires c != '\0' && !('a' <= c <= 'z') && !('A' <= c <= 'Z') && !('0' <= c <= '9')
    requires c !in ['_', '"', '@', ' ', '\t', '\n', '\U{0B}', '\U{0C}', '\r', '/']
    requires c !in ['{', '}', '[', ']', ';', ',', '.', '=', '!', '<', '>', '&', '|']
    ensures Scan([c] + s).error == Some(UnexpectedCharacter) && Scan([c] + s).rest == [c] + s
  {
    var all := [c] + s;
    assert all[0] == c && SkipBlanks(all) == all;
  }

  /** "0x" without a digit is an error that still gives a number. */
  lemma BareHex(mark: char, s: string)
    requires (mark == 'x' || mark == 'X') && !IsHexDigit(Head(s))
    ensures Scan(['0', mark] + s) == Scanned(Token(Number, "", 0), s, Some(InvalidHex))
  {
    var all := ['0', mark] + s;
    assert all[1..][0] == mark && all[2..] == s && SkipBlanks(all) == all;
  }

  // ---------- The parser ----------

  lemma KeyRead(p: Cursor, key: string, k: Stream)
    requires At(p, W(key, S(Assign, k))) && Name(key)
    ensures p.current == Token(Identifier, key, 0) && Expect(Step(p), Assign).Ok? && At(Expect(Step(p), Assign).value, k)
  {
    hide At, NextOk, Step, Word, Expect;
    Advance(p, W(key, S(Assign, k)));
    Expected(Step(p), S(Assign, k), Assign);
  }

  /** A @protocol entry with another key than "name", "endian" or "ports". */
  lemma UnknownKeyRejected(p: Cursor, d: Draft, key: string, k: Stream)
    requires At(p, W(key, S(Assign, k))) && Name(key) && key !in ["name", "endian", "ports"]
    ensures ParseMetadata(p, d) == Err(UnknownKey(key))
  {
    hide At, NextOk, Step, Expect, Word;
    KeyRead(p, key, k);
  }

  /** A byte order that is none of the three words. */
  lemma UnknownOrderRejected(p: Cursor, d: Draft, word: string, k: Stream)
    requires At(p, W("endian", S(Assign, W(word, k)))) && word !in ["big", "little", "auto"]
    ensures ParseMetadata(p, d) == Err(ExpectedEndian)
  {
    hide At, NextOk, Step, Expect, Word, WordKind;
    PlainWords();
    Advance(p, W("endian", S(Assign, W(word, k))));
    Expected(Step(p), S(Assign, W(word, k)), Assign);
    Advance(Step(Step(p)), W(word, k));
  }

  /** A sliding setting that is neither a number nor "true" nor "false". */
  lemma NoTruthValueRejected(p: Cursor, rule: TempRule, word: string, k: Stream, constants: seq<(string, U64)>)
    requires At(p, W("sliding", S(Assign, W(word, k)))) && word !in ["true", "false"]
    ensures ParseFilterEntry(p, constants, rule) == Err(ExpectedBoolean)
  {
    hide At, NextOk, Step, Expect;
    WordIsNoNumber(word);
    hide WordKind;
    PlainWords();
    Advance(p, W("sliding", S(Assign, W(word, k))));
    Expected(Step(p), S(Assign, W(word, k)), Assign);
    Advance(Step(Step(p)), W(word, k));
  }

  lemma WordIsNoNumber(word: string)
    ensures !WordKind(word).Number?
  {
  }

  /** A bytes or string field without its length. */
  lemma MissingLengthRejected(p: Cursor, s: StructDef, t: FieldType, k: Stream, order: Endian)
    requires At(p, W(TypeText(t), k)) && (t.Bytes? || t.String?) && !First(k).kind.LBracket? && !s.hasVariable
    ensures ParseField(p, s, order) == Err(MissingLength)
  {
    hide At, NextOk, Step, WordKind, TypeText;
    TypeKinds(t);
    Advance(p, W(TypeText(t), k));
    Advance(Step(p), k);
  }

  /** The seventeenth filter. */
  lemma SeventeenthFilterRejected(p: Cursor, d: Draft, name: string, k: Stream)
    requires At(p, Keyword("filter", W(name, k))) && Name(name) && |d.rules| == 16
    ensures ParseItem(p, d) == Err(TooManyFilters)
  {
    hide At, NextOk, Step, Expect, Word;
    Expected(p, Keyword("filter", W(name, k)), FilterWord);
    Advance(p, Keyword("filter", W(name, k)));
    Advance(Step(p), W(name, k));
  }

  /** Anything but a block or a struct at the top level. */
  lemma TopLevelRejected(p: Cursor, d: Draft, k: Stream)
    requires At(p, k) && k.More? && !First(k).kind.EndOfFile?
    requires !First(k).kind.ProtocolWord? && !First(k).kind.ConstWord? && !First(k).kind.FilterWord? && !First(k).kind.Identifier?
    ensures ParseItems(p, d) == Err(UnexpectedAtTopLevel)
  {
    hide At, NextOk;
    Advance(p, k);
  }
}
