/** What the parser takes beyond the plain way of writing, and what it rejects. */
module Leniency {
  import opened Pdef
  import opened Tokens
  import opened Spelling
  import opened Matcher
  import opened Grammar
  import opened Syntax
  import opened RoundTrip
  import Flatten

  // ---------- Names ----------

  predicate Letter(c: char) { 'a' <= c <= 'z' || 'A' <= c <= 'Z' || c == '_' }

  /** The names that can be given: at most 63 letters, digits and underscores, the first no digit, and none of the
      twelve words that stand for types or for "in". */
  lemma NamesExactly(name: string)
    ensures Name(name) <==>
      0 < |name| <= 63 && Letter(name[0]) && (forall c :: c in name ==> Letter(c) || '0' <= c <= '9') &&
      name !in ["uint8", "uint16", "uint32", "uint64", "int8", "int16", "int32", "int64", "bytes", "string", "varbytes", "in"]
  {
    assert WordKind(name) != Identifier <==>
      name in ["uint8", "uint16", "uint32", "uint64", "int8", "int16", "int32", "int64", "bytes", "string", "varbytes", "in"];
  }

  /** The characters that count as spaces. */
  lemma SpacesExactly(c: char)
    ensures BlankOk(Space(c)) <==> c in [' ', '\t', '\n', '\U{0B}', '\U{0C}', '\r']
  {
  }

  // ---------- Constants ----------

  /** A name means the constant that was defined last under it. */
  lemma {:induction false} LookupExactly(constants: seq<(string, U64)>, name: string)
    ensures LookupConstant(constants, name).None? <==> forall c :: c in constants ==> c.0 != name
    ensures forall i :: 0 <= i < |constants| && constants[i].0 == name && (forall j :: 0 <= j < i ==> constants[j].0 != name) ==>
      LookupConstant(constants, name) == Some(constants[i].1)
  {
    if constants != [] && constants[0].0 != name {
      LookupExactly(constants[1..], name);
      assert constants == [constants[0]] + constants[1..];
      forall i | 0 <= i < |constants| && constants[i].0 == name && forall j :: 0 <= j < i ==> constants[j].0 != name
        ensures LookupConstant(constants, name) == Some(constants[i].1)
      {
        assert constants[1..][i - 1] == constants[i];
        assert forall j :: 0 <= j < i - 1 ==> constants[1..][j] == constants[j + 1];
      }
    }
  }

  /** A condition whose value is a name without a constant is an error, wherever in a filter it is. */
  lemma UndefinedRejected(p: Cursor, rule: TempRule, es: seq<FilterEntry>, path: seq<PathPart>, name: string, k: Stream,
      constants: seq<(string, U64)>)
    requires At(p, EntriesTokens(es, PathTokens(path, S(Assign, W(name, k)))))
    requires (forall e :: e in es ==> EntryOk(e, constants)) && PathOk(path) && PathName(name)
    requires forall c :: c in constants ==> c.0 != name
    ensures ParseFilterEntries(p, constants, rule) == Err(UndefinedConstant(name))
    decreases |es|
  {
    hide At, NextOk, ParseFilterEntry, EntryTokens, EntryOk, PathOk, PathTokens, PathName, WithEntry;
    if es == [] {
      UndefinedTest(p, rule, path, name, k, constants);
    } else {
      EntryRead(p, rule, es[0], EntriesTokens(es[1..], PathTokens(path, S(Assign, W(name, k)))), constants);
      var (p1, rule1) := ParseFilterEntry(p, constants, rule).value;
      UndefinedRejected(p1, rule1, es[1..], path, name, k, constants);
    }
  }

  lemma UndefinedTest(p: Cursor, rule: TempRule, path: seq<PathPart>, name: string, k: Stream, constants: seq<(string, U64)>)
    requires At(p, PathTokens(path, S(Assign, W(name, k)))) && PathOk(path) && PathName(name)
    requires forall c :: c in constants ==> c.0 != name
    ensures !p.current.kind.RBrace? && ParseFilterEntry(p, constants, rule) == Err(UndefinedConstant(name))
  {
    hide At, NextOk, Step, Expect, SkipSemicolon, ParsePathFrom, PathTokens, PathText, PathName, LookupConstant;
    var rest := S(Assign, W(name, k));
    assert path[0] in path;
    PathFirst(path, rest);
    Advance(p, PathTokens(path, rest));
    PathFromRead(p, "", path, rest);
    var p1 := ParsePath(p).value.0;
    Advance(p1, rest);
    Advance(Step(p1), W(name, k));
    assert Step(p1).current == Token(Identifier, name, 0) by { NameFirst(name, k); }
    LookupExactly(constants, name);
  }

  lemma NameFirst(name: string, k: Stream)
    requires PathName(name)
    ensures First(W(name, k)) == Token(Identifier, name, 0)
  {
    hide Word, WordKind;
  }

  // ---------- Numbers for truth values, and entries without a semicolon ----------

  /** A sliding setting can be written as a number: zero is false, and every other number true. */
  lemma SlidingNumber(p: Cursor, rule: TempRule, v: U64, k: Stream, constants: seq<(string, U64)>)
    requires At(p, W("sliding", S(Assign, N(v, S(Semicolon, k)))))
    ensures Got(ParseFilterEntry(p, constants, rule), rule.(slidingWindow := v != 0), k)
  {
    hide At, NextOk, Step, Expect, SkipSemicolon, ParseCondition, WordKind, Keeps, Flatten.Decimal;
    PlainWords();
    SettingRead(p, "sliding", N(v, S(Semicolon, k)), k);
  }

  lemma NoSemicolon(p: Cursor, k: Stream)
    requires At(p, k) && !First(k).kind.Semicolon?
    ensures SkipSemicolon(p) == p
  {
  }

  lemma BareSetting(p: Cursor, word: string, value: Stream, k: Stream)
    requires At(p, W(word, S(Assign, value))) && value.More? && value.tail == k && !First(k).kind.Semicolon?
    ensures p.current == Token(WordKind(word), word, 0) && Expect(Step(p), Assign).Ok?
    ensures var p1 := Expect(Step(p), Assign).value;
      p1.current == value.head && At(SkipSemicolon(Step(p1)), k)
  {
    hide At, NextOk, Step, Expect, SkipSemicolon, WordKind;
    Advance(p, W(word, S(Assign, value)));
    Expected(Step(p), S(Assign, value), Assign);
    Advance(Step(Step(p)), value);
    NoSemicolon(Step(Step(Step(p))), k);
  }

  /** The semicolon after a constant, a name, a byte order, a setting or a field may be left out. */
  lemma BareConstant(p: Cursor, d: Draft, name: string, v: U64, k: Stream)
    requires At(p, W(name, S(Assign, N(v, k)))) && Name(name) && !First(k).kind.Semicolon?
    ensures Got(ParseConstant(p, d), d.(constants := [(name, v)] + d.constants), k)
  {
    hide At, NextOk, Step, Expect, SkipSemicolon, Word, Keeps, Flatten.Decimal;
    BareSetting(p, name, N(v, k), k);
  }

  lemma BareOrder(p: Cursor, d: Draft, mode: EndianMode, k: Stream)
    requires At(p, W("endian", S(Assign, W(ModeText(mode), k)))) && !First(k).kind.Semicolon?
    ensures Got(ParseMetadata(p, d), WithMetadata(d, EndianIs(mode)), k)
  {
    hide At, NextOk, Step, Expect, SkipSemicolon, WordKind, ParsePorts, Keeps;
    PlainWords();
    BareSetting(p, "endian", W(ModeText(mode), k), k);
  }

  lemma BareName(p: Cursor, d: Draft, text: string, k: Stream)
    requires At(p, W("name", S(Assign, More(Token(StringLiteral, text, 0), k)))) && !First(k).kind.Semicolon?
    ensures Got(ParseMetadata(p, d), d.(name := if |text| <= 63 then text else text[..63]), k)
  {
    hide At, NextOk, Step, Expect, SkipSemicolon, WordKind, ParsePorts, Keeps;
    PlainWords();
    BareSetting(p, "name", More(Token(StringLiteral, text, 0), k), k);
  }

  lemma BareField(p: Cursor, s: StructDef, t: FieldType, name: string, k: Stream, order: Endian)
    requires At(p, W(TypeText(t), W(name, k))) && Syntax.FieldOk(ScalarField(t, name)) && !s.hasVariable
    requires !First(k).kind.Semicolon? && !First(k).kind.LBracket?
    ensures Got(ParseField(p, s, order),
      s.(fields := s.fields + [DefinedField(ScalarField(t, name), order)], hasVariable := t.Varbytes?), k)
  {
    hide At, NextOk, Step, Expect, SkipSemicolon, WordKind, TypeText, Word, Keeps;
    TypeKinds(t);
    Advance(p, W(TypeText(t), W(name, k)));
    var p1 := Step(p);
    Advance(p1, W(name, k));
    Advance(Step(p1), k);
    NoSemicolon(Step(p1), k);
  }
}
