/** Lexing and parsing a written definition gives the definition back. */
module RoundTrip {
  import opened Pdef
  import opened Tokens
  import opened Spelling
  import opened Matcher
  import opened Grammar
  import opened Syntax
  import Flatten

  // ---------- The cursor over a stream ----------

  function First(ts: Stream): Token { if ts.Done? then EOF_TOKEN else ts.head }

  function Tail(ts: Stream): Stream { if ts.Done? then Done else ts.tail }

  /** The parser's tokens and the unread source are those of the stream. */
  ghost predicate At(p: Cursor, ts: Stream) {
    p.current == First(ts) && p.peek == First(Tail(ts)) && Yields(p.rest, Tail(Tail(ts)))
  }

  lemma {:induction false} BlanksSkipped(s: string)
    ensures SkipBlanks(SkipBlanks(s)) == SkipBlanks(s)
    decreases |s|
  {
    if IsSpace(Head(s)) {
      BlanksSkipped(s[1..]);
    } else if Head(s) == '/' && Second(s) == '/' {
      BlanksSkipped(AfterComment(s[1..]));
    }
  }

  lemma Reads(s: string, ts: Stream)
    requires Yields(s, ts)
    ensures Scan(s).token == First(ts) && Scan(s).error.None? && Yields(Scan(s).rest, Tail(ts))
  {
    hide SkipBlanks;
    if ts.Done? {
      BlanksSkipped(s);
    }
  }

  lemma Advance(p: Cursor, ts: Stream)
    requires At(p, ts)
    ensures p.current == First(ts) && NextOk(p) && At(Step(p), Tail(ts))
  {
    hide Scan, Yields;
    Reads(p.rest, Tail(Tail(ts)));
  }

  lemma AtStart(source: string, ts: Stream)
    requires Yields(source, ts)
    ensures At(Start(source), ts)
  {
    hide Scan, Yields;
    Reads(source, ts);
    Reads(Scan(source).rest, Tail(ts));
  }

  lemma Expected(p: Cursor, ts: Stream, kind: TokenKind)
    requires At(p, ts) && First(ts).kind == kind
    ensures Expect(p, kind) == Ok(Step(p)) && At(Step(p), Tail(ts))
  {
    hide At, NextOk;
    Advance(p, ts);
  }

  lemma SemicolonSkipped(p: Cursor, k: Stream)
    requires At(p, S(Semicolon, k))
    ensures At(SkipSemicolon(p), k)
  {
    hide At, NextOk;
    Advance(p, S(Semicolon, k));
  }

  /** A parsing function gave x and left the cursor at k. */
  ghost predicate Got<T(!new)>(r: Parsed<T>, x: T, k: Stream) {
    r.Ok? && r.value.1 == x && At(r.value.0, k)
  }

  // ---------- Filters ----------

  lemma OperandRead(p: Cursor, o: Operand, k: Stream, constants: seq<(string, U64)>, missing: ParseError)
    requires At(p, OperandTokens(o, k)) && OperandOk(o, constants)
    ensures Got(ParseOperand(p, constants, missing), OperandValue(o, constants), k)
  {
    hide At, NextOk, Step, WordKind, Word;
    Advance(p, OperandTokens(o, k));
  }

  lemma {:induction false} ValuesRead(p: Cursor, os: seq<Operand>, k: Stream, constants: seq<(string, U64)>, before: seq<U64>)
    requires At(p, ValueTokens(os, k)) && OperandsOk(os, constants)
    ensures Got(ParseValues(p, constants, before), before + OperandValues(os, constants), k)
    decreases |os|
  {
    hide At, NextOk, Step, ParseOperand, OperandOk, OperandTokens, OperandValue;
    var v := OperandValue(os[0], constants);
    if |os| == 1 {
      OperandRead(p, os[0], S(RBracket, k), constants, ExpectedListValue);
      var p1 := ParseOperand(p, constants, ExpectedListValue).value.0;
      Advance(p1, S(RBracket, k));
      assert OperandValues(os, constants) == [v];
    } else {
      var rest := ValueTokens(os[1..], k);
      OperandRead(p, os[0], S(Comma, rest), constants, ExpectedListValue);
      var p1 := ParseOperand(p, constants, ExpectedListValue).value.0;
      Advance(p1, S(Comma, rest));
      ValuesRead(Step(p1), os[1..], k, constants, before + [v]);
      assert before + [v] + OperandValues(os[1..], constants) == before + OperandValues(os, constants);
    }
  }

  lemma {:induction false} IndexesRead(p: Cursor, path: string, indexes: seq<U64>, k: Stream)
    requires At(p, IndexTokens(indexes, k)) && First(k).kind != LBracket
    requires |path| + |IndexText(indexes)| <= PATH_ROOM
    ensures Got(ParseIndexes(p, path), path + IndexText(indexes), k)
    decreases |indexes|
  {
    hide At, NextOk, Step, Flatten.Decimal;
    Advance(p, IndexTokens(indexes, k));
    if indexes != [] {
      var rest := IndexTokens(indexes[1..], k);
      var digits := Flatten.Decimal(indexes[0]);
      var p1 := Step(p);
      Advance(p1, N(indexes[0], S(RBracket, rest)));
      Expected(Step(p1), S(RBracket, rest), RBracket);
      var path1 := path + "[" + digits + "]";
      IndexTextUnfolds(path, indexes);
      IndexesRead(Step(Step(p1)), path1, indexes[1..], k);
    } else {
      assert path + "" == path;
    }
  }

  lemma Regroup(before: string, a: string, b: string, c: string, rest: string)
    ensures before + (a + b + c + rest) == (before + a + b + c) + rest
  {
  }

  lemma IndexTextUnfolds(path: string, indexes: seq<U64>)
    requires indexes != []
    ensures var path1 := path + "[" + Flatten.Decimal(indexes[0]) + "]";
      path + IndexText(indexes) == path1 + IndexText(indexes[1..]) &&
      |path1| + |IndexText(indexes[1..])| == |path| + |IndexText(indexes)|
  {
    hide Flatten.Decimal;
    var (digits, rest) := (Flatten.Decimal(indexes[0]), IndexText(indexes[1..]));
    assert IndexText(indexes) == "[" + digits + "]" + rest;
    hide IndexText;
    Regroup(path, "[", digits, "]", rest);
  }

  lemma {:induction false} PathFromRead(p: Cursor, before: string, path: seq<PathPart>, k: Stream)
    requires At(p, PathTokens(path, k)) && path != [] && First(k).kind != LBracket && First(k).kind != Dot
    requires forall part :: part in path ==> PathName(part.name)
    requires |before| + |PathText(path)| <= PATH_ROOM
    ensures p.current.kind.Identifier? && Got(ParsePathFrom(p, before), before + PathText(path), k)
    decreases |path|
  {
    hide At, NextOk, Step, IndexTokens, IndexText, PathText, ParseIndexes, Word, WordKind;
    var part := path[0];
    assert part in path;
    Advance(p, PathTokens(path, k));
    var rest := if |path| == 1 then k else S(Dot, PathTokens(path[1..], k));
    PathTextUnfolds(before, path);
    IndexesRead(Step(p), before + part.name, part.indexes, rest);
    var p2 := ParseIndexes(Step(p), before + part.name).value.0;
    Advance(p2, rest);
    if |path| > 1 {
      Advance(Step(p2), PathTokens(path[1..], k));
      PathFromRead(Step(p2), before + part.name + IndexText(part.indexes) + ".", path[1..], k);
    }
  }

  lemma PathTextUnfolds(before: string, path: seq<PathPart>)
    requires path != []
    ensures var here := before + path[0].name + IndexText(path[0].indexes);
      before + PathText(path) == if |path| == 1 then here else here + "." + PathText(path[1..])
  {
    hide IndexText;
    var (name, index) := (path[0].name, IndexText(path[0].indexes));
    if |path| == 1 {
      assert PathText(path) == name + index;
    } else {
      var rest := PathText(path[1..]);
      assert PathText(path) == name + index + ("." + rest);
      hide PathText;
      Associates(name + index, ".", rest);
      Regroup(before, name, index, ".", rest);
    }
  }

  lemma ComparisonRead(p: Cursor, path: string, kind: TokenKind, value: Operand, k: Stream, constants: seq<(string, U64)>)
    requires At(p, S(kind, OperandTokens(value, k))) && OperandOk(value, constants) && Comparison(kind).Some?
    ensures Got(ParseTest(p, constants, path),
                Condition(path, Comparison(kind).value, OperandValue(value, constants), 0, []), k)
  {
    hide At, NextOk, Step, OperandTokens, OperandValue, OperandOk, ParseOperand, ParseValues;
    Advance(p, S(kind, OperandTokens(value, k)));
    OperandRead(Step(p), value, k, constants, ExpectedValue);
  }

  lemma TestRead(p: Cursor, path: string, test: Test, k: Stream, constants: seq<(string, U64)>)
    requires At(p, TestTokens(test, k)) && TestOk(test, constants)
    ensures Got(ParseTest(p, constants, path), TestCondition(path, test, constants), k)
  {
    hide At, NextOk, Step, Expect, OperandTokens, ValueTokens, OperandValue, OperandValues, OperandOk, OperandsOk;
    hide ParseOperand, ParseValues;
    if test.Assigns? {
      ComparisonRead(p, path, Assign, test.value, k, constants);
    } else if test.Compares? {
      ComparisonRead(p, path, ComparisonKind(test.op), test.value, k, constants);
    } else if test.Masks? {
      MaskRead(p, path, test.mask, test.value, k, constants);
    } else {
      AmongRead(p, path, test.negated, test.values, k, constants);
    }
  }

  lemma MaskRead(p: Cursor, path: string, mask: Operand, value: Operand, k: Stream, constants: seq<(string, U64)>)
    requires At(p, TestTokens(Masks(mask, value), k)) && TestOk(Masks(mask, value), constants)
    ensures Got(ParseTest(p, constants, path), TestCondition(path, Masks(mask, value), constants), k)
  {
    hide At, NextOk, Step, Expect, OperandTokens, OperandValue, OperandOk, ParseOperand, ParseValues;
    var rest := OperandTokens(value, k);
    Advance(p, S(Ampersand, OperandTokens(mask, S(Assign, rest))));
    OperandRead(Step(p), mask, S(Assign, rest), constants, ExpectedMask);
    var p2 := ParseOperand(Step(p), constants, ExpectedMask).value.0;
    Expected(p2, S(Assign, rest), Assign);
    OperandRead(Step(p2), value, k, constants, ExpectedValue);
  }

  lemma AmongRead(p: Cursor, path: string, negated: bool, values: seq<Operand>, k: Stream, constants: seq<(string, U64)>)
    requires At(p, TestTokens(Among(negated, values), k)) && OperandsOk(values, constants)
    ensures Got(ParseTest(p, constants, path), TestCondition(path, Among(negated, values), constants), k)
  {
    hide At, NextOk, Step, Expect, ValueTokens, OperandValues, OperandsOk, ParseOperand, ParseValues;
    var list := S(LBracket, ValueTokens(values, k));
    Advance(p, TestTokens(Among(negated, values), k));
    if negated {
      Advance(Step(p), W("in", list));
    }
    var p2 := if negated then Step(Step(p)) else Step(p);
    Expected(p2, list, LBracket);
    ValuesRead(Step(p2), values, k, constants, []);
    assert [] + OperandValues(values, constants) == OperandValues(values, constants);
  }

  /** Where a test can start: not with an index or a further part of the path. */
  lemma TestFirst(test: Test, k: Stream, constants: seq<(string, U64)>)
    requires TestOk(test, constants)
    ensures First(TestTokens(test, k)).kind != LBracket && First(TestTokens(test, k)).kind != Dot
  {
    hide OperandOk, OperandsOk;
  }

  lemma SettingRead(p: Cursor, word: string, value: Stream, k: Stream)
    requires At(p, W(word, S(Assign, value))) && value.More? && value.tail == S(Semicolon, k)
    ensures p.current == Token(WordKind(word), word, 0) && Expect(Step(p), Assign).Ok?
    ensures var p1 := Expect(Step(p), Assign).value;
      p1.current == value.head && At(SkipSemicolon(Step(p1)), k)
  {
    hide At, NextOk, Step, Expect, SkipSemicolon, WordKind;
    Advance(p, W(word, S(Assign, value)));
    Expected(Step(p), S(Assign, value), Assign);
    Advance(Step(Step(p)), value);
    SemicolonSkipped(Step(Step(Step(p))), k);
  }

  /** The words of settings and their values are ordinary identifiers to the lexer. */
  lemma PlainWords()
    ensures WordKind("sliding") == WordKind("sliding_max") == WordKind("true") == WordKind("false") == Identifier
    ensures WordKind("name") == WordKind("endian") == WordKind("ports") == Identifier
    ensures WordKind("big") == WordKind("little") == WordKind("auto") == Identifier
  {
  }

  lemma SlidingRead(p: Cursor, rule: TempRule, on: bool, k: Stream, constants: seq<(string, U64)>)
    requires At(p, EntryTokens(Sliding(on), k))
    ensures !p.current.kind.RBrace?
    ensures Got(ParseFilterEntry(p, constants, rule), WithEntry(rule, Sliding(on), constants), k)
  {
    hide At, NextOk, Step, Expect, SkipSemicolon, ParseCondition, WordKind, Keeps;
    PlainWords();
    SettingRead(p, "sliding", W(if on then "true" else "false", S(Semicolon, k)), k);
  }

  lemma SlidingMaxRead(p: Cursor, rule: TempRule, limit: U64, k: Stream, constants: seq<(string, U64)>)
    requires At(p, EntryTokens(SlidingMax(limit), k)) && limit < 0x1_0000_0000
    ensures !p.current.kind.RBrace?
    ensures Got(ParseFilterEntry(p, constants, rule), WithEntry(rule, SlidingMax(limit), constants), k)
  {
    hide At, NextOk, Step, Expect, SkipSemicolon, ParseCondition, WordKind, Keeps;
    PlainWords();
    SettingRead(p, "sliding_max", N(limit, S(Semicolon, k)), k);
  }

  lemma EntryRead(p: Cursor, rule: TempRule, e: FilterEntry, k: Stream, constants: seq<(string, U64)>)
    requires At(p, EntryTokens(e, k)) && EntryOk(e, constants)
    ensures !p.current.kind.RBrace? && Got(ParseFilterEntry(p, constants, rule), WithEntry(rule, e, constants), k)
  {
    hide At, WithEntry, PathOk, TestOk, PathTokens, TestTokens, Keeps, ParseFilterEntry;
    match e {
      case Sliding(on) => SlidingRead(p, rule, on, k, constants);
      case SlidingMax(limit) => SlidingMaxRead(p, rule, limit, k, constants);
      case Tests(path, test) => TestsRead(p, rule, path, test, k, constants);
    }
  }

  lemma TestsRead(p: Cursor, rule: TempRule, path: seq<PathPart>, test: Test, k: Stream, constants: seq<(string, U64)>)
    requires At(p, PathTokens(path, TestTokens(test, S(Semicolon, k)))) && PathOk(path) && TestOk(test, constants)
    ensures !p.current.kind.RBrace?
    ensures Got(ParseFilterEntry(p, constants, rule), WithEntry(rule, Tests(path, test), constants), k)
  {
    hide At, NextOk, Step, Expect, SkipSemicolon, ParsePathFrom, ParseTest, PathTokens, TestTokens, PathText, TestCondition, TestOk, PathName;
    var rest := TestTokens(test, S(Semicolon, k));
    assert path[0] in path;
    PathFirst(path, rest);
    Advance(p, PathTokens(path, rest));
    TestFirst(test, S(Semicolon, k), constants);
    PathFromRead(p, "", path, rest);
    assert "" + PathText(path) == PathText(path);
    var p1 := ParsePath(p).value.0;
    TestRead(p1, PathText(path), test, S(Semicolon, k), constants);
    SemicolonSkipped(ParseTest(p1, constants, PathText(path)).value.0, k);
  }

  lemma PathFirst(path: seq<PathPart>, k: Stream)
    requires path != [] && PathName(path[0].name)
    ensures First(PathTokens(path, k)) == Token(Identifier, path[0].name, 0)
  {
    hide WordKind, Word;
  }

  lemma {:induction false} EntriesRead(p: Cursor, rule: TempRule, es: seq<FilterEntry>, k: Stream, constants: seq<(string, U64)>)
    requires At(p, EntriesTokens(es, S(RBrace, k))) && forall e :: e in es ==> EntryOk(e, constants)
    ensures Got(ParseFilterEntries(p, constants, rule), WithEntries(rule, es, constants), S(RBrace, k))
    decreases |es|
  {
    hide At, NextOk, ParseFilterEntry, EntryTokens, WithEntry, EntryOk;
    if es == [] {
      Advance(p, S(RBrace, k));
    } else {
      var rest := EntriesTokens(es[1..], S(RBrace, k));
      EntryRead(p, rule, es[0], rest, constants);
      var (p1, rule1) := ParseFilterEntry(p, constants, rule).value;
      EntriesRead(p1, rule1, es[1..], k, constants);
    }
  }

  lemma FilterRead(p: Cursor, d: Draft, name: string, es: seq<FilterEntry>, k: Stream)
    requires At(p, ItemTokens(FilterItem(name, es), k)) && ItemOk(d, FilterItem(name, es))
    ensures Got(ParseFilterBlock(p, d), WithItem(d, FilterItem(name, es)), k)
  {
    hide At, NextOk, Step, Expect, ParseFilterEntries, EntriesTokens, WithEntries, EntryOk, Word;
    var body := EntriesTokens(es, S(RBrace, k));
    Expected(p, Keyword("filter", W(name, S(LBrace, body))), FilterWord);
    var p1 := Step(p);
    Advance(p1, W(name, S(LBrace, body)));
    Expected(Step(p1), S(LBrace, body), LBrace);
    var p2 := Step(Step(p1));
    EntriesRead(p2, TempRule(name, [], false, 0), es, k, d.constants);
    var p3 := ParseFilterEntries(p2, d.constants, TempRule(name, [], false, 0)).value.0;
    Expected(p3, S(RBrace, k), RBrace);
  }

  // ---------- Structs ----------

  lemma TypeKinds(t: FieldType)
    requires !t.Nested?
    ensures WordKind(TypeText(t)) == TypeWord(t)
  {
  }

  lemma LengthRead(p: Cursor, t: FieldType, length: U64, k: Stream)
    requires At(p, S(LBracket, N(length, S(RBracket, k))))
    requires (t.Bytes? || t.String?) && length < 0x1_0000_0000
    ensures Got(ParseLength(p, t), length, k)
  {
    hide At, NextOk, Step, Expect;
    Advance(p, S(LBracket, N(length, S(RBracket, k))));
    Advance(Step(p), N(length, S(RBracket, k)));
    Expected(Step(Step(p)), S(RBracket, k), RBracket);
  }

  lemma CountRead(p: Cursor, count: U64, k: Stream)
    requires At(p, S(LBracket, N(count, S(RBracket, k)))) && 0 < count < 0x1_0000_0000
    ensures Got(ParseCount(p, Nested), Some(count), k)
  {
    hide At, NextOk, Step, Expect;
    Advance(p, S(LBracket, N(count, S(RBracket, k))));
    Advance(Step(p), N(count, S(RBracket, k)));
    Expected(Step(Step(p)), S(RBracket, k), RBracket);
  }

  /** The name of a field and what may come after it. */
  lemma FieldEndRead(p: Cursor, name: string, k: Stream, t: FieldType)
    requires At(p, W(name, S(Semicolon, k))) && Name(name)
    ensures p.current == Token(Identifier, name, 0)
    ensures Got(ParseCount(Step(p), t), None, S(Semicolon, k))
  {
    hide At, NextOk, Step, Expect, Word;
    Advance(p, W(name, S(Semicolon, k)));
    Advance(Step(p), S(Semicolon, k));
  }

  lemma FieldRead(p: Cursor, s: StructDef, f: FieldSyntax, k: Stream, order: Endian)
    requires At(p, FieldTokens(f, k)) && FieldOk(f) && !s.hasVariable
    ensures !p.current.kind.RBrace?
    ensures Got(ParseField(p, s, order),
                s.(fields := s.fields + [DefinedField(f, order)], hasVariable := IsVarbytes(f)), k)
  {
    hide At, NextOk, Step, Expect, SkipSemicolon, WordKind, TypeText, Word, ParseCount;
    Advance(p, FieldTokens(f, k));
    var p1 := Step(p);
    match f {
      case ScalarField(t, name) =>
        TypeKinds(t);
        FieldEndRead(p1, name, k, t);
        SemicolonSkipped(ParseCount(Step(p1), t).value.0, k);
      case LengthField(t, length, name) =>
        hide ParseLength;
        TypeKinds(t);
        LengthRead(p1, t, length, W(name, S(Semicolon, k)));
        var p2 := ParseLength(p1, t).value.0;
        FieldEndRead(p2, name, k, t);
        SemicolonSkipped(ParseCount(Step(p2), t).value.0, k);
      case StructField(typeName, name) =>
        FieldEndRead(p1, name, k, Nested);
        SemicolonSkipped(ParseCount(Step(p1), Nested).value.0, k);
      case ArrayField(typeName, name, count) =>
        Advance(p1, Tail(FieldTokens(f, k)));
        CountRead(Step(p1), count, S(Semicolon, k));
        SemicolonSkipped(ParseCount(Step(p1), Nested).value.0, k);
    }
  }

  lemma {:induction false} FieldsRead(p: Cursor, s: StructDef, fs: seq<FieldSyntax>, k: Stream, order: Endian)
    requires At(p, FieldsTokens(fs, S(RBrace, k))) && FieldsOk(fs) && (fs != [] ==> !s.hasVariable)
    ensures Got(ParseFields(p, s, order), WithFields(s, fs, order), S(RBrace, k))
    decreases |fs|
  {
    hide At, NextOk, ParseField, FieldTokens, FieldOk, DefinedField, IsVarbytes;
    if fs == [] {
      Advance(p, S(RBrace, k));
    } else {
      FieldRead(p, s, fs[0], FieldsTokens(fs[1..], S(RBrace, k)), order);
      var (p1, s1) := ParseField(p, s, order).value;
      forall i | 0 <= i < |fs[1..]|
        ensures FieldOk(fs[1..][i]) && (IsVarbytes(fs[1..][i]) ==> i == |fs[1..]| - 1)
      {
        assert fs[1..][i] == fs[i + 1];
      }
      FieldsRead(p1, s1, fs[1..], k, order);
    }
  }

  lemma StructRead(p: Cursor, d: Draft, name: string, fs: seq<FieldSyntax>, k: Stream)
    requires At(p, ItemTokens(StructItem(name, fs), k)) && ItemOk(d, StructItem(name, fs))
    ensures Got(ParseStruct(p, d), WithItem(d, StructItem(name, fs)), k)
  {
    hide At, NextOk, Step, Expect, ParseFields, FieldsTokens, WithFields, FieldsOk, Word;
    var body := FieldsTokens(fs, S(RBrace, k));
    Advance(p, W(name, S(LBrace, body)));
    Expected(Step(p), S(LBrace, body), LBrace);
    var p1 := Step(Step(p));
    var s := StructDef(name, [], 0, false);
    FieldsRead(p1, s, fs, k, d.defaultEndian);
    Expected(ParseFields(p1, s, d.defaultEndian).value.0, S(RBrace, k), RBrace);
  }

  // ---------- @const and @protocol ----------

  lemma ConstantRead(p: Cursor, d: Draft, c: (string, U64), k: Stream)
    requires At(p, W(c.0, S(Assign, N(c.1, S(Semicolon, k))))) && Name(c.0)
    ensures !p.current.kind.RBrace?
    ensures Got(ParseConstant(p, d), d.(constants := [c] + d.constants), k)
  {
    hide At, NextOk, Step, Expect, SkipSemicolon, Word;
    var value := N(c.1, S(Semicolon, k));
    Advance(p, W(c.0, S(Assign, value)));
    Expected(Step(p), S(Assign, value), Assign);
    Advance(Step(Step(p)), value);
    SemicolonSkipped(Step(Step(Step(p))), k);
    assert c == (c.0, c.1);
  }

  lemma {:induction false} ConstantsRead(p: Cursor, d: Draft, cs: seq<(string, U64)>, k: Stream)
    requires At(p, ConstantsTokens(cs, S(RBrace, k))) && forall c :: c in cs ==> Name(c.0)
    ensures Got(ParseConstants(p, d), WithConstants(d, cs), S(RBrace, k))
    decreases |cs|
  {
    hide At, NextOk, ParseConstant, Name;
    if cs == [] {
      Advance(p, S(RBrace, k));
    } else {
      ConstantRead(p, d, cs[0], ConstantsTokens(cs[1..], S(RBrace, k)));
      var (p1, d1) := ParseConstant(p, d).value;
      ConstantsRead(p1, d1, cs[1..], k);
    }
  }

  lemma {:induction false} PortsRead(p: Cursor, ports: seq<U64>, k: Stream)
    requires ports != [] && First(k).kind != Comma
    requires At(p, PortTokens(ports, k)) || At(p, S(Comma, PortTokens(ports, k)))
    ensures ParsePorts(p).Ok? && At(ParsePorts(p).value, k)
    decreases |ports|
  {
    hide At, NextOk, Step;
    var all := PortTokens(ports, k);
    if At(p, all) {
      Advance(p, all);
    } else {
      Advance(p, S(Comma, all));
      Advance(Step(p), all);
    }
    var p1 := if p.current.kind.Comma? then Step(p) else p;
    var rest := if |ports| == 1 then k else S(Comma, PortTokens(ports[1..], k));
    Advance(Step(p1), rest);
    if |ports| > 1 {
      PortsRead(Step(p1), ports[1..], k);
    }
  }

  lemma NameRead(p: Cursor, d: Draft, m: Metadata, k: Stream)
    requires At(p, MetadataTokens(m, k)) && MetadataOk(m) && (m.QuotedName? || m.PlainName?)
    ensures !p.current.kind.RBrace? && Got(ParseMetadata(p, d), WithMetadata(d, m), k)
  {
    hide At, NextOk, Step, Expect, SkipSemicolon, Word, WordKind, LiteralText, ParsePorts, Keeps;
    PlainWords();
    var end := S(Semicolon, k);
    if m.QuotedName? {
      SettingRead(p, "name", More(Token(StringLiteral, m.text, 0), end), k);
    } else {
      SettingRead(p, "name", W(m.word, end), k);
    }
  }

  lemma EndianRead(p: Cursor, d: Draft, mode: EndianMode, k: Stream)
    requires At(p, MetadataTokens(EndianIs(mode), k))
    ensures !p.current.kind.RBrace? && Got(ParseMetadata(p, d), WithMetadata(d, EndianIs(mode)), k)
  {
    hide At, NextOk, Step, Expect, SkipSemicolon, WordKind, ParsePorts, Keeps;
    PlainWords();
    SettingRead(p, "endian", W(ModeText(mode), S(Semicolon, k)), k);
  }

  lemma PortsEntryRead(p: Cursor, d: Draft, ports: seq<U64>, k: Stream)
    requires At(p, MetadataTokens(Ports(ports), k)) && ports != []
    ensures !p.current.kind.RBrace? && Got(ParseMetadata(p, d), WithMetadata(d, Ports(ports)), k)
  {
    hide At, NextOk, Step, Expect, SkipSemicolon, WordKind, ParsePorts, PortTokens, Keeps;
    PlainWords();
    var rest := S(Assign, PortTokens(ports, S(Semicolon, k)));
    Advance(p, W("ports", rest));
    Expected(Step(p), rest, Assign);
    PortsRead(Step(Step(p)), ports, S(Semicolon, k));
    SemicolonSkipped(ParsePorts(Step(Step(p))).value, k);
  }

  lemma MetadataRead(p: Cursor, d: Draft, m: Metadata, k: Stream)
    requires At(p, MetadataTokens(m, k)) && MetadataOk(m)
    ensures !p.current.kind.RBrace? && Got(ParseMetadata(p, d), WithMetadata(d, m), k)
  {
    hide At, MetadataTokens, WithMetadata, Keeps, ParseMetadata;
    match m {
      case QuotedName(_) => NameRead(p, d, m, k);
      case PlainName(_) => NameRead(p, d, m, k);
      case EndianIs(mode) => EndianRead(p, d, mode, k);
      case Ports(ports) => PortsEntryRead(p, d, ports, k);
    }
  }

  lemma {:induction false} AllMetadataRead(p: Cursor, d: Draft, ms: seq<Metadata>, k: Stream)
    requires At(p, AllMetadataTokens(ms, S(RBrace, k))) && forall m :: m in ms ==> MetadataOk(m)
    ensures Got(ParseMetadataList(p, d), WithAllMetadata(d, ms), S(RBrace, k))
    decreases |ms|
  {
    hide At, NextOk, ParseMetadata, MetadataTokens, WithMetadata, MetadataOk;
    if ms == [] {
      Advance(p, S(RBrace, k));
    } else {
      MetadataRead(p, d, ms[0], AllMetadataTokens(ms[1..], S(RBrace, k)));
      var (p1, d1) := ParseMetadata(p, d).value;
      AllMetadataRead(p1, d1, ms[1..], k);
    }
  }

  // ---------- Whole definitions ----------

  lemma ItemRead(p: Cursor, d: Draft, item: Item, k: Stream)
    requires At(p, ItemTokens(item, k)) && ItemOk(d, item)
    ensures !p.current.kind.EndOfFile? && Got(ParseItem(p, d), WithItem(d, item), k)
  {
    hide At, NextOk, Step, Expect, ParseFilterBlock, ParseStruct, ParseMetadataList, ParseConstants;
    hide EntriesTokens, FieldsTokens, AllMetadataTokens, ConstantsTokens, EntryOk, FieldsOk, Word, MetadataOk;
    hide WithAllMetadata, WithConstants, WithFields, WithEntries;
    Advance(p, ItemTokens(item, k));
    match item {
      case FilterItem(name, es) => FilterRead(p, d, name, es, k);
      case StructItem(name, fs) => StructRead(p, d, name, fs, k);
      case ProtocolItem(ms) =>
        var body := AllMetadataTokens(ms, S(RBrace, k));
        Expected(p, Keyword("protocol", S(LBrace, body)), ProtocolWord);
        Expected(Step(p), S(LBrace, body), LBrace);
        var p1 := Step(Step(p));
        AllMetadataRead(p1, d, ms, k);
        Expected(ParseMetadataList(p1, d).value.0, S(RBrace, k), RBrace);
      case ConstItem(cs) =>
        var body := ConstantsTokens(cs, S(RBrace, k));
        Expected(p, Keyword("const", S(LBrace, body)), ConstWord);
        Expected(Step(p), S(LBrace, body), LBrace);
        var p1 := Step(Step(p));
        ConstantsRead(p1, d, cs, k);
        Expected(ParseConstants(p1, d).value.0, S(RBrace, k), RBrace);
    }
  }

  lemma {:induction false} ItemsRead(p: Cursor, d: Draft, items: seq<Item>)
    requires At(p, ItemsTokens(items)) && ItemsOk(d, items)
    ensures ParseItems(p, d) == Ok(WithItems(d, items))
    decreases |items|
  {
    hide At, NextOk, ParseItem, ItemTokens, ItemOk, WithItem;
    if items == [] {
      Advance(p, Done);
    } else {
      ItemRead(p, d, items[0], ItemsTokens(items[1..]));
      var (p1, d1) := ParseItem(p, d).value;
      ItemsRead(p1, d1, items[1..]);
    }
  }
}
