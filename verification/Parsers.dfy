/** The recursive-descent parser as an object over a lexer (pdef/parser.c). */
module Parsers {
  import opened Pdef
  import opened Tokens
  import opened Lexers
  import opened Grammar
  import Flatten

  class Parser {
    const lexer: Lexer
    var currentToken: Token
    var peekToken: Token
    var proto: Draft

    ghost predicate Valid()
      reads this, lexer
    {
      lexer.Valid()
    }

    ghost function View(): Cursor
      reads this, lexer
      requires Valid()
    {
      Cursor(currentToken, peekToken, lexer.Rest())
    }

    /** A method's result and the cursor it leaves are those of the grammar. */
    ghost predicate Gives<T(!new)>(r: Result<T, ParseError>, spec: Parsed<T>)
      reads this, lexer
    {
      Valid() &&
      match spec
      case Ok((p, x)) => r == Ok(x) && View() == p
      case Err(e) => r == Err(e)
    }

    /** The same for a method that updates the definition. */
    ghost predicate Leaves(r: Result<(), ParseError>, spec: Parsed<Draft>)
      reads this, lexer
    {
      Valid() &&
      match spec
      case Ok((p, d)) => r == Ok(()) && View() == p && proto == d
      case Err(e) => r == Err(e)
    }

    constructor (source: string)
      ensures Valid() && fresh(lexer) && lexer.source == source
      ensures View() == Start(source) && proto == EMPTY_DRAFT
    {
      hide Scan, Lexer.Valid;
      lexer := new Lexer(source);
      currentToken, peekToken := EOF_TOKEN, EOF_TOKEN;
      proto := EMPTY_DRAFT;
      new;
      var line, column, ok;
      peekToken, line, column, ok := lexer.NextToken();
      ok := NextToken();
    }

    method NextToken() returns (ok: bool)
      requires Valid()
      modifies this`currentToken, this`peekToken, lexer
      ensures Valid() && View() == Step(old(View())) && ok == NextOk(old(View()))
    {
      currentToken := peekToken;
      var line, column;
      peekToken, line, column, ok := lexer.NextToken();
    }

    method ExpectToken(kind: TokenKind) returns (r: Result<(), ParseError>)
      requires Valid()
      modifies this`currentToken, this`peekToken, lexer
      ensures Valid()
      ensures match Expect(old(View()), kind)
              case Ok(p) => r == Ok(()) && View() == p
              case Err(e) => r == Err(e)
    {
      if currentToken.kind != kind {
        return Err(UnexpectedToken(kind));
      }
      var ok := NextToken();
      return if ok then Ok(()) else Err(LexerFailed);
    }

    method SkipOptionalSemicolon()
      requires Valid()
      modifies this`currentToken, this`peekToken, lexer
      ensures Valid() && View() == SkipSemicolon(old(View()))
    {
      if currentToken.kind == Semicolon {
        var _ := NextToken();
      }
    }

    // ---------- @protocol ----------

    method ParsePortList() returns (r: Result<(), ParseError>)
      requires Valid()
      modifies this`currentToken, this`peekToken, lexer
      ensures Valid()
      ensures match ParsePorts(old(View()))
              case Ok(p) => r == Ok(()) && View() == p
              case Err(e) => r == Err(e)
    {
      hide Scan;
      ghost var spec := ParsePorts(View());
      while true
        invariant Valid() && ParsePorts(View()) == spec
        decreases Size(View())
      {
        if currentToken.kind == Comma {
          var _ := NextToken();
        }
        if currentToken.kind != Number {
          return Err(ExpectedPort);
        }
        var _ := NextToken();
        if currentToken.kind != Comma {
          return Ok(());
        }
      }
    }

    method ParseMetadataEntry() returns (r: Result<(), ParseError>)
      requires Valid()
      modifies this, lexer
      ensures Leaves(r, ParseMetadata(old(View()), old(proto)))
    {
      hide Scan, ParsePorts, Expect, Step, SkipSemicolon, Lexer.Valid, Lexer.Rest;
      if currentToken.kind != Identifier {
        return Err(ExpectedMetadataKey);
      }
      var key := Cut(currentToken.text);
      var _ := NextToken();
      var _ :- ExpectToken(Assign);
      if key == "name" {
        if currentToken.kind != StringLiteral && currentToken.kind != Identifier {
          return Err(ExpectedProtocolName);
        }
        proto := proto.(name := Cut(currentToken.text));
        var _ := NextToken();
      } else if key == "endian" {
        if currentToken.kind != Identifier {
          return Err(ExpectedEndian);
        }
        var setting := EndianSetting(currentToken.text);
        if setting.None? {
          return Err(ExpectedEndian);
        }
        proto := proto.(defaultEndian := setting.value.0, mode := setting.value.1);
        var _ := NextToken();
      } else if key == "ports" {
        var _ :- ParsePortList();
      } else {
        return Err(UnknownKey(key));
      }
      SkipOptionalSemicolon();
      return Ok(());
    }

    method ParseProtocol() returns (r: Result<(), ParseError>)
      requires Valid()
      modifies this, lexer
      ensures Leaves(r, ParseProtocolBlock(old(View()), old(proto)))
    {
      hide Scan, ParseMetadata, Expect, Step, Lexer.Valid, Lexer.Rest;
      var _ :- ExpectToken(ProtocolWord);
      var _ :- ExpectToken(LBrace);
      ghost var spec := ParseMetadataList(View(), proto);
      while currentToken.kind != RBrace
        invariant Valid() && ParseMetadataList(View(), proto) == spec
        decreases Size(View())
      {
        var _ :- ParseMetadataEntry();
      }
      r := ExpectToken(RBrace);
    }

    // ---------- @const ----------

    method ParseConstantEntry() returns (r: Result<(), ParseError>)
      requires Valid()
      modifies this, lexer
      ensures Leaves(r, ParseConstant(old(View()), old(proto)))
    {
      hide Scan;
      if currentToken.kind != Identifier {
        return Err(ExpectedConstantName);
      }
      var name := Cut(currentToken.text);
      var _ := NextToken();
      var _ :- ExpectToken(Assign);
      if currentToken.kind != Number {
        return Err(ExpectedConstantValue);
      }
      var value := currentToken.value;
      var _ := NextToken();
      proto := proto.(constants := [(name, value)] + proto.constants);
      SkipOptionalSemicolon();
      return Ok(());
    }

    method ParseConst() returns (r: Result<(), ParseError>)
      requires Valid()
      modifies this, lexer
      ensures Leaves(r, ParseConstBlock(old(View()), old(proto)))
    {
      hide Scan, ParseConstant, Expect, Step, Lexer.Valid, Lexer.Rest;
      var _ :- ExpectToken(ConstWord);
      var _ :- ExpectToken(LBrace);
      ghost var spec := ParseConstants(View(), proto);
      while currentToken.kind != RBrace
        invariant Valid() && ParseConstants(View(), proto) == spec
        decreases Size(View())
      {
        var _ :- ParseConstantEntry();
      }
      r := ExpectToken(RBrace);
    }

    // ---------- @filter ----------

    method Lookup(name: string) returns (r: Option<U64>)
      ensures r == LookupConstant(proto.constants, name)
    {
      var constants := proto.constants;
      for i := 0 to |constants|
        invariant LookupConstant(constants, name) == LookupConstant(constants[i..], name)
      {
        if constants[i].0 == name {
          return Some(constants[i].1);
        }
        assert constants[i..][1..] == constants[i + 1..];
      }
      return None;
    }

    method ParseFieldPath() returns (r: Result<string, ParseError>)
      requires Valid()
      modifies this`currentToken, this`peekToken, lexer
      ensures Gives(r, ParsePath(old(View())))
    {
      hide Scan, ParseIndexes, Append;
      if currentToken.kind != Identifier {
        return Err(ExpectedFieldName);
      }
      var path := "";
      ghost var spec := ParsePathFrom(View(), "");
      while true
        invariant Valid() && currentToken.kind == Identifier && ParsePathFrom(View(), path) == spec
        decreases Size(View())
      {
        path :- Append(path, currentToken.text);
        var _ := NextToken();
        path :- ParsePathIndexes(path);
        if currentToken.kind != Dot {
          return Ok(path);
        }
        path :- Append(path, ".");
        var _ := NextToken();
        if currentToken.kind != Identifier {
          return Err(ExpectedFieldName);
        }
      }
    }

    method ParsePathIndexes(start: string) returns (r: Result<string, ParseError>)
      requires Valid()
      modifies this`currentToken, this`peekToken, lexer
      ensures Gives(r, ParseIndexes(old(View()), start))
    {
      hide Scan, Append, Flatten.Decimal;
      var path := start;
      ghost var spec := ParseIndexes(View(), path);
      while currentToken.kind == LBracket
        invariant Valid() && ParseIndexes(View(), path) == spec
        decreases Size(View())
      {
        path :- Append(path, "[");
        var _ := NextToken();
        if currentToken.kind != Number {
          return Err(ExpectedIndex);
        }
        path :- Append(path, Flatten.Decimal(currentToken.value));
        var _ := NextToken();
        var _ :- ExpectToken(RBracket);
        path :- Append(path, "]");
      }
      return Ok(path);
    }

    method ParseOperandValue(missing: ParseError) returns (r: Result<U64, ParseError>)
      requires Valid()
      modifies this`currentToken, this`peekToken, lexer
      ensures Gives(r, ParseOperand(old(View()), proto.constants, missing))
    {
      if currentToken.kind == Number {
        r := Ok(currentToken.value);
      } else if currentToken.kind == Identifier {
        var value := Lookup(currentToken.text);
        if value.None? {
          return Err(UndefinedConstant(currentToken.text));
        }
        r := Ok(value.value);
      } else {
        return Err(missing);
      }
      var _ := NextToken();
    }

    method ParseValueList() returns (r: Result<seq<U64>, ParseError>)
      requires Valid()
      modifies this`currentToken, this`peekToken, lexer
      ensures Gives(r, ParseValues(old(View()), proto.constants, []))
    {
      hide Scan, ParseOperand;
      var values: seq<U64> := [];
      ghost var spec := ParseValues(View(), proto.constants, []);
      while true
        invariant Valid() && ParseValues(View(), proto.constants, values) == spec
        decreases Size(View())
      {
        var value :- ParseOperandValue(ExpectedListValue);
        values := values + [value];
        if currentToken.kind == Comma {
          var _ := NextToken();
        } else if currentToken.kind == RBracket {
          var _ := NextToken();
          return Ok(values);
        } else {
          return Err(ExpectedListEnd);
        }
      }
    }

    method ParseConditionTest(path: string) returns (r: Result<Condition, ParseError>)
      requires Valid()
      modifies this`currentToken, this`peekToken, lexer
      ensures Gives(r, ParseTest(old(View()), proto.constants, path))
    {
      hide Scan, ParseOperand, ParseValues, Expect, Step, Lexer.Valid, Lexer.Rest;
      if currentToken.kind == Ampersand {
        var _ := NextToken();
        var mask :- ParseOperandValue(ExpectedMask);
        var _ :- ExpectToken(Assign);
        var value :- ParseOperandValue(ExpectedValue);
        return Ok(Condition(path, Mask, value, mask, []));
      }
      var negate := false;
      if currentToken.kind == Bang {
        negate := true;
        var _ := NextToken();
      }
      if currentToken.kind == InWord || (currentToken.kind == Identifier && currentToken.text == "in") {
        var _ := NextToken();
        var _ :- ExpectToken(LBracket);
        var values :- ParseValueList();
        return Ok(Condition(path, if negate then NotIn else In, 0, 0, values));
      }
      var op := Comparison(currentToken.kind);
      if op.None? {
        return Err(ExpectedComparison);
      }
      var _ := NextToken();
      var value :- ParseOperandValue(ExpectedValue);
      return Ok(Condition(path, op.value, value, 0, []));
    }

    method ParseEntry(rule: TempRule) returns (r: Result<TempRule, ParseError>)
      requires Valid()
      modifies this`currentToken, this`peekToken, lexer
      ensures Gives(r, ParseFilterEntry(old(View()), proto.constants, rule))
    {
      hide Scan, ParsePath, ParseTest;
      var out := rule;
      if currentToken.kind == Identifier && currentToken.text == "sliding" {
        var _ := NextToken();
        var _ :- ExpectToken(Assign);
        var on := BooleanOf(currentToken);
        if on.None? {
          return Err(ExpectedBoolean);
        }
        out := out.(slidingWindow := on.value);
        var _ := NextToken();
      } else if currentToken.kind == Identifier && currentToken.text == "sliding_max" {
        var _ := NextToken();
        var _ :- ExpectToken(Assign);
        if currentToken.kind != Number {
          return Err(ExpectedNumber);
        }
        out := out.(slidingMaxOffset := Cut32(currentToken.value));
        var _ := NextToken();
      } else {
        var path :- ParseFieldPath();
        var c :- ParseConditionTest(path);
        out := out.(conditions := out.conditions + [c]);
      }
      SkipOptionalSemicolon();
      return Ok(out);
    }

    method ParseFilter() returns (r: Result<(), ParseError>)
      requires Valid()
      modifies this, lexer
      ensures Leaves(r, ParseFilterBlock(old(View()), old(proto)))
    {
      hide Scan, ParseFilterEntry, Expect, Step, Lexer.Valid, Lexer.Rest;
      var _ :- ExpectToken(FilterWord);
      if currentToken.kind != Identifier {
        return Err(ExpectedFilterName);
      }
      if |proto.rules| >= FILTER_ROOM {
        return Err(TooManyFilters);
      }
      var rule := TempRule(Cut(currentToken.text), [], false, 0);
      var _ := NextToken();
      var _ :- ExpectToken(LBrace);
      ghost var spec := ParseFilterEntries(View(), proto.constants, rule);
      while currentToken.kind != RBrace
        invariant Valid() && proto == old(proto) && ParseFilterEntries(View(), proto.constants, rule) == spec
        decreases Size(View())
      {
        rule :- ParseEntry(rule);
      }
      proto := proto.(rules := proto.rules + [rule]);
      r := ExpectToken(RBrace);
    }

    // ---------- Structs ----------

    method ParseFieldLength(t: FieldType) returns (r: Result<nat, ParseError>)
      requires Valid()
      modifies this`currentToken, this`peekToken, lexer
      ensures Gives(r, ParseLength(old(View()), t))
    {
      hide Scan;
      if t != Bytes && t != String {
        return Ok(TypeSize(t));
      }
      if currentToken.kind != LBracket {
        return Err(MissingLength);
      }
      var _ := NextToken();
      if currentToken.kind != Number {
        return Err(ExpectedArraySize);
      }
      var size := Cut32(currentToken.value);
      var _ := NextToken();
      var _ :- ExpectToken(RBracket);
      return Ok(size);
    }

    method ParseFieldCount(t: FieldType) returns (r: Result<Option<nat>, ParseError>)
      requires Valid()
      modifies this`currentToken, this`peekToken, lexer
      ensures Gives(r, ParseCount(old(View()), t))
    {
      hide Scan;
      if currentToken.kind != LBracket {
        return Ok(None);
      }
      if t != Nested {
        return Err(ScalarArray);
      }
      var _ := NextToken();
      if currentToken.kind != Number {
        return Err(ExpectedArraySize);
      }
      var count := Cut32(currentToken.value);
      if count == 0 {
        return Err(ZeroArray);
      }
      var _ := NextToken();
      var _ :- ExpectToken(RBracket);
      return Ok(Some(count));
    }

    method ParseStructField(s: StructDef) returns (r: Result<StructDef, ParseError>)
      requires Valid()
      modifies this`currentToken, this`peekToken, lexer
      ensures Gives(r, ParseField(old(View()), s, proto.defaultEndian))
    {
      hide Scan, ParseLength, ParseCount, Step, SkipSemicolon, Lexer.Valid, Lexer.Rest;
      if s.hasVariable {
        return Err(VariableFieldNotLast(s.name));
      }
      var t := TypeOfToken(currentToken.kind);
      var typeName := Cut(currentToken.text);
      var _ := NextToken();
      var size :- ParseFieldLength(t);
      if currentToken.kind != Identifier {
        return Err(ExpectedFieldName);
      }
      var fieldName := Cut(currentToken.text);
      var name := if t == Nested then typeName + "." + fieldName else fieldName;
      var _ := NextToken();
      var count :- ParseFieldCount(t);
      var f := Field(name, t, 0, size, proto.defaultEndian, t == Varbytes,
                     count.Some?, if count.Some? then count.value else 1);
      SkipOptionalSemicolon();
      return Ok(s.(fields := s.fields + [f], hasVariable := t == Varbytes));
    }

    method ParseStructDef() returns (r: Result<(), ParseError>)
      requires Valid()
      modifies this, lexer
      ensures Leaves(r, ParseStruct(old(View()), old(proto)))
    {
      hide Scan, ParseField, Expect, Step, Lexer.Valid, Lexer.Rest;
      if currentToken.kind != Identifier {
        return Err(ExpectedStructName);
      }
      var s := StructDef(Cut(currentToken.text), [], 0, false);
      var _ := NextToken();
      var _ :- ExpectToken(LBrace);
      ghost var spec := ParseFields(View(), s, proto.defaultEndian);
      while currentToken.kind != RBrace
        invariant Valid() && proto == old(proto) && ParseFields(View(), s, proto.defaultEndian) == spec
        decreases Size(View())
      {
        s :- ParseStructField(s);
      }
      proto := proto.(structs := proto.structs + [s]);
      r := ExpectToken(RBrace);
    }

    // ---------- A whole source ----------

    /** Parses to the end of the source; every source is parsed in finitely many steps. */
    method ParseAll() returns (r: Result<(), ParseError>)
      requires Valid()
      modifies this, lexer
      ensures match ParseItems(old(View()), old(proto))
              case Ok(d) => r == Ok(()) && proto == d
              case Err(e) => r == Err(e)
    {
      hide Scan, ParseProtocolBlock, ParseConstBlock, ParseFilterBlock, ParseStruct;
      ghost var spec := ParseItems(View(), proto);
      while currentToken.kind != EndOfFile
        invariant Valid() && ParseItems(View(), proto) == spec
        decreases Size(View())
      {
        match currentToken.kind {
          case ProtocolWord => var _ :- ParseProtocol();
          case ConstWord => var _ :- ParseConst();
          case FilterWord => var _ :- ParseFilter();
          case Identifier => var _ :- ParseStructDef();
          case _ => return Err(UnexpectedAtTopLevel);
        }
      }
      return Ok(());
    }
  }

  /** The parsing half of pdef_parse_string. */
  method ParseString(source: string) returns (r: Result<Draft, ParseError>)
    ensures r == ParseSource(source)
  {
    var parser := new Parser(source);
    var _ :- parser.ParseAll();
    return Ok(parser.proto);
  }
}
