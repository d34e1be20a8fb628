/** pdef_parse_string: from source text to compiled rules, and what every accepted text guarantees. */
module PdefString {
  import opened Pdef
  import opened Tokens
  import opened Compiler
  import Flatten
  import opened Overlap
  import opened Definition
  import opened Protocol
  import opened Matcher
  import opened Grammar
  import opened Parsers

  datatype PdefError = ParseFailed(parseError: ParseError) | BuildFailed(buildError: BuildError)

  datatype Compiled = Compiled(draft: Draft, filters: seq<FilterRule>)

  function Loaded(source: string): Result<Compiled, PdefError> {
    match ParseSource(source)
    case Err(e) => Err(ParseFailed(e))
    case Ok(d) =>
      match Built(d.structs, d.rules)
      case Err(e) => Err(BuildFailed(e))
      case Ok(filters) => Ok(Compiled(d, filters))
  }

  method PdefParseString(source: string) returns (r: Result<Compiled, PdefError>)
    ensures r == Loaded(source)
  {
    var parsed := ParseString(source);
    if parsed.Err? {
      return Err(ParseFailed(parsed.error));
    }
    var d := parsed.value;
    var built := Build(d.structs, d.rules);
    if built.Err? {
      return Err(BuildFailed(built.error));
    }
    return Ok(Compiled(d, built.value));
  }

  // ---------- What every parsed definition satisfies ----------

  /** A field as any source text can give it. */
  predicate WellFormedField(f: Field, order: Endian) {
    ParsedField(f) && f.endian == order && f.offset == 0 && (f.isArray ==> f.arraySize > 0) &&
    (f.isArray ==> f.ftype.Nested?) && (f.ftype.Nested? ==> Flatten.NestedNames(f.name).Ok?)
  }

  /** All fields have one byte order, and at most the last one is of variable length. */
  ghost predicate WellFormedStruct(s: StructDef, order: Endian) {
    (forall f :: f in s.fields ==> WellFormedField(f, order)) &&
    (forall i :: 0 <= i < |s.fields| ==> (s.fields[i].isVariable <==> i == |s.fields| - 1 && s.hasVariable)) &&
    s.minSize == 0
  }

  ghost predicate SomeOrder(s: StructDef) { WellFormedStruct(s, Big) || WellFormedStruct(s, Little) }

  predicate WellFormedCondition(c: Condition) {
    ((c.op.In? || c.op.NotIn?) ==> c.values != []) && |c.fieldName| <= PATH_ROOM
  }

  ghost predicate WellFormedRule(rule: TempRule) {
    (forall c :: c in rule.conditions ==> WellFormedCondition(c)) && rule.slidingMaxOffset < 0x1_0000_0000
  }

  ghost predicate WellFormed(d: Draft) {
    (forall s :: s in d.structs ==> SomeOrder(s)) &&
    (forall rule :: rule in d.rules ==> WellFormedRule(rule)) && |d.rules| <= FILTER_ROOM
  }

  lemma NestedNameSplits(t: Token, fieldName: string)
    requires t.kind.Identifier? && TokenOk(t) && |fieldName| <= NAME_ROOM
    ensures Flatten.NestedNames(Cut(t.text) + "." + fieldName).Ok?
  {
    forall c | c in Cut(t.text)
      ensures IsAlnum(c)
    {
      assert c in t.text;
    }
    Flatten.SplitJoined(Cut(t.text), fieldName);
  }

  lemma LengthRight(p: Cursor, t: FieldType)
    requires ParseLength(p, t).Ok?
    ensures RightSize(t, ParseLength(p, t).value.1)
  {
    hide Step, Expect;
  }

  lemma FieldWellFormed(p: Cursor, s: StructDef, order: Endian)
    requires WordsOk(p) && WellFormedStruct(s, order) && ParseField(p, s, order).Ok?
    ensures WellFormedStruct(ParseField(p, s, order).value.1, order)
  {
    hide Step, Expect, SkipSemicolon, Flatten.NestedNames, ParseLength, RightSize;
    LengthRight(Step(p), TypeOfToken(p.current.kind));
    var s' := ParseField(p, s, order).value.1;
    var f := s'.fields[|s.fields|];
    if f.ftype.Nested? {
      var (p1, _) := ParseLength(Step(p), f.ftype).value;
      NestedNameSplits(p.current, Cut(p1.current.text));
    }
    assert forall g :: g in s'.fields ==> g in s.fields || g == f;
  }

  lemma {:induction false} FieldsWellFormed(p: Cursor, s: StructDef, order: Endian)
    requires WordsOk(p) && WellFormedStruct(s, order) && ParseFields(p, s, order).Ok?
    ensures WellFormedStruct(ParseFields(p, s, order).value.1, order)
    decreases Size(p)
  {
    hide ParseField, WellFormedStruct, WordsOk;
    if !p.current.kind.RBrace? {
      FieldWellFormed(p, s, order);
      var (p1, s1) := ParseField(p, s, order).value;
      FieldsWellFormed(p1, s1, order);
    }
  }

  lemma {:induction false} ValuesNonEmpty(p: Cursor, constants: seq<(string, U64)>, values: seq<U64>)
    requires ParseValues(p, constants, values).Ok?
    ensures |ParseValues(p, constants, values).value.1| > |values|
    decreases Size(p)
  {
    hide ParseOperand;
    var (p1, v) := ParseOperand(p, constants, ExpectedListValue).value;
    if p1.current.kind.Comma? {
      ValuesNonEmpty(Step(p1), constants, values + [v]);
    }
  }

  lemma {:induction false} IndexesBounded(p: Cursor, path: string)
    requires |path| <= PATH_ROOM && ParseIndexes(p, path).Ok?
    ensures |ParseIndexes(p, path).value.1| <= PATH_ROOM
    decreases Size(p)
  {
    hide Step, Expect, Flatten.Decimal;
    if p.current.kind.LBracket? {
      var path2 := path + "[" + Flatten.Decimal(Step(p).current.value);
      var p2 := Expect(Step(Step(p)), RBracket).value;
      IndexesBounded(p2, path2 + "]");
    }
  }

  lemma {:induction false} PathBounded(p: Cursor, path: string)
    requires p.current.kind.Identifier? && ParsePathFrom(p, path).Ok?
    ensures |ParsePathFrom(p, path).value.1| <= PATH_ROOM
    decreases Size(p)
  {
    hide ParseIndexes, Step;
    var path1 := path + p.current.text;
    IndexesBounded(Step(p), path1);
    var (p2, path2) := ParseIndexes(Step(p), path1).value;
    if p2.current.kind.Dot? {
      PathBounded(Step(p2), path2 + ".");
    }
  }

  lemma ConditionWellFormed(p: Cursor, constants: seq<(string, U64)>)
    requires ParseCondition(p, constants).Ok?
    ensures WellFormedCondition(ParseCondition(p, constants).value.1)
  {
    hide ParsePathFrom, ParseOperand, ParseValues, Step, Expect, Keeps;
    PathBounded(p, "");
    var p1 := ParsePath(p).value.0;
    var p2 := if p1.current.kind.Bang? then Step(p1) else p1;
    if ParseCondition(p, constants).value.1.op.In? || ParseCondition(p, constants).value.1.op.NotIn? {
      ValuesNonEmpty(Expect(Step(p2), LBracket).value, constants, []);
    }
  }

  lemma EntryWellFormed(p: Cursor, constants: seq<(string, U64)>, rule: TempRule)
    requires WellFormedRule(rule) && ParseFilterEntry(p, constants, rule).Ok?
    ensures WellFormedRule(ParseFilterEntry(p, constants, rule).value.1)
  {
    hide ParseCondition, Step, Expect, SkipSemicolon, WellFormedCondition;
    if !IsWord(p.current, "sliding") && !IsWord(p.current, "sliding_max") {
      ConditionWellFormed(p, constants);
      var c := ParseCondition(p, constants).value.1;
      assert forall e :: e in rule.conditions + [c] ==> e in rule.conditions || e == c;
    }
  }

  lemma {:induction false} EntriesWellFormed(p: Cursor, constants: seq<(string, U64)>, rule: TempRule)
    requires WellFormedRule(rule) && ParseFilterEntries(p, constants, rule).Ok?
    ensures WellFormedRule(ParseFilterEntries(p, constants, rule).value.1)
    decreases Size(p)
  {
    hide ParseFilterEntry, WellFormedRule;
    if !p.current.kind.RBrace? {
      EntryWellFormed(p, constants, rule);
      var (p1, rule1) := ParseFilterEntry(p, constants, rule).value;
      EntriesWellFormed(p1, constants, rule1);
    }
  }

  lemma {:induction false} MetadataKeeps(p: Cursor, d: Draft)
    requires ParseMetadataList(p, d).Ok?
    ensures var d' := ParseMetadataList(p, d).value.1; d'.structs == d.structs && d'.rules == d.rules
    decreases Size(p)
  {
    hide Expect, Step, SkipSemicolon, ParsePorts, Keeps;
    if !p.current.kind.RBrace? {
      var (p1, d1) := ParseMetadata(p, d).value;
      MetadataKeeps(p1, d1);
    }
  }

  lemma {:induction false} ConstantsKeep(p: Cursor, d: Draft)
    requires ParseConstants(p, d).Ok?
    ensures var d' := ParseConstants(p, d).value.1; d'.structs == d.structs && d'.rules == d.rules
    decreases Size(p)
  {
    hide Expect, Step, SkipSemicolon;
    if !p.current.kind.RBrace? {
      var (p1, d1) := ParseConstant(p, d).value;
      ConstantsKeep(p1, d1);
    }
  }

  lemma StructWellFormed(p: Cursor, d: Draft)
    requires WordsOk(p) && WellFormed(d) && ParseStruct(p, d).Ok?
    ensures WellFormed(ParseStruct(p, d).value.1)
  {
    hide Expect, Step, ParseFields, WellFormedStruct, WellFormedRule, WordsOk;
    var p1 := Expect(Step(p), LBrace).value;
    var s := StructDef(Cut(p.current.text), [], 0, false);
    assert WellFormedStruct(s, d.defaultEndian) by { EmptyStruct(s, d.defaultEndian); }
    FieldsWellFormed(p1, s, d.defaultEndian);
    var s' := ParseFields(p1, s, d.defaultEndian).value.1;
    assert d.defaultEndian == Big || d.defaultEndian == Little;
    assert forall t :: t in d.structs + [s'] ==> t in d.structs || t == s';
  }

  lemma EmptyStruct(s: StructDef, order: Endian)
    requires s.fields == [] && s.minSize == 0
    ensures WellFormedStruct(s, order)
  {
  }

  lemma FilterWellFormed(p: Cursor, d: Draft)
    requires WellFormed(d) && ParseFilterBlock(p, d).Ok?
    ensures WellFormed(ParseFilterBlock(p, d).value.1)
  {
    hide Expect, Step, ParseFilterEntries, SomeOrder, WellFormedCondition;
    var p1 := Expect(p, FilterWord).value;
    var p2 := Expect(Step(p1), LBrace).value;
    var rule := TempRule(Cut(p1.current.text), [], false, 0);
    EntriesWellFormed(p2, d.constants, rule);
    var rule' := ParseFilterEntries(p2, d.constants, rule).value.1;
    assert forall t :: t in d.rules + [rule'] ==> t in d.rules || t == rule';
  }

  lemma ItemWellFormed(p: Cursor, d: Draft)
    requires WordsOk(p) && WellFormed(d) && ParseItem(p, d).Ok?
    ensures WellFormed(ParseItem(p, d).value.1)
  {
    hide Expect, Step, ParseMetadataList, ParseConstants, ParseStruct, ParseFilterBlock, SomeOrder, WellFormedRule, WordsOk;
    match p.current.kind {
      case ProtocolWord => MetadataKeeps(Expect(Expect(p, ProtocolWord).value, LBrace).value, d);
      case ConstWord => ConstantsKeep(Expect(Expect(p, ConstWord).value, LBrace).value, d);
      case FilterWord => FilterWellFormed(p, d);
      case Identifier => StructWellFormed(p, d);
      case _ =>
    }
  }

  lemma {:induction false} ItemsWellFormed(p: Cursor, d: Draft)
    requires WordsOk(p) && WellFormed(d) && ParseItems(p, d).Ok?
    ensures WellFormed(ParseItems(p, d).value)
    decreases Size(p)
  {
    hide ParseItem, WellFormed, WordsOk;
    if !p.current.kind.EndOfFile? {
      ItemWellFormed(p, d);
      var (p1, d1) := ParseItem(p, d).value;
      ItemsWellFormed(p1, d1);
    }
  }

  /** Whatever the text, what is parsed from it is well-formed. */
  lemma ParsedWellFormed(source: string)
    requires ParseSource(source).Ok?
    ensures WellFormed(ParseSource(source).value)
  {
    hide Start, SomeOrder, WellFormedRule, ParseItems, WordsOk;
    StartOk(source);
    ItemsWellFormed(Start(source), EMPTY_DRAFT);
  }

  // ---------- Which errors remain ----------

  ghost predicate AnyWellFormed(f: Field) { WellFormedField(f, Big) || WellFormedField(f, Little) }

  /** The flattening errors a parsed definition can have. */
  predicate NestingError(e: Flatten.FlattenError) {
    e.NestedNotFound? || e.VariableNotLast? || e.VariableArray? || e.NestedFieldTooLong?
  }

  lemma {:induction false} FieldErrors(structs: seq<StructDef>, name: string, l: Flatten.Layout, fields: seq<Field>)
    requires forall f :: f in fields ==> AnyWellFormed(f)
    ensures var r := Flatten.AddFields(structs, name, l, fields); r.Err? ==> NestingError(r.error)
    decreases |fields|
  {
    hide Flatten.NestedNames, Flatten.Elements;
    if fields != [] {
      assert AnyWellFormed(fields[0]);
      var r := Flatten.AddField(structs, name, l, fields[0]);
      if r.Ok? {
        FieldErrors(structs, name, r.value, fields[1..]);
      }
    }
  }

  lemma {:induction false} StructErrors(structs: seq<StructDef>, i: nat)
    requires i <= |structs|
    requires forall j, f :: i <= j < |structs| && f in structs[j].fields ==> AnyWellFormed(f)
    ensures var r := Flatten.FlattenedFrom(structs, i); r.Err? ==> NestingError(r.error)
    decreases |structs| - i
  {
    hide Flatten.AddFields, AnyWellFormed;
    if i < |structs| {
      var s := structs[i];
      FieldErrors(structs[i := s.(hasVariable := false)], s.name, Flatten.Layout([], 0, false), s.fields);
      var r := Flatten.FlattenedStruct(structs, i);
      if r.Ok? {
        StructErrors(structs[i := r.value], i + 1);
      }
    }
  }

  /** A text that parses can only fail to build because a nested struct is missing or holds a variable field
      where none may be, because the numbered name of an array element does not fit, or because a rule has no
      struct or names no field of it: the other checks of flattening and compiling are never needed. */
  lemma RemainingErrors(source: string)
    requires ParseSource(source).Ok?
    ensures match Loaded(source)
            case Err(BuildFailed(FlattenFailed(e))) => NestingError(e)
            case Err(BuildFailed(CompileFailed(e))) => e.StructNotFound? || e.FieldNotFound?
            case Err(ParseFailed(_)) => false
            case Ok(_) => true
  {
    hide ParseSource, Flatten.FlattenedFrom, CompiledRules, WellFormedField, WellFormedCondition;
    var d := ParseSource(source).value;
    ParsedWellFormed(source);
    forall j, f | 0 <= j < |d.structs| && f in d.structs[j].fields
      ensures AnyWellFormed(f)
    {
      assert SomeOrder(d.structs[j]);
    }
    StructErrors(d.structs, 0);
    var flat := Flatten.Flattened(d.structs);
    if flat.Ok? {
      RuleErrors(flat.value, d.rules);
    }
  }

  lemma {:induction false} RuleErrors(flat: seq<StructDef>, rules: seq<TempRule>)
    requires forall rule :: rule in rules ==> WellFormedRule(rule)
    ensures var r := CompiledRules(flat, rules); r.Err? ==> r.error.StructNotFound? || r.error.FieldNotFound?
    decreases |rules|
  {
    hide RuleCode, FindTarget, FirstEmptyList;
    if rules != [] {
      assert WellFormedRule(rules[0]);
      EmptyListsReported(rules[0].name, rules[0].conditions);
      if rules[0].conditions != [] && FindTarget(flat, rules[0].conditions[0].fieldName).Some? {
        UnresolvedField(FindTarget(flat, rules[0].conditions[0].fieldName).value, rules[0].conditions);
      }
      RuleErrors(flat, rules[1..]);
    }
  }

  lemma {:induction false} UnresolvedField(s: StructDef, conds: seq<Condition>)
    ensures var r := FirstUnresolved(s, conds); r.Some? ==> r.value.FieldNotFound?
  {
    if conds != [] {
      UnresolvedField(s, conds[1..]);
    }
  }

  // ---------- From text to verdicts ----------

  /** End to end: the matcher loaded from any text accepts exactly the packets that the parsed definition
      describes, each struct read in the order it was parsed with or, by the programs for little, in the other. */
  lemma LoadedMeaning(source: string, detected: Detected, order: Endian, packet: Packet)
    requires Loaded(source).Ok? && Known(Loaded(source).value.draft.mode, detected) == Some(order)
    ensures var c := Loaded(source).value;
      AllRunnable(c.filters) &&
      Match(c.draft.mode, detected, packet, c.filters) ==
        (DefinitionAccepts(c.draft.structs, c.draft.rules, order, packet), detected)
  {
    hide ParseSource, Built, DefinitionAccepts, Match;
    var d := Loaded(source).value.draft;
    MatcherMeaning(d.structs, d.rules, d.mode, detected, order, packet);
  }

  /** In mode auto, while the order is unknown: the packets are accepted that the parsed definition describes in one of
      the two orders, and an order in which it describes the packet is learned. */
  lemma LoadedUnknown(source: string, packet: Packet) returns (order: Endian)
    requires Loaded(source).Ok? && Loaded(source).value.draft.mode == ModeAuto
    ensures var c := Loaded(source).value;
      AllRunnable(c.filters) &&
      (var (hit, learned) := Match(c.draft.mode, Unknown, packet, c.filters);
        (hit <==> DefinitionAccepts(c.draft.structs, c.draft.rules, Big, packet) ||
                  DefinitionAccepts(c.draft.structs, c.draft.rules, Little, packet)) &&
        learned == (if hit then Learned(order) else Unknown) &&
        (hit ==> DefinitionAccepts(c.draft.structs, c.draft.rules, order, packet)))
  {
    hide ParseSource, Built, DefinitionAccepts, Match;
    var d := Loaded(source).value.draft;
    order := UnknownMeaning(d.structs, d.rules, packet);
  }

  /** When all structs were parsed under one default, everything is read in the known order if that was big, and
      in the other order if it was little. */
  lemma LoadedUniformly(source: string, parsed: Endian, detected: Detected, order: Endian, packet: Packet)
    requires Loaded(source).Ok? && Known(Loaded(source).value.draft.mode, detected) == Some(order)
    requires AllInOrder(Loaded(source).value.draft.structs, parsed)
    ensures var c := Loaded(source).value;
      AllRunnable(c.filters) &&
      Match(c.draft.mode, detected, packet, c.filters).0 ==
        DefinitionHolds(c.draft.structs, c.draft.rules, Reads(parsed, order), packet)
  {
    hide ParseSource, DefinitionAccepts, DefinitionHolds, Match, AllInOrder, Flatten.FlattenedFrom, CompiledRules;
    var d := Loaded(source).value.draft;
    LoadedMeaning(source, detected, order, packet);
    UniformMeaning(d.structs, d.rules, parsed, order, packet);
  }

  /** A definition set to little-endian before its structs is matched in big-endian order, and is matched in
      little-endian order only when the setting comes after the structs. */
  lemma LittleReadsOther(source: string, parsed: Endian, detected: Detected, packet: Packet)
    requires Loaded(source).Ok? && Loaded(source).value.draft.mode == ModeLittle
    requires AllInOrder(Loaded(source).value.draft.structs, parsed)
    ensures var c := Loaded(source).value;
      AllRunnable(c.filters) &&
      Match(c.draft.mode, detected, packet, c.filters).0 ==
        DefinitionHolds(c.draft.structs, c.draft.rules, if parsed == Little then Big else Little, packet)
  {
    hide Loaded, DefinitionHolds, Match, AllInOrder;
    LoadedUniformly(source, parsed, detected, Little, packet);
  }

  /** Whatever the text, if it can be loaded, its flattened structs tile their space if and only if no struct that
      takes space is used in itself or before its definition. */
  lemma LoadedTiles(source: string)
    requires Loaded(source).Ok?
    ensures var structs := Loaded(source).value.draft.structs;
      |Flatten.Flattened(structs).value| == |structs| &&
      ((forall i :: 0 <= i < |structs| ==> StructTiles(Flatten.Flattened(structs).value[i])) <==>
       (forall i :: 0 <= i < |structs| ==> !TooEarlyAt(structs, i)))
  {
    hide ParseSource, Flatten.FlattenedFrom, CompiledRules, StructTiles, TooEarlyAt;
    var structs := Loaded(source).value.draft.structs;
    ParsedWellFormed(source);
    forall s | s in structs
      ensures Unplaced(s)
    {
      assert SomeOrder(s);
    }
    TilesExactly(structs);
  }
}
