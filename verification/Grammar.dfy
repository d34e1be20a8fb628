/** What the parser makes of a token stream (pdef/parser.c): one function for each of its parsing functions. */
module Grammar {
  import opened Pdef
  import opened Tokens
  import opened Meaning
  import opened Definition
  import Flatten
  import opened Matcher

  datatype ParseError =
    | UnexpectedToken(wanted: TokenKind)
    | LexerFailed
    | ExpectedMetadataKey | UnknownKey(key: string) | ExpectedProtocolName | ExpectedEndian | ExpectedPort
    | ExpectedConstantName | ExpectedConstantValue
    | ExpectedFilterName | TooManyFilters | ExpectedBoolean | ExpectedNumber | ExpectedFieldName
    | PathTooLong | ExpectedIndex | ExpectedMask | ExpectedComparison | ExpectedListValue | ExpectedListEnd
    | ExpectedValue | UndefinedConstant(constant: string)
    | ExpectedStructName | VariableFieldNotLast(structName: string) | ExpectedArraySize | MissingLength
    | ScalarArray | ZeroArray
    | UnexpectedAtTopLevel

  /** The parser's two tokens and the source not yet read. */
  datatype Cursor = Cursor(current: Token, peek: Token, rest: string)

  /** What has been parsed so far; constants are in the order of lookup, the latest first. */
  datatype Draft = Draft(
    name: string,
    defaultEndian: Endian,
    mode: EndianMode,
    constants: seq<(string, U64)>,
    structs: seq<StructDef>,
    rules: seq<TempRule>)

  const EMPTY_DRAFT := Draft("", Big, ModeAuto, [], [], [])

  type Parsed<T> = Result<(Cursor, T), ParseError>

  // ---------- The cursor ----------

  function Next(p: Cursor): Cursor {
    var r := Scan(p.rest);
    Cursor(p.peek, r.token, r.rest)
  }

  /** parser_next_token reports whether the token after the next could be read. */
  predicate NextOk(p: Cursor) { Scan(p.rest).error.None? }

  function Start(source: string): Cursor {
    Next(Cursor(EOF_TOKEN, Scan(source).token, Scan(source).rest))
  }

  /** Identifiers are words: letters, digits and underscores.  No word names the type of nested fields. */
  ghost predicate WordsOk(p: Cursor) { TokenOk(p.current) && TokenOk(p.peek) }

  ghost predicate TokenOk(t: Token) {
    (t.kind.Identifier? ==> forall c :: c in t.text ==> IsAlnum(c)) && t.kind != TypeWord(Nested)
  }

  lemma ScannedOk(s: string)
    ensures TokenOk(Scan(s).token)
  {
    hide SkipBlanks;
    var rest := SkipBlanks(s);
    if IsAlpha(Head(rest)) {
      var n := Span(rest, Alnum, TEXT_ROOM);
      assert forall c :: c in rest[..n] ==> IsAlnum(c);
    }
  }

  lemma StartOk(source: string)
    ensures WordsOk(Start(source))
  {
    hide Scan, TokenOk;
    ScannedOk(source);
    ScannedOk(Scan(source).rest);
  }

  /** The cursor after n more tokens. */
  function Later(p: Cursor, n: nat): Cursor
    decreases n
  {
    if n == 0 then p else Later(Next(p), n - 1)
  }

  /** The word "endian" is not the current token, now or later. */
  ghost predicate NoSettingAhead(p: Cursor) { forall n: nat :: !IsWord(Later(p, n).current, "endian") }

  /** Behind every closing brace there is no word "endian" any more. */
  ghost predicate Guarded(p: Cursor) {
    forall n: nat :: Later(p, n).current.kind.RBrace? ==> NoSettingAhead(Later(p, n))
  }

  /** What is known of all tokens to come stays known as the cursor moves. */
  ghost predicate Keeps(p: Cursor, r: Cursor) {
    (WordsOk(p) ==> WordsOk(r)) && (NoSettingAhead(p) ==> NoSettingAhead(r)) && (Guarded(p) ==> Guarded(r))
  }

  /** How much there is left to parse. */
  function Size(p: Cursor): nat {
    |p.rest| + (if Stuck(p.current.kind) then 0 else 1) + (if Stuck(p.peek.kind) then 0 else 1)
  }

  lemma NextShrinks(p: Cursor)
    ensures Size(Next(p)) <= Size(p)
    ensures !Stuck(p.current.kind) ==> Size(Next(p)) < Size(p)
    ensures Keeps(p, Next(p))
  {
    hide Scan, TokenOk;
    ScanAdvances(p.rest);
    ScannedOk(p.rest);
    assert forall n: nat :: Later(Next(p), n) == Later(p, n + 1);
  }

  function Step(p: Cursor): (r: Cursor)
    ensures Size(r) <= Size(p)
    ensures !Stuck(p.current.kind) ==> Size(r) < Size(p)
    ensures Keeps(p, r)
  {
    NextShrinks(p);
    Next(p)
  }

  function Expect(p: Cursor, kind: TokenKind): (r: Result<Cursor, ParseError>)
    ensures r.Ok? ==> Size(r.value) <= Size(p) && (!Stuck(kind) ==> Size(r.value) < Size(p))
    ensures r.Ok? ==> Keeps(p, r.value)
  {
    if p.current.kind != kind then Err(UnexpectedToken(kind))
    else if !NextOk(p) then Err(LexerFailed)
    else Ok(Step(p))
  }

  function SkipSemicolon(p: Cursor): (r: Cursor)
    ensures Size(r) <= Size(p)
    ensures Keeps(p, r)
  {
    if p.current.kind.Semicolon? then Step(p) else p
  }

  /** Names are cut to the room of their buffers. */
  function Cut(name: string): (r: string)
    ensures |r| <= NAME_ROOM && r <= name
    ensures |name| <= NAME_ROOM ==> r == name
  {
    if |name| <= NAME_ROOM then name else name[..NAME_ROOM]
  }

  /** Sizes and offsets are 32 bits wide. */
  function Cut32(v: U64): nat { v % 0x1_0000_0000 }

  function LookupConstant(constants: seq<(string, U64)>, name: string): Option<U64> {
    if constants == [] then None
    else if constants[0].0 == name then Some(constants[0].1)
    else LookupConstant(constants[1..], name)
  }

  // ---------- @protocol ----------

  function ParsePorts(p: Cursor): (r: Result<Cursor, ParseError>)
    ensures r.Ok? ==> Size(r.value) < Size(p)
    ensures r.Ok? ==> Keeps(p, r.value)
    decreases Size(p)
  {
    var p1 := if p.current.kind.Comma? then Step(p) else p;
    if !p1.current.kind.Number? then Err(ExpectedPort) else
    var p2 := Step(p1);
    if p2.current.kind.Comma? then ParsePorts(p2) else Ok(p2)
  }

  function EndianSetting(word: string): Option<(Endian, EndianMode)> {
    match word
    case "big" => Some((Big, ModeBig))
    case "little" => Some((Little, ModeLittle))
    case "auto" => Some((Big, ModeAuto))
    case _ => None
  }

  /** One "key = value" of the @protocol block. */
  function ParseMetadata(p: Cursor, d: Draft): (r: Parsed<Draft>)
    ensures r.Ok? ==> Size(r.value.0) < Size(p)
    ensures r.Ok? ==> Keeps(p, r.value.0)
  {
    if !p.current.kind.Identifier? then Err(ExpectedMetadataKey) else
    var key := Cut(p.current.text);
    var p1 :- Expect(Step(p), Assign);
    if key == "name" then
      if p1.current.kind.StringLiteral? || p1.current.kind.Identifier? then
        Ok((SkipSemicolon(Step(p1)), d.(name := Cut(p1.current.text))))
      else Err(ExpectedProtocolName)
    else if key == "endian" then
      if !p1.current.kind.Identifier? then Err(ExpectedEndian) else
      match EndianSetting(p1.current.text)
      case None => Err(ExpectedEndian)
      case Some((order, mode)) => Ok((SkipSemicolon(Step(p1)), d.(defaultEndian := order, mode := mode)))
    else if key == "ports" then
      var p2 :- ParsePorts(p1);
      Ok((SkipSemicolon(p2), d))
    else Err(UnknownKey(key))
  }

  function ParseMetadataList(p: Cursor, d: Draft): (r: Parsed<Draft>)
    ensures r.Ok? ==> Size(r.value.0) <= Size(p)
    ensures r.Ok? ==> Keeps(p, r.value.0)
    decreases Size(p)
  {
    if p.current.kind.RBrace? then Ok((p, d)) else
    var (p1, d1) :- ParseMetadata(p, d);
    ParseMetadataList(p1, d1)
  }

  function ParseProtocolBlock(p: Cursor, d: Draft): (r: Parsed<Draft>)
    ensures r.Ok? ==> Size(r.value.0) < Size(p)
    ensures r.Ok? ==> Keeps(p, r.value.0)
  {
    var p1 :- Expect(p, ProtocolWord);
    var p2 :- Expect(p1, LBrace);
    var (p3, d3) :- ParseMetadataList(p2, d);
    var p4 :- Expect(p3, RBrace);
    Ok((p4, d3))
  }

  // ---------- @const ----------

  function ParseConstant(p: Cursor, d: Draft): (r: Parsed<Draft>)
    ensures r.Ok? ==> Size(r.value.0) < Size(p)
    ensures r.Ok? ==> Keeps(p, r.value.0)
  {
    if !p.current.kind.Identifier? then Err(ExpectedConstantName) else
    var name := Cut(p.current.text);
    var p1 :- Expect(Step(p), Assign);
    if !p1.current.kind.Number? then Err(ExpectedConstantValue) else
    Ok((SkipSemicolon(Step(p1)), d.(constants := [(name, p1.current.value)] + d.constants)))
  }

  function ParseConstants(p: Cursor, d: Draft): (r: Parsed<Draft>)
    ensures r.Ok? ==> Size(r.value.0) <= Size(p)
    ensures r.Ok? ==> Keeps(p, r.value.0)
    decreases Size(p)
  {
    if p.current.kind.RBrace? then Ok((p, d)) else
    var (p1, d1) :- ParseConstant(p, d);
    ParseConstants(p1, d1)
  }

  function ParseConstBlock(p: Cursor, d: Draft): (r: Parsed<Draft>)
    ensures r.Ok? ==> Size(r.value.0) < Size(p)
    ensures r.Ok? ==> Keeps(p, r.value.0)
  {
    var p1 :- Expect(p, ConstWord);
    var p2 :- Expect(p1, LBrace);
    var (p3, d3) :- ParseConstants(p2, d);
    var p4 :- Expect(p3, RBrace);
    Ok((p4, d3))
  }

  // ---------- Field paths ----------

  function Append(path: string, piece: string): Result<string, ParseError> {
    if |path| + |piece| > PATH_ROOM then Err(PathTooLong) else Ok(path + piece)
  }

  function ParseIndexes(p: Cursor, path: string): (r: Parsed<string>)
    ensures r.Ok? ==> Size(r.value.0) <= Size(p)
    ensures r.Ok? ==> Keeps(p, r.value.0)
    decreases Size(p)
  {
    if !p.current.kind.LBracket? then Ok((p, path)) else
    var path1 :- Append(path, "[");
    var p1 := Step(p);
    if !p1.current.kind.Number? then Err(ExpectedIndex) else
    var path2 :- Append(path1, Flatten.Decimal(p1.current.value));
    var p2 :- Expect(Step(p1), RBracket);
    var path3 :- Append(path2, "]");
    ParseIndexes(p2, path3)
  }

  function ParsePathFrom(p: Cursor, path: string): (r: Parsed<string>)
    requires p.current.kind.Identifier?
    ensures r.Ok? ==> Size(r.value.0) < Size(p)
    ensures r.Ok? ==> Keeps(p, r.value.0)
    decreases Size(p)
  {
    var path1 :- Append(path, p.current.text);
    var (p2, path2) :- ParseIndexes(Step(p), path1);
    if !p2.current.kind.Dot? then Ok((p2, path2)) else
    var path3 :- Append(path2, ".");
    var p3 := Step(p2);
    if !p3.current.kind.Identifier? then Err(ExpectedFieldName) else ParsePathFrom(p3, path3)
  }

  function ParsePath(p: Cursor): (r: Parsed<string>)
    ensures r.Ok? ==> Size(r.value.0) < Size(p)
    ensures r.Ok? ==> Keeps(p, r.value.0)
  {
    if !p.current.kind.Identifier? then Err(ExpectedFieldName) else ParsePathFrom(p, "")
  }

  // ---------- @filter ----------

  /** A number, or the name of a constant. */
  function ParseOperand(p: Cursor, constants: seq<(string, U64)>, missing: ParseError): (r: Parsed<U64>)
    ensures r.Ok? ==> Size(r.value.0) < Size(p)
    ensures r.Ok? ==> Keeps(p, r.value.0)
  {
    if p.current.kind.Number? then Ok((Step(p), p.current.value))
    else if p.current.kind.Identifier? then
      match LookupConstant(constants, p.current.text)
      case None => Err(UndefinedConstant(p.current.text))
      case Some(v) => Ok((Step(p), v))
    else Err(missing)
  }

  function ParseValues(p: Cursor, constants: seq<(string, U64)>, values: seq<U64>): (r: Parsed<seq<U64>>)
    ensures r.Ok? ==> Size(r.value.0) < Size(p)
    ensures r.Ok? ==> Keeps(p, r.value.0)
    decreases Size(p)
  {
    var (p1, v) :- ParseOperand(p, constants, ExpectedListValue);
    match p1.current.kind
    case Comma => ParseValues(Step(p1), constants, values + [v])
    case RBracket => Ok((Step(p1), values + [v]))
    case _ => Err(ExpectedListEnd)
  }

  function Comparison(kind: TokenKind): Option<CondOp> {
    match kind
    case Assign | EqualEqual => Some(Eq)
    case NotEqual => Some(Ne)
    case Greater => Some(Gt)
    case GreaterEqual => Some(Ge)
    case Less => Some(Lt)
    case LessEqual => Some(Le)
    case _ => None
  }

  function ParseTest(p: Cursor, constants: seq<(string, U64)>, path: string): (r: Parsed<Condition>)
    ensures r.Ok? ==> Size(r.value.0) <= Size(p)
    ensures r.Ok? ==> Keeps(p, r.value.0)
  {
    if p.current.kind.Ampersand? then
      var (p1, mask) :- ParseOperand(Step(p), constants, ExpectedMask);
      var p2 :- Expect(p1, Assign);
      var (p3, value) :- ParseOperand(p2, constants, ExpectedValue);
      Ok((p3, Condition(path, Mask, value, mask, [])))
    else
      var negate := p.current.kind.Bang?;
      var p1 := if negate then Step(p) else p;
      if p1.current.kind.InWord? || (p1.current.kind.Identifier? && p1.current.text == "in") then
        var p2 :- Expect(Step(p1), LBracket);
        var (p3, values) :- ParseValues(p2, constants, []);
        Ok((p3, Condition(path, if negate then NotIn else In, 0, 0, values)))
      else
        match Comparison(p1.current.kind)
        case None => Err(ExpectedComparison)
        case Some(op) =>
          var (p2, value) :- ParseOperand(Step(p1), constants, ExpectedValue);
          Ok((p2, Condition(path, op, value, 0, [])))
  }

  function ParseCondition(p: Cursor, constants: seq<(string, U64)>): (r: Parsed<Condition>)
    ensures r.Ok? ==> Size(r.value.0) < Size(p)
    ensures r.Ok? ==> Keeps(p, r.value.0)
  {
    var (p1, path) :- ParsePath(p);
    ParseTest(p1, constants, path)
  }

  function BooleanOf(t: Token): Option<bool> {
    if t.kind.Identifier? then
      if t.text == "true" then Some(true) else if t.text == "false" then Some(false) else None
    else if t.kind.Number? then Some(t.value != 0)
    else None
  }

  predicate IsWord(t: Token, word: string) { t.kind.Identifier? && t.text == word }

  /** One setting or condition of a filter. */
  function ParseFilterEntry(p: Cursor, constants: seq<(string, U64)>, rule: TempRule): (r: Parsed<TempRule>)
    ensures r.Ok? ==> Size(r.value.0) < Size(p)
    ensures r.Ok? ==> Keeps(p, r.value.0)
  {
    if IsWord(p.current, "sliding") then
      var p1 :- Expect(Step(p), Assign);
      match BooleanOf(p1.current)
      case None => Err(ExpectedBoolean)
      case Some(on) => Ok((SkipSemicolon(Step(p1)), rule.(slidingWindow := on)))
    else if IsWord(p.current, "sliding_max") then
      var p1 :- Expect(Step(p), Assign);
      if !p1.current.kind.Number? then Err(ExpectedNumber) else
      Ok((SkipSemicolon(Step(p1)), rule.(slidingMaxOffset := Cut32(p1.current.value))))
    else
      var (p1, c) :- ParseCondition(p, constants);
      Ok((SkipSemicolon(p1), rule.(conditions := rule.conditions + [c])))
  }

  function ParseFilterEntries(p: Cursor, constants: seq<(string, U64)>, rule: TempRule): (r: Parsed<TempRule>)
    ensures r.Ok? ==> Size(r.value.0) <= Size(p)
    ensures r.Ok? ==> Keeps(p, r.value.0)
    decreases Size(p)
  {
    if p.current.kind.RBrace? then Ok((p, rule)) else
    var (p1, rule1) :- ParseFilterEntry(p, constants, rule);
    ParseFilterEntries(p1, constants, rule1)
  }

  const FILTER_ROOM: nat := 16

  function ParseFilterBlock(p: Cursor, d: Draft): (r: Parsed<Draft>)
    ensures r.Ok? ==> Size(r.value.0) < Size(p)
    ensures r.Ok? ==> Keeps(p, r.value.0)
  {
    var p1 :- Expect(p, FilterWord);
    if !p1.current.kind.Identifier? then Err(ExpectedFilterName) else
    if |d.rules| >= FILTER_ROOM then Err(TooManyFilters) else
    var p2 :- Expect(Step(p1), LBrace);
    var (p3, rule) :- ParseFilterEntries(p2, d.constants, TempRule(Cut(p1.current.text), [], false, 0));
    var p4 :- Expect(p3, RBrace);
    Ok((p4, d.(rules := d.rules + [rule])))
  }

  // ---------- Structs ----------

  /** Any token that is neither a type nor a name is taken for uint8. */
  function TypeOfToken(kind: TokenKind): FieldType {
    match kind
    case TypeWord(t) => t
    case Identifier => Nested
    case _ => Uint8
  }

  /** The size a field gets from its type alone. */
  function TypeSize(t: FieldType): nat { if Integer(t) then Width(t) else 0 }

  /** The length of a bytes or string field, which other fields do not have. */
  function ParseLength(p: Cursor, t: FieldType): (r: Parsed<nat>)
    ensures r.Ok? ==> Size(r.value.0) <= Size(p)
    ensures r.Ok? ==> Keeps(p, r.value.0)
  {
    if !t.Bytes? && !t.String? then Ok((p, TypeSize(t)))
    else if !p.current.kind.LBracket? then Err(MissingLength)
    else
      var p1 := Step(p);
      if !p1.current.kind.Number? then Err(ExpectedArraySize) else
      var p2 :- Expect(Step(p1), RBracket);
      Ok((p2, Cut32(p1.current.value)))
  }

  /** The number of elements of a nested field, if it is an array. */
  function ParseCount(p: Cursor, t: FieldType): (r: Parsed<Option<nat>>)
    ensures r.Ok? ==> Size(r.value.0) <= Size(p)
    ensures r.Ok? ==> Keeps(p, r.value.0)
  {
    if !p.current.kind.LBracket? then Ok((p, None))
    else if !t.Nested? then Err(ScalarArray)
    else
      var p1 := Step(p);
      if !p1.current.kind.Number? then Err(ExpectedArraySize) else
      var count := Cut32(p1.current.value);
      if count == 0 then Err(ZeroArray) else
      var p2 :- Expect(Step(p1), RBracket);
      Ok((p2, Some(count)))
  }

  function ParseField(p: Cursor, s: StructDef, order: Endian): (r: Parsed<StructDef>)
    ensures r.Ok? ==> Size(r.value.0) < Size(p)
    ensures r.Ok? ==> Keeps(p, r.value.0)
  {
    if s.hasVariable then Err(VariableFieldNotLast(s.name)) else
    var t := TypeOfToken(p.current.kind);
    var (p1, size) :- ParseLength(Step(p), t);
    if !p1.current.kind.Identifier? then Err(ExpectedFieldName) else
    var fieldName := Cut(p1.current.text);
    var name := if t.Nested? then Cut(p.current.text) + "." + fieldName else fieldName;
    var (p2, count) :- ParseCount(Step(p1), t);
    var f := Field(name, t, 0, size, order, t.Varbytes?, count.Some?, if count.Some? then count.value else 1);
    Ok((SkipSemicolon(p2), s.(fields := s.fields + [f], hasVariable := t.Varbytes?)))
  }

  function ParseFields(p: Cursor, s: StructDef, order: Endian): (r: Parsed<StructDef>)
    ensures r.Ok? ==> Size(r.value.0) <= Size(p)
    ensures r.Ok? ==> Keeps(p, r.value.0)
    decreases Size(p)
  {
    if p.current.kind.RBrace? then Ok((p, s)) else
    var (p1, s1) :- ParseField(p, s, order);
    ParseFields(p1, s1, order)
  }

  function ParseStruct(p: Cursor, d: Draft): (r: Parsed<Draft>)
    ensures r.Ok? ==> Size(r.value.0) < Size(p)
    ensures r.Ok? ==> Keeps(p, r.value.0)
  {
    if !p.current.kind.Identifier? then Err(ExpectedStructName) else
    var p1 :- Expect(Step(p), LBrace);
    var (p2, s) :- ParseFields(p1, StructDef(Cut(p.current.text), [], 0, false), d.defaultEndian);
    var p3 :- Expect(p2, RBrace);
    Ok((p3, d.(structs := d.structs + [s])))
  }

  // ---------- A whole source ----------

  function ParseItem(p: Cursor, d: Draft): (r: Parsed<Draft>)
    ensures r.Ok? ==> Size(r.value.0) < Size(p)
    ensures r.Ok? ==> Keeps(p, r.value.0)
  {
    match p.current.kind
    case ProtocolWord => ParseProtocolBlock(p, d)
    case ConstWord => ParseConstBlock(p, d)
    case FilterWord => ParseFilterBlock(p, d)
    case Identifier => ParseStruct(p, d)
    case _ => Err(UnexpectedAtTopLevel)
  }

  function ParseItems(p: Cursor, d: Draft): Result<Draft, ParseError>
    decreases Size(p)
  {
    if p.current.kind.EndOfFile? then Ok(d) else
    var (p1, d1) :- ParseItem(p, d);
    ParseItems(p1, d1)
  }

  /** Parsing a source text, whatever it is: an error or the parsed definition. */
  function ParseSource(source: string): Result<Draft, ParseError> {
    ParseItems(Start(source), EMPTY_DRAFT)
  }
}
