/** Definitions as they are written: their parts, the tokens they are written with, and what they define.
    Token functions take the tokens that follow, so that no sequences have to be joined. */
module Syntax {
  import opened Pdef
  import opened Tokens
  import opened Spelling
  import opened Matcher
  import opened Grammar
  import Flatten

  datatype Operand = Literal(value: U64) | Named(name: string)

  datatype PathPart = PathPart(name: string, indexes: seq<U64>)

  /** `op` of a comparison is one of the six orders, equality with "==" while Assigns has "=";
      `values` of a membership test is not empty. */
  datatype Test =
    | Assigns(value: Operand)
    | Compares(op: CondOp, value: Operand)
    | Masks(mask: Operand, value: Operand)
    | Among(negated: bool, values: seq<Operand>)

  datatype FilterEntry =
    | Sliding(on: bool)
    | SlidingMax(limit: U64)
    | Tests(path: seq<PathPart>, test: Test)

  datatype FieldSyntax =
    | ScalarField(ftype: FieldType, name: string)
    | LengthField(ftype: FieldType, length: U64, name: string)
    | StructField(typeName: string, name: string)
    | ArrayField(typeName: string, name: string, count: U64)

  datatype Metadata =
    | QuotedName(text: string)
    | PlainName(word: string)
    | EndianIs(mode: EndianMode)
    | Ports(ports: seq<U64>)

  datatype Item =
    | ProtocolItem(metadata: seq<Metadata>)
    | ConstItem(constants: seq<(string, U64)>)
    | StructItem(name: string, fields: seq<FieldSyntax>)
    | FilterItem(name: string, entries: seq<FilterEntry>)

  // ---------- What the parts define ----------

  function OperandValue(o: Operand, constants: seq<(string, U64)>): U64 {
    match o
    case Literal(v) => v
    case Named(name) => match LookupConstant(constants, name) case None => 0 case Some(v) => v
  }

  function OperandValues(os: seq<Operand>, constants: seq<(string, U64)>): seq<U64> {
    if os == [] then [] else [OperandValue(os[0], constants)] + OperandValues(os[1..], constants)
  }

  function IndexText(indexes: seq<U64>): string {
    if indexes == [] then "" else "[" + Flatten.Decimal(indexes[0]) + "]" + IndexText(indexes[1..])
  }

  function PathText(path: seq<PathPart>): string {
    if path == [] then ""
    else path[0].name + IndexText(path[0].indexes) + if |path| == 1 then "" else "." + PathText(path[1..])
  }

  function TestCondition(path: string, test: Test, constants: seq<(string, U64)>): Condition {
    match test
    case Assigns(value) => Condition(path, Eq, OperandValue(value, constants), 0, [])
    case Compares(op, value) => Condition(path, op, OperandValue(value, constants), 0, [])
    case Masks(mask, value) =>
      Condition(path, Mask, OperandValue(value, constants), OperandValue(mask, constants), [])
    case Among(negated, values) =>
      Condition(path, if negated then NotIn else In, 0, 0, OperandValues(values, constants))
  }

  function WithEntry(rule: TempRule, e: FilterEntry, constants: seq<(string, U64)>): TempRule {
    match e
    case Sliding(on) => rule.(slidingWindow := on)
    case SlidingMax(limit) => rule.(slidingMaxOffset := limit)
    case Tests(path, test) =>
      rule.(conditions := rule.conditions + [TestCondition(PathText(path), test, constants)])
  }

  function WithEntries(rule: TempRule, es: seq<FilterEntry>, constants: seq<(string, U64)>): TempRule
    decreases |es|
  {
    if es == [] then rule else WithEntries(WithEntry(rule, es[0], constants), es[1..], constants)
  }

  /** How many bytes a field of a type without a written length takes in the packet. */
  function WrittenSize(t: FieldType): nat {
    match t
    case Uint8 | Int8 => 1
    case Uint16 | Int16 => 2
    case Uint32 | Int32 => 4
    case Uint64 | Int64 => 8
    case _ => 0
  }

  function DefinedField(f: FieldSyntax, order: Endian): Field {
    match f
    case ScalarField(t, name) => Field(name, t, 0, WrittenSize(t), order, t.Varbytes?, false, 1)
    case LengthField(t, length, name) => Field(name, t, 0, length, order, false, false, 1)
    case StructField(typeName, name) => Field(typeName + "." + name, Nested, 0, 0, order, false, false, 1)
    case ArrayField(typeName, name, count) => Field(typeName + "." + name, Nested, 0, 0, order, false, true, count)
  }

  predicate IsVarbytes(f: FieldSyntax) { f.ScalarField? && f.ftype.Varbytes? }

  function WithFields(s: StructDef, fs: seq<FieldSyntax>, order: Endian): StructDef
    decreases |fs|
  {
    if fs == [] then s
    else WithFields(s.(fields := s.fields + [DefinedField(fs[0], order)], hasVariable := IsVarbytes(fs[0])), fs[1..], order)
  }

  function WithMetadata(d: Draft, m: Metadata): Draft {
    match m
    case QuotedName(text) => d.(name := text)
    case PlainName(word) => d.(name := word)
    case EndianIs(mode) => d.(defaultEndian := if mode.ModeLittle? then Little else Big, mode := mode)
    case Ports(_) => d
  }

  function WithAllMetadata(d: Draft, ms: seq<Metadata>): Draft
    decreases |ms|
  {
    if ms == [] then d else WithAllMetadata(WithMetadata(d, ms[0]), ms[1..])
  }

  function WithConstants(d: Draft, cs: seq<(string, U64)>): Draft
    decreases |cs|
  {
    if cs == [] then d else WithConstants(d.(constants := [cs[0]] + d.constants), cs[1..])
  }

  /** An item adds to the definition so far; structs take the byte order that is the default by then. */
  function WithItem(d: Draft, item: Item): Draft {
    match item
    case ProtocolItem(ms) => WithAllMetadata(d, ms)
    case ConstItem(cs) => WithConstants(d, cs)
    case StructItem(name, fs) =>
      d.(structs := d.structs + [WithFields(StructDef(name, [], 0, false), fs, d.defaultEndian)])
    case FilterItem(name, es) =>
      d.(rules := d.rules + [WithEntries(TempRule(name, [], false, 0), es, d.constants)])
  }

  function WithItems(d: Draft, items: seq<Item>): Draft
    decreases |items|
  {
    if items == [] then d else WithItems(WithItem(d, items[0]), items[1..])
  }

  // ---------- What can be written ----------

  predicate Name(name: string) { Word(name) && |name| <= 63 && WordKind(name) == Identifier }

  predicate PathName(name: string) { Word(name) && WordKind(name) == Identifier }

  predicate OperandOk(o: Operand, constants: seq<(string, U64)>) {
    o.Named? ==> PathName(o.name) && LookupConstant(constants, o.name).Some?
  }

  ghost predicate OperandsOk(os: seq<Operand>, constants: seq<(string, U64)>) {
    os != [] && forall o :: o in os ==> OperandOk(o, constants)
  }

  ghost predicate TestOk(test: Test, constants: seq<(string, U64)>) {
    match test
    case Assigns(value) => OperandOk(value, constants)
    case Compares(op, value) => !op.Mask? && !op.In? && !op.NotIn? && OperandOk(value, constants)
    case Masks(mask, value) => OperandOk(mask, constants) && OperandOk(value, constants)
    case Among(_, values) => OperandsOk(values, constants)
  }

  /** A condition may not start with a name that is taken for a setting. */
  ghost predicate PathOk(path: seq<PathPart>) {
    path != [] && (forall part :: part in path ==> PathName(part.name)) && |PathText(path)| <= 127 &&
    path[0].name != "sliding" && path[0].name != "sliding_max"
  }

  ghost predicate EntryOk(e: FilterEntry, constants: seq<(string, U64)>) {
    match e
    case Sliding(_) => true
    case SlidingMax(limit) => limit < 0x1_0000_0000
    case Tests(path, test) => PathOk(path) && TestOk(test, constants)
  }

  predicate FieldOk(f: FieldSyntax) {
    Name(f.name) &&
    match f
    case ScalarField(t, _) => !t.Bytes? && !t.String? && !t.Nested?
    case LengthField(t, length, _) => (t.Bytes? || t.String?) && length < 0x1_0000_0000
    case StructField(typeName, _) => Name(typeName)
    case ArrayField(typeName, _, count) => Name(typeName) && 0 < count < 0x1_0000_0000
  }

  /** Nothing follows a field of variable length. */
  ghost predicate FieldsOk(fs: seq<FieldSyntax>) {
    forall i :: 0 <= i < |fs| ==> FieldOk(fs[i]) && (IsVarbytes(fs[i]) ==> i == |fs| - 1)
  }

  predicate MetadataOk(m: Metadata) {
    match m
    case QuotedName(text) => |text| <= 63 && LiteralText(text)
    case PlainName(word) => Name(word)
    case EndianIs(_) => true
    case Ports(ports) => ports != []
  }

  ghost predicate ItemOk(d: Draft, item: Item) {
    match item
    case ProtocolItem(ms) => forall m :: m in ms ==> MetadataOk(m)
    case ConstItem(cs) => forall c :: c in cs ==> Name(c.0)
    case StructItem(name, fs) => Name(name) && FieldsOk(fs)
    case FilterItem(name, es) =>
      Name(name) && |d.rules| < 16 && forall e :: e in es ==> EntryOk(e, d.constants)
  }

  /** Constants are defined before they are used. */
  ghost predicate ItemsOk(d: Draft, items: seq<Item>)
    decreases |items|
  {
    items == [] || (ItemOk(d, items[0]) && ItemsOk(WithItem(d, items[0]), items[1..]))
  }

  // ---------- The tokens of the parts ----------

  function SymbolText(kind: TokenKind): string {
    match kind
    case LBrace => "{"
    case RBrace => "}"
    case LBracket => "["
    case RBracket => "]"
    case Semicolon => ";"
    case Comma => ","
    case Dot => "."
    case Assign => "="
    case EqualEqual => "=="
    case NotEqual => "!="
    case Less => "<"
    case LessEqual => "<="
    case Greater => ">"
    case GreaterEqual => ">="
    case Ampersand => "&"
    case VerticalBar => "|"
    case Bang => "!"
    case _ => ""
  }

  function S(kind: TokenKind, k: Stream): Stream { More(Token(kind, SymbolText(kind), 0), k) }

  function W(text: string, k: Stream): Stream { More(Token(WordKind(text), text, 0), k) }

  function Keyword(text: string, k: Stream): Stream { More(Token(KeywordKind(text), text, 0), k) }

  function N(v: U64, k: Stream): Stream { More(Token(Number, Flatten.Decimal(v), v), k) }

  function OperandTokens(o: Operand, k: Stream): Stream {
    match o
    case Literal(v) => N(v, k)
    case Named(name) => W(name, k)
  }

  function ValueTokens(os: seq<Operand>, k: Stream): Stream {
    if os == [] then k
    else OperandTokens(os[0], if |os| == 1 then S(RBracket, k) else S(Comma, ValueTokens(os[1..], k)))
  }

  function IndexTokens(indexes: seq<U64>, k: Stream): Stream {
    if indexes == [] then k else S(LBracket, N(indexes[0], S(RBracket, IndexTokens(indexes[1..], k))))
  }

  function PathTokens(path: seq<PathPart>, k: Stream): Stream {
    if path == [] then k
    else W(path[0].name, IndexTokens(path[0].indexes, if |path| == 1 then k else S(Dot, PathTokens(path[1..], k))))
  }

  function ComparisonKind(op: CondOp): TokenKind {
    match op
    case Eq => EqualEqual
    case Ne => NotEqual
    case Gt => Greater
    case Ge => GreaterEqual
    case Lt => Less
    case Le => LessEqual
    case _ => Bad
  }

  function TestTokens(test: Test, k: Stream): Stream {
    match test
    case Assigns(value) => S(Assign, OperandTokens(value, k))
    case Compares(op, value) => S(ComparisonKind(op), OperandTokens(value, k))
    case Masks(mask, value) => S(Ampersand, OperandTokens(mask, S(Assign, OperandTokens(value, k))))
    case Among(negated, values) =>
      var list := W("in", S(LBracket, ValueTokens(values, k)));
      if negated then S(Bang, list) else list
  }

  function EntryTokens(e: FilterEntry, k: Stream): Stream {
    match e
    case Sliding(on) => W("sliding", S(Assign, W(if on then "true" else "false", S(Semicolon, k))))
    case SlidingMax(limit) => W("sliding_max", S(Assign, N(limit, S(Semicolon, k))))
    case Tests(path, test) => PathTokens(path, TestTokens(test, S(Semicolon, k)))
  }

  function EntriesTokens(es: seq<FilterEntry>, k: Stream): Stream {
    if es == [] then k else EntryTokens(es[0], EntriesTokens(es[1..], k))
  }

  function TypeText(t: FieldType): string {
    match t
    case Uint8 => "uint8"
    case Uint16 => "uint16"
    case Uint32 => "uint32"
    case Uint64 => "uint64"
    case Int8 => "int8"
    case Int16 => "int16"
    case Int32 => "int32"
    case Int64 => "int64"
    case Bytes => "bytes"
    case String => "string"
    case Varbytes => "varbytes"
    case Nested => ""
  }

  function FieldTokens(f: FieldSyntax, k: Stream): Stream {
    match f
    case ScalarField(t, name) => W(TypeText(t), W(name, S(Semicolon, k)))
    case LengthField(t, length, name) =>
      W(TypeText(t), S(LBracket, N(length, S(RBracket, W(name, S(Semicolon, k))))))
    case StructField(typeName, name) => W(typeName, W(name, S(Semicolon, k)))
    case ArrayField(typeName, name, count) =>
      W(typeName, W(name, S(LBracket, N(count, S(RBracket, S(Semicolon, k))))))
  }

  function FieldsTokens(fs: seq<FieldSyntax>, k: Stream): Stream {
    if fs == [] then k else FieldTokens(fs[0], FieldsTokens(fs[1..], k))
  }

  function PortTokens(ports: seq<U64>, k: Stream): Stream {
    if ports == [] then k
    else N(ports[0], if |ports| == 1 then k else S(Comma, PortTokens(ports[1..], k)))
  }

  function ModeText(mode: EndianMode): string {
    match mode
    case ModeBig => "big"
    case ModeLittle => "little"
    case ModeAuto => "auto"
  }

  function MetadataTokens(m: Metadata, k: Stream): Stream {
    match m
    case QuotedName(text) => W("name", S(Assign, More(Token(StringLiteral, text, 0), S(Semicolon, k))))
    case PlainName(word) => W("name", S(Assign, W(word, S(Semicolon, k))))
    case EndianIs(mode) => W("endian", S(Assign, W(ModeText(mode), S(Semicolon, k))))
    case Ports(ports) => W("ports", S(Assign, PortTokens(ports, S(Semicolon, k))))
  }

  function AllMetadataTokens(ms: seq<Metadata>, k: Stream): Stream {
    if ms == [] then k else MetadataTokens(ms[0], AllMetadataTokens(ms[1..], k))
  }

  function ConstantsTokens(cs: seq<(string, U64)>, k: Stream): Stream {
    if cs == [] then k else W(cs[0].0, S(Assign, N(cs[0].1, S(Semicolon, ConstantsTokens(cs[1..], k)))))
  }

  function ItemTokens(item: Item, k: Stream): Stream {
    match item
    case ProtocolItem(ms) => Keyword("protocol", S(LBrace, AllMetadataTokens(ms, S(RBrace, k))))
    case ConstItem(cs) => Keyword("const", S(LBrace, ConstantsTokens(cs, S(RBrace, k))))
    case StructItem(name, fs) => W(name, S(LBrace, FieldsTokens(fs, S(RBrace, k))))
    case FilterItem(name, es) => Keyword("filter", W(name, S(LBrace, EntriesTokens(es, S(RBrace, k)))))
  }

  function ItemsTokens(items: seq<Item>): Stream {
    if items == [] then Done else ItemTokens(items[0], ItemsTokens(items[1..]))
  }
}
