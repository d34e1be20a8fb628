/** From source text to a definition: what can be written is read back, and what is read is well-formed. */
module Source {
  import opened Pdef
  import opened Tokens
  import opened Spelling
  import opened Grammar
  import opened Syntax
  import opened RoundTrip
  import Flatten

  // ---------- Every token of a definition can be spelled ----------

  lemma {:induction false} DecimalReads(n: nat)
    ensures Flatten.Decimal(n) != "" && forall c :: c in Flatten.Decimal(n) ==> IsDigit(c)
    ensures Numeral(Flatten.Decimal(n), 10) == n
  {
    var d := "0123456789"[n % 10];
    assert IsDigit(d) && DigitValue(d) == n % 10;
    if n < 10 {
      assert Flatten.Decimal(n) == [d] && [d][..0] == "";
    } else {
      DecimalReads(n / 10);
      var shorter := Flatten.Decimal(n / 10);
      assert Flatten.Decimal(n) == shorter + [d];
      assert (shorter + [d])[..|shorter|] == shorter;
    }
  }

  function Power10(k: nat): nat { if k == 0 then 1 else 10 * Power10(k - 1) }

  lemma {:induction false} DecimalLength(n: nat, k: nat)
    requires k > 0 && n < Power10(k)
    ensures |Flatten.Decimal(n)| <= k
  {
    if n >= 10 {
      DecimalLength(n / 10, k - 1);
    }
  }

  lemma ShortDecimal(v: U64)
    ensures |Flatten.Decimal(v)| <= 20
  {
    assert Power10(5) == 100000 && Power10(10) == Power10(5) * 100000 && Power10(20) == Power10(10) * Power10(10);
    DecimalLength(v, 20);
  }

  lemma NumberSpellable(v: U64)
    ensures NumberToken(Token(Number, Flatten.Decimal(v), v))
  {
    DecimalReads(v);
    ShortDecimal(v);
  }

  function Hex(n: nat): string {
    if n < 16 then ["0123456789abcdef"[n]] else Hex(n / 16) + ["0123456789abcdef"[n % 16]]
  }

  lemma HexDigit(k: nat)
    requires k < 16
    ensures IsHexDigit("0123456789abcdef"[k]) && DigitValue("0123456789abcdef"[k]) == k
  {
  }

  lemma NumeralAppend(digits: string, d: char, base: nat)
    requires IsHexDigit(d) && forall c :: c in digits ==> IsHexDigit(c)
    ensures forall c :: c in digits + [d] ==> IsHexDigit(c)
    ensures Numeral(digits + [d], base) == Numeral(digits, base) * base + DigitValue(d)
  {
    assert (digits + [d])[..|digits|] == digits;
  }

  lemma {:induction false} HexReads(n: nat)
    ensures Hex(n) != "" && forall c :: c in Hex(n) ==> IsHexDigit(c)
    ensures Numeral(Hex(n), 16) == n
  {
    hide Numeral, DigitValue, IsHexDigit;
    var d := "0123456789abcdef"[n % 16];
    HexDigit(n % 16);
    if n < 16 {
      assert Hex(n) == [] + [d];
      NumeralAppend([], d, 16);
      assert Numeral([], 16) == 0 by { NoDigits(); }
    } else {
      HexReads(n / 16);
      NumeralAppend(Hex(n / 16), d, 16);
    }
  }

  lemma NoDigits()
    ensures Numeral([], 16) == 0
  {
  }

  /** Numbers written in decimal or, after "0x", in hexadecimal are read as themselves up to 64 bits, and as the
      largest 64-bit number above. */
  lemma NumbersReadBack(n: nat, s: string)
    requires |Flatten.Decimal(n)| <= TEXT_ROOM && |Hex(n)| <= TEXT_ROOM && !IsAlnum(Head(s))
    ensures Scan(Flatten.Decimal(n) + s).token.value == Scan("0x" + Hex(n) + s).token.value == if n > MAX_U64 then MAX_U64 else n
    ensures Scan(Flatten.Decimal(n) + s).rest == Scan("0x" + Hex(n) + s).rest == s
  {
    hide Flatten.Decimal, Hex, Numeral;
    DecimalReads(n);
    HexReads(n);
    Associates("0x", Hex(n), s);
    ScanSpelled(Token(Number, Flatten.Decimal(n), Saturated(n)), s);
    HexScanned('x', Hex(n), s);
    assert ['0', 'x'] == "0x";
  }

  // ---------- Hexadecimal numbers in either case ----------

  const LOWER_DIGITS := "0123456789abcdef"
  const UPPER_DIGITS := "0123456789ABCDEF"

  /** The character stands for v: it is at place v of one of the two alphabets. */
  predicate StandsFor(c: char, v: nat) { v < 16 && (c == LOWER_DIGITS[v] || c == UPPER_DIGITS[v]) }

  ghost predicate AllStandFor(digits: string, values: seq<nat>) {
    |digits| == |values| && forall k :: 0 <= k < |digits| ==> StandsFor(digits[k], values[k])
  }

  /** The number with these digit values, the first one the highest. */
  function Base16(values: seq<nat>): nat {
    if values == [] then 0 else Base16(values[..|values| - 1]) * 16 + values[|values| - 1]
  }

  lemma DigitAt(v: nat)
    requires v < 16
    ensures IsHexDigit(LOWER_DIGITS[v]) && DigitValue(LOWER_DIGITS[v]) == v
    ensures IsHexDigit(UPPER_DIGITS[v]) && DigitValue(UPPER_DIGITS[v]) == v
  {
  }

  lemma DigitStands(c: char)
    requires IsHexDigit(c)
    ensures StandsFor(c, DigitValue(c))
  {
  }

  /** These are the digits, and each has one value. */
  lemma HexDigitsExactly(c: char)
    ensures IsHexDigit(c) <==> exists v: nat :: StandsFor(c, v)
    ensures forall v: nat :: StandsFor(c, v) ==> IsHexDigit(c) && DigitValue(c) == v
  {
    hide IsHexDigit, DigitValue;
    if IsHexDigit(c) {
      DigitStands(c);
    }
    forall v: nat | StandsFor(c, v)
      ensures IsHexDigit(c) && DigitValue(c) == v
    {
      DigitAt(v);
    }
  }

  lemma {:induction false} HexDenotes(digits: string, values: seq<nat>)
    requires AllStandFor(digits, values)
    ensures (forall c :: c in digits ==> IsHexDigit(c)) && Numeral(digits, 16) == Base16(values)
    decreases |digits|
  {
    hide StandsFor, IsHexDigit, DigitValue;
    if digits != "" {
      var n := |digits| - 1;
      HexDenotes(digits[..n], values[..n]);
      assert StandsFor(digits[n], values[n]);
      HexDigitsExactly(digits[n]);
      assert digits == digits[..n] + [digits[n]];
    }
  }

  /** A hexadecimal number, after "0x" or "0X", of any digits in any case: its token has the value that the digits
      denote, or the largest 64-bit number when that is larger. */
  lemma HexReadBack(mark: char, digits: string, values: seq<nat>, s: string)
    requires (mark == 'x' || mark == 'X') && 0 < |digits| <= TEXT_ROOM && AllStandFor(digits, values) && !IsHexDigit(Head(s))
    ensures Scan(['0', mark] + digits + s) ==
            Scanned(Token(Number, digits, if Base16(values) > 0xFFFF_FFFF_FFFF_FFFF then 0xFFFF_FFFF_FFFF_FFFF else Base16(values)), s, None)
  {
    hide Numeral, AllStandFor;
    HexDenotes(digits, values);
    HexScanned(mark, digits, s);
  }

  lemma HexScanned(mark: char, digits: string, s: string)
    requires (mark == 'x' || mark == 'X') && !IsHexDigit(Head(s))
    requires 0 < |digits| <= TEXT_ROOM && forall c :: c in digits ==> IsHexDigit(c)
    ensures Scan(['0', mark] + digits + s) == Scanned(Token(Number, digits, Saturated(Numeral(digits, 16))), s, None)
  {
    hide Numeral, SkipBlanks;
    Associates(['0', mark], digits, s);
    HexStarts(mark, digits + s);
    SpanStops(digits, s, HexDigits);
  }

  lemma HexStarts(mark: char, t: string)
    ensures var all := ['0', mark] + t;
      Head(all) == '0' && Second(all) == mark && all[2..] == t && SkipBlanks(all) == all
  {
    assert (['0', mark] + t)[1..][0] == mark;
  }

  lemma TypeSpellable(t: FieldType)
    requires !t.Nested?
    ensures Word(TypeText(t))
  {
  }

  lemma SettingsSpellable()
    ensures Word("sliding") && Word("sliding_max") && Word("true") && Word("false") && Word("in")
    ensures Word("name") && Word("endian") && Word("ports") && Word("big") && Word("little") && Word("auto")
    ensures Word("protocol") && Word("const") && Word("filter")
  {
  }

  /** A piece of a definition can be spelled when what follows it can. */
  lemma PiecesSpellable()
    ensures forall kind, k :: SymbolText(kind) != "" && AllSpellable(k) ==> AllSpellable(S(kind, k))
    ensures forall text, k :: Word(text) && AllSpellable(k) ==> AllSpellable(W(text, k))
    ensures forall v: U64, k :: AllSpellable(k) ==> AllSpellable(N(v, k))
  {
    hide Word, WordKind, SymbolText, NumberToken, SymbolToken;
    forall kind, k | SymbolText(kind) != "" && AllSpellable(k)
      ensures AllSpellable(S(kind, k))
    {
      SymbolSpellable(kind);
    }
    forall v: U64, k | AllSpellable(k)
      ensures AllSpellable(N(v, k))
    {
      NumberSpellable(v);
    }
  }

  lemma SymbolSpellable(kind: TokenKind)
    requires SymbolText(kind) != ""
    ensures SymbolToken(Token(kind, SymbolText(kind), 0))
  {
  }

  /** The tokens of which the inside of a block is made. */
  predicate InnerToken(t: Token) { Writable(t) && !t.kind.RBrace? }

  /** The tokens of which a definition is made: literals are as short as names. */
  predicate Writable(t: Token) { Spellable(t) && (t.kind.StringLiteral? ==> |t.text| <= NAME_ROOM) }

  ghost predicate AllWritable(ts: Stream) {
    match ts
    case Done => true
    case More(t, tail) => Writable(t) && AllWritable(tail)
  }

  /** Inner tokens, and then `end`. */
  ghost predicate Leads(ts: Stream, end: Stream)
    decreases ts
  {
    ts == end || (ts.More? && InnerToken(ts.head) && Leads(ts.tail, end))
  }

  lemma {:induction false} LeadsWritable(ts: Stream, end: Stream)
    requires Leads(ts, end) && AllWritable(end)
    ensures AllWritable(ts)
  {
    if ts != end {
      LeadsWritable(ts.tail, end);
    }
  }

  lemma {:induction false} WritableSpellable(ts: Stream)
    requires AllWritable(ts)
    ensures AllSpellable(ts)
  {
    if ts.More? {
      WritableSpellable(ts.tail);
    }
  }

  lemma PiecesLead()
    ensures forall kind, k, end :: SymbolText(kind) != "" && !kind.RBrace? && Leads(k, end) ==> Leads(S(kind, k), end)
    ensures forall text, k, end :: Word(text) && Leads(k, end) ==> Leads(W(text, k), end)
    ensures forall v: U64, k, end :: Leads(k, end) ==> Leads(N(v, k), end)
  {
    hide Word, SymbolText, NumberToken, SymbolToken;
    forall kind, k, end | SymbolText(kind) != "" && !kind.RBrace? && Leads(k, end)
      ensures Leads(S(kind, k), end)
    {
      SymbolSpellable(kind);
      NoSymbolText();
    }
    forall v: U64, k, end | Leads(k, end)
      ensures Leads(N(v, k), end)
    {
      NumberSpellable(v);
    }
  }

  lemma NoSymbolText()
    ensures SymbolText(StringLiteral) == ""
  {
  }

  lemma OperandLead(o: Operand, k: Stream, constants: seq<(string, U64)>, end: Stream)
    requires OperandOk(o, constants) && Leads(k, end)
    ensures Leads(OperandTokens(o, k), end)
  {
    hide Leads, S, W, N, Word;
    PiecesLead();
  }

  lemma {:induction false} ValuesLead(os: seq<Operand>, k: Stream, constants: seq<(string, U64)>, end: Stream)
    requires OperandsOk(os, constants) && Leads(k, end)
    ensures Leads(ValueTokens(os, k), end)
    decreases |os|
  {
    hide Leads, S, OperandTokens, OperandOk;
    PiecesLead();
    if |os| == 1 {
      OperandLead(os[0], S(RBracket, k), constants, end);
    } else {
      ValuesLead(os[1..], k, constants, end);
      OperandLead(os[0], S(Comma, ValueTokens(os[1..], k)), constants, end);
    }
  }

  lemma {:induction false} IndexesLead(indexes: seq<U64>, k: Stream, end: Stream)
    requires Leads(k, end)
    ensures Leads(IndexTokens(indexes, k), end)
    decreases |indexes|
  {
    hide Leads, S, N;
    if indexes != [] {
      PiecesLead();
      IndexesLead(indexes[1..], k, end);
    }
  }

  lemma {:induction false} PathLead(path: seq<PathPart>, k: Stream, end: Stream)
    requires Leads(k, end) && forall part :: part in path ==> PathName(part.name)
    ensures Leads(PathTokens(path, k), end)
    decreases |path|
  {
    hide Leads, S, W, IndexTokens, Word;
    if path != [] {
      PiecesLead();
      assert path[0] in path;
      PathLead(path[1..], k, end);
      IndexesLead(path[0].indexes, if |path| == 1 then k else S(Dot, PathTokens(path[1..], k)), end);
    }
  }

  lemma TestLead(test: Test, k: Stream, constants: seq<(string, U64)>, end: Stream)
    requires TestOk(test, constants) && Leads(k, end)
    ensures Leads(TestTokens(test, k), end)
  {
    hide Leads, S, W, OperandTokens, OperandOk, OperandsOk, ValueTokens, Word;
    PiecesLead();
    SettingsSpellable();
    match test {
      case Assigns(value) => OperandLead(value, k, constants, end);
      case Compares(_, value) => OperandLead(value, k, constants, end);
      case Masks(mask, value) =>
        OperandLead(value, k, constants, end);
        OperandLead(mask, S(Assign, OperandTokens(value, k)), constants, end);
      case Among(_, values) => ValuesLead(values, k, constants, end);
    }
  }

  lemma {:induction false} EntriesLead(es: seq<FilterEntry>, k: Stream, constants: seq<(string, U64)>, end: Stream)
    requires Leads(k, end) && forall e :: e in es ==> EntryOk(e, constants)
    ensures Leads(EntriesTokens(es, k), end)
    decreases |es|
  {
    hide Leads, S, W, N, PathTokens, TestTokens, TestOk, PathText, Word;
    if es != [] {
      EntriesLead(es[1..], k, constants, end);
      PiecesLead();
      SettingsSpellable();
      assert EntryOk(es[0], constants);
      var rest := EntriesTokens(es[1..], k);
      match es[0] {
        case Sliding(_) =>
        case SlidingMax(_) =>
        case Tests(path, test) =>
          TestLead(test, S(Semicolon, rest), constants, end);
          PathLead(path, TestTokens(test, S(Semicolon, rest)), end);
      }
    }
  }

  lemma FieldLead(f: FieldSyntax, k: Stream, end: Stream)
    requires FieldOk(f) && Leads(k, end)
    ensures Leads(FieldTokens(f, k), end)
  {
    hide Leads, S, W, N, Word, TypeText;
    PiecesLead();
    if f.ScalarField? || f.LengthField? {
      TypeSpellable(f.ftype);
    }
  }

  lemma {:induction false} FieldsLead(fs: seq<FieldSyntax>, k: Stream, end: Stream)
    requires Leads(k, end) && forall f :: f in fs ==> FieldOk(f)
    ensures Leads(FieldsTokens(fs, k), end)
    decreases |fs|
  {
    hide Leads, FieldTokens, FieldOk;
    if fs != [] {
      FieldsLead(fs[1..], k, end);
      FieldLead(fs[0], FieldsTokens(fs[1..], k), end);
    }
  }

  lemma {:induction false} PortsLead(ports: seq<U64>, k: Stream, end: Stream)
    requires Leads(k, end)
    ensures Leads(PortTokens(ports, k), end)
    decreases |ports|
  {
    hide Leads, S, N;
    if ports != [] {
      PiecesLead();
      PortsLead(ports[1..], k, end);
    }
  }

  lemma LiteralLead(text: string, k: Stream, end: Stream)
    requires |text| <= NAME_ROOM && LiteralText(text) && Leads(k, end)
    ensures Leads(More(Token(StringLiteral, text, 0), k), end)
  {
  }

  lemma MetadataLead(m: Metadata, k: Stream, end: Stream)
    requires MetadataOk(m) && Leads(k, end)
    ensures Leads(MetadataTokens(m, k), end)
  {
    hide Leads, S, W, Word, PortTokens, LiteralText;
    PiecesLead();
    SettingsSpellable();
    match m {
      case QuotedName(text) => LiteralLead(text, S(Semicolon, k), end);
      case PlainName(_) =>
      case EndianIs(_) =>
      case Ports(ports) => PortsLead(ports, S(Semicolon, k), end);
    }
  }

  lemma {:induction false} AllMetadataLead(ms: seq<Metadata>, k: Stream, end: Stream)
    requires Leads(k, end) && forall m :: m in ms ==> MetadataOk(m)
    ensures Leads(AllMetadataTokens(ms, k), end)
    decreases |ms|
  {
    hide Leads, MetadataTokens, MetadataOk;
    if ms != [] {
      AllMetadataLead(ms[1..], k, end);
      MetadataLead(ms[0], AllMetadataTokens(ms[1..], k), end);
    }
  }

  lemma {:induction false} ConstantsLead(cs: seq<(string, U64)>, k: Stream, end: Stream)
    requires Leads(k, end) && forall c :: c in cs ==> Name(c.0)
    ensures Leads(ConstantsTokens(cs, k), end)
    decreases |cs|
  {
    hide Leads, S, W, N, Word;
    if cs != [] {
      PiecesLead();
      assert Name(cs[0].0);
      ConstantsLead(cs[1..], k, end);
    }
  }

  lemma KeywordSpellable(text: string, k: Stream)
    requires text == "protocol" || text == "const" || text == "filter"
    requires AllSpellable(k)
    ensures AllSpellable(Keyword(text, k))
  {
    SettingsSpellable();
  }

  /** The inside of a block, with its end. */
  lemma {:induction false} BlockWritable(body: Stream, k: Stream)
    requires Leads(body, S(RBrace, k)) && AllWritable(k)
    ensures AllWritable(body)
  {
    SymbolSpellable(RBrace);
    LeadsWritable(body, S(RBrace, k));
  }

  lemma OpensWritable(k: Stream)
    requires AllWritable(k)
    ensures AllWritable(S(LBrace, k))
  {
    SymbolSpellable(LBrace);
  }

  lemma NameWritable(name: string, k: Stream)
    requires Name(name) && AllWritable(k)
    ensures AllWritable(W(name, k))
  {
    hide Word;
  }

  lemma KeywordWritable(text: string, k: Stream)
    requires text == "protocol" || text == "const" || text == "filter"
    requires AllWritable(k)
    ensures AllWritable(Keyword(text, k))
  {
    SettingsSpellable();
  }

  /** The inside of an item's block. */
  function Inside(item: Item, end: Stream): Stream {
    match item
    case ProtocolItem(ms) => AllMetadataTokens(ms, end)
    case ConstItem(cs) => ConstantsTokens(cs, end)
    case StructItem(_, fs) => FieldsTokens(fs, end)
    case FilterItem(_, es) => EntriesTokens(es, end)
  }

  /** It is made of inner tokens. */
  lemma ItemLeads(d: Draft, item: Item, end: Stream)
    requires ItemOk(d, item)
    ensures Leads(Inside(item, end), end)
  {
    hide Leads, AllMetadataTokens, ConstantsTokens, FieldsTokens, EntriesTokens, MetadataOk, FieldOk, EntryOk, IsVarbytes;
    assert Leads(end, end) by { LeadsItself(end); }
    match item {
      case ProtocolItem(ms) => AllMetadataLead(ms, end, end);
      case ConstItem(cs) => ConstantsLead(cs, end, end);
      case StructItem(_, fs) => FieldsLead(fs, end, end);
      case FilterItem(_, es) => EntriesLead(es, end, d.constants, end);
    }
  }

  lemma LeadsItself(end: Stream)
    ensures Leads(end, end)
  {
  }

  lemma ItemWritable(d: Draft, item: Item, k: Stream)
    requires ItemOk(d, item) && AllWritable(k)
    ensures AllWritable(ItemTokens(item, k))
  {
    hide AllWritable, Leads, S, W, Keyword, Name, AllMetadataTokens, ConstantsTokens, FieldsTokens, EntriesTokens;
    hide MetadataOk, Syntax.FieldsOk, EntryOk;
    var end := S(RBrace, k);
    ItemLeads(d, item, end);
    match item {
      case ProtocolItem(ms) =>
        BlockWritable(AllMetadataTokens(ms, end), k);
        OpensWritable(AllMetadataTokens(ms, end));
        KeywordWritable("protocol", S(LBrace, AllMetadataTokens(ms, end)));
      case ConstItem(cs) =>
        BlockWritable(ConstantsTokens(cs, end), k);
        OpensWritable(ConstantsTokens(cs, end));
        KeywordWritable("const", S(LBrace, ConstantsTokens(cs, end)));
      case StructItem(name, fs) =>
        BlockWritable(FieldsTokens(fs, end), k);
        OpensWritable(FieldsTokens(fs, end));
        NameWritable(name, S(LBrace, FieldsTokens(fs, end)));
      case FilterItem(name, es) =>
        BlockWritable(EntriesTokens(es, end), k);
        OpensWritable(EntriesTokens(es, end));
        NameWritable(name, S(LBrace, EntriesTokens(es, end)));
        KeywordWritable("filter", W(name, S(LBrace, EntriesTokens(es, end))));
    }
  }

  lemma {:induction false} ItemsWritable(d: Draft, items: seq<Item>)
    requires ItemsOk(d, items)
    ensures AllWritable(ItemsTokens(items))
    decreases |items|
  {
    hide ItemTokens, ItemOk, WithItem;
    if items != [] {
      ItemsWritable(WithItem(d, items[0]), items[1..]);
      ItemWritable(d, items[0], ItemsTokens(items[1..]));
    }
  }

  // ---------- The round trip ----------

  /** Lexing and parsing undo writing: a definition that can be written, with any spaces and comments between
      its tokens, is read back as what it defines. */
  lemma ParseWritten(items: seq<Item>, gaps: seq<Gap>)
    requires ItemsOk(EMPTY_DRAFT, items)
    requires |gaps| == Length(ItemsTokens(items)) + 1 && Spaced(ItemsTokens(items), gaps)
    ensures ParseSource(Text(ItemsTokens(items), gaps)) == Ok(WithItems(EMPTY_DRAFT, items))
  {
    hide ItemsOk, ItemsTokens, WithItems, Text, Spaced, AllSpellable, AllWritable, At, Start;
    var ts := ItemsTokens(items);
    var source := Text(ts, gaps);
    ItemsWritable(EMPTY_DRAFT, items);
    WritableSpellable(ts);
    LexText(ts, gaps);
    AtStart(source, ts);
    ItemsRead(Start(source), EMPTY_DRAFT, items);
  }

  /** Every such definition has a text: its tokens with a space between them. */
  lemma WrittenPlainly(items: seq<Item>)
    requires ItemsOk(EMPTY_DRAFT, items)
    ensures ParseSource(Text(ItemsTokens(items), OneSpace(ItemsTokens(items)))) == Ok(WithItems(EMPTY_DRAFT, items))
  {
    hide ItemsOk, ItemsTokens, WithItems, ParseSource, Text;
    OneSpaceSuffices(ItemsTokens(items));
    ParseWritten(items, OneSpace(ItemsTokens(items)));
  }

  /** Spaces and comments have no meaning: two spacings of the same definition are parsed alike. */
  lemma SpacingDoesNotMatter(items: seq<Item>, gaps: seq<Gap>, others: seq<Gap>)
    requires ItemsOk(EMPTY_DRAFT, items)
    requires |gaps| == |others| == Length(ItemsTokens(items)) + 1
    requires Spaced(ItemsTokens(items), gaps) && Spaced(ItemsTokens(items), others)
    ensures ParseSource(Text(ItemsTokens(items), gaps)) == ParseSource(Text(ItemsTokens(items), others))
  {
    hide ItemsOk, ItemsTokens, WithItems, ParseSource, Text, Spaced;
    ParseWritten(items, gaps);
    ParseWritten(items, others);
  }
}
