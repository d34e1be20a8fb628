/** What a written-back byte order means for later captures, and where writing it back goes wrong. */
module WritebackEffects {
  import opened Pdef
  import opened Tokens
  import opened Spelling
  import opened TextSearch
  import opened Writeback
  import opened Matcher
  import opened Grammar
  import opened Syntax
  import opened Splice
  import opened Places
  import opened RoundTrip
  import opened Source
  import opened Definition
  import opened Protocol
  import opened OrderBlind
  import opened PdefString
  import opened Reload
  import Flatten

  // ---------- The setting that is found ----------

  /** When no '=' is between the first "endian" of a text and that of an entry, no ';' in the entry before its last
      token, and both are near, it is the value of this entry that is rewritten. */
  lemma EntryIsFound(a: Around, m: Metadata, before: seq<Gap>, g: EntrySpacing, after: seq<Gap>, endian: nat)
    requires FitsEntry(a, m, before, g, after) && Find(TextWith(a, m, before, g, after), "endian", 0) == Some(endian)
    requires var text, start := TextWith(a, m, before, g, after), ValueStart(a, m, before, g);
      endian < start <= endian + REACH + 1 && |ValueText(m, g)| < VALUE_REACH && ';' !in ValueText(m, g) &&
      forall i :: endian <= i < start - 1 && i < |text| ==> text[i] != '='
    ensures ReplacesHere(a, m, before, g, after)
  {
    hide Text, Spaced, Opening, Closing, GapText, PreText, Entry, ValueText, EntryGaps, KeyOf, Find, SettingAt;
    var (s, k) := (Opening(a), Closing(a));
    TextJoins(s, Entry(m, k), before, EntryGaps(g, after));
    EntryText(m, k, g, after);
    EntryChars(PreText(s, before), GapText(g.word) + KeyOf(m) + GapText(g.assign), ValueText(m, g), Text(k, after));
    var text, start, v := TextWith(a, m, before, g, after), ValueStart(a, m, before, g), ValueText(m, g);
    forall i | start <= i < start + |v|
      ensures text[i] != ';'
    {
      assert text[i] == text[start..start + |v|][i - start] && v[i - start] in v;
    }
    SettingIs(text, endian, start, start + |v|);
  }

  /** The characters of a text around a value. */
  lemma EntryChars(pre: string, left: string, v: string, rest: string)
    ensures var text, start := pre + ((left + "=") + v + (";" + rest)), |pre| + |left| + 1;
      start + |v| < |text| && text[start - 1] == '=' && text[start + |v|] == ';' && text[start..start + |v|] == v
  {
    var (l, text) := (left + "=", pre + ((left + "=") + v + (";" + rest)));
    assert text == pre + (l + (v + (";" + rest)));
    assert l[|l| - 1] == '=';
    assert text[|pre| + |left|] == l[|left|];
    assert text[|pre| + |l|..] == v + (";" + rest);
    var tail := text[|pre| + |l|..];
    assert tail[|v|] == ';' && tail[..|v|] == v;
  }

  // ---------- What later captures make of it ----------

  /** A text that was loaded in mode auto, and was rewritten to the definition with the order set at a place. */
  ghost predicate WrittenBack(text: string, a: Around, entries: seq<Metadata>, order: Endian) {
    (entries == [] || entries == [EndianIs(ModeAuto)]) && SilentAround(a) && Loaded(text).Ok? &&
    ParseSource(text) == Ok(WithItems(EMPTY_DRAFT, With(a, entries))) &&
    RewrittenTo(text, order, With(a, [EndianIs(ModeOf(order))]))
  }

  /** Before writing back, the definition is in mode auto and its structs are big-endian. */
  lemma {:induction false} AutoIsBig(a: Around, entries: seq<Metadata>)
    requires SilentAround(a) && (entries == [] || entries == [EndianIs(ModeAuto)])
    ensures var d := WithItems(EMPTY_DRAFT, With(a, entries)); d.mode == ModeAuto && AllInOrder(d.structs, Big)
  {
    hide AllSilent, AllInOrder, SilentEntries, InOrder;
    var ms := a.first + (entries + a.last);
    var d0 := WithItems(EMPTY_DRAFT, a.before);
    ItemsInTurn(EMPTY_DRAFT, a.before, [ProtocolItem(ms)] + a.after);
    NoStructsInOrder();
    SilentItems(EMPTY_DRAFT, a.before);
    var d1 := WithAllMetadata(d0, a.first);
    MetadataInTurn(d0, a.first, entries + a.last);
    MetadataInTurn(d1, entries, a.last);
    SilentMetadata(d0, a.first);
    MetadataOnly(d0, a.first);
    var d2 := WithAllMetadata(d1, entries);
    assert d2 == d1 by { AutoChangesNothing(d1, entries); }
    SilentMetadata(d2, a.last);
    MetadataOnly(d2, a.last);
    assert ([ProtocolItem(ms)] + a.after)[1..] == a.after;
    SilentItems(WithAllMetadata(d2, a.last), a.after);
  }

  lemma AutoChangesNothing(d: Draft, entries: seq<Metadata>)
    requires d.mode == ModeAuto && d.defaultEndian == Big && (entries == [] || entries == [EndianIs(ModeAuto)])
    ensures WithAllMetadata(d, entries) == d
  {
    if entries != [] {
      assert entries[1..] == [];
    }
  }

  /** Before writing back, with the order detected, the packets are read in the detected order. */
  lemma DetectedReadsRight(text: string, a: Around, entries: seq<Metadata>, order: Endian, packet: Packet)
    requires WrittenBack(text, a, entries, order)
    ensures var c := Loaded(text).value;
      AllRunnable(c.filters) &&
      Match(c.draft.mode, Learned(order), packet, c.filters).0 ==
        DefinitionHolds(c.draft.structs, c.draft.rules, order, packet)
  {
    hide ParseSource, DefinitionHolds, Match, AllInOrder, RewrittenTo, WithItems, SilentAround, Built;
    AutoIsBig(a, entries);
    LoadedUniformly(text, Big, Learned(order), order, packet);
  }

  /** After writing back, the new text can be loaded, and it stands for the same structs but for their order. */
  lemma NewTextLoads(text: string, a: Around, entries: seq<Metadata>, order: Endian)
    requires WrittenBack(text, a, entries, order)
    ensures Rewrite(text, order).Some? && Loaded(Rewrite(text, order).value).Ok?
    ensures var c, c' := Loaded(text).value, Loaded(Rewrite(text, order).value).value;
      c'.draft == WithItems(EMPTY_DRAFT, With(a, [EndianIs(ModeOf(order))])) && Alike(c.draft, c'.draft)
  {
    hide ParseSource, Rewrite, WithItems, SilentAround, BlindAll, Built;
    EntriesAlike(a, entries, [EndianIs(ModeOf(order))]);
    var d, d' := WithItems(EMPTY_DRAFT, With(a, entries)), WithItems(EMPTY_DRAFT, With(a, [EndianIs(ModeOf(order))]));
    BuiltAlike(d.structs, d'.structs, d.rules);
  }

  /** Whichever order was detected and written back before the structs, what was loaded before reads packets in the
      detected order, and what is loaded from the new text reads them in big-endian order: a written "little" takes
      effect twice, when the structs are parsed and when the program is chosen. */
  lemma WrittenBackReadsBig(text: string, a: Around, entries: seq<Metadata>, order: Endian, detected: Detected, packet: Packet)
    requires WrittenBack(text, a, entries, order) && NoStructs(a.before)
    ensures Rewrite(text, order).Some? && Loaded(Rewrite(text, order).value).Ok?
    ensures var c, c' := Loaded(text).value, Loaded(Rewrite(text, order).value).value;
      AllRunnable(c.filters) && AllRunnable(c'.filters) &&
      Match(c.draft.mode, Learned(order), packet, c.filters).0 ==
        DefinitionHolds(c.draft.structs, c.draft.rules, order, packet) &&
      Match(c'.draft.mode, detected, packet, c'.filters).0 ==
        DefinitionHolds(c.draft.structs, c.draft.rules, Big, packet)
  {
    hide WrittenBack, Rewrite, DefinitionHolds, Match, AllInOrder, WithItems, BlindAll, Flatten.FlattenedFrom, ParseSource;
    DetectedReadsRight(text, a, entries, order, packet);
    NewTextReads(text, a, entries, order, order, detected, packet);
  }

  /** Written back behind all structs, the order is read as it was detected. */
  lemma WrittenBehindReadsRight(text: string, a: Around, entries: seq<Metadata>, order: Endian, detected: Detected, packet: Packet)
    requires WrittenBack(text, a, entries, order) && NoStructs(a.after)
    ensures Rewrite(text, order).Some? && Loaded(Rewrite(text, order).value).Ok?
    ensures var c, c' := Loaded(text).value, Loaded(Rewrite(text, order).value).value;
      AllRunnable(c'.filters) &&
      Match(c'.draft.mode, detected, packet, c'.filters).0 ==
        DefinitionHolds(c.draft.structs, c.draft.rules, order, packet)
  {
    hide WrittenBack, Rewrite, DefinitionHolds, Match, AllInOrder, WithItems, BlindAll, Flatten.FlattenedFrom, ParseSource;
    NewTextReads(text, a, entries, order, Big, detected, packet);
  }

  lemma NewTextReads(text: string, a: Around, entries: seq<Metadata>, order: Endian, parsed: Endian, detected: Detected, packet: Packet)
    requires WrittenBack(text, a, entries, order)
    requires (parsed == order && NoStructs(a.before)) || (parsed == Big && NoStructs(a.after))
    ensures Rewrite(text, order).Some? && Loaded(Rewrite(text, order).value).Ok?
    ensures var c, c' := Loaded(text).value, Loaded(Rewrite(text, order).value).value;
      AllRunnable(c'.filters) &&
      Match(c'.draft.mode, detected, packet, c'.filters).0 ==
        DefinitionHolds(c.draft.structs, c.draft.rules, Protocol.Reads(parsed, order), packet)
  {
    hide Rewrite, DefinitionHolds, Match, AllInOrder, WithItems, BlindAll, Flatten.FlattenedFrom, ParseSource;
    NewTextLoads(text, a, entries, order);
    SettingTakesEffect(a, order);
    var c, c' := Loaded(text).value, Loaded(Rewrite(text, order).value).value;
    LoadedUniformly(Rewrite(text, order).value, parsed, detected, order, packet);
    HoldsAlike(c.draft.structs, c'.draft.structs, c.draft.rules, Protocol.Reads(parsed, order), packet);
  }

  /** The two ways in which a text comes to be written back: the setting is inserted in a gap of a @protocol block,
      or an entry that says auto is replaced. */
  lemma InsertingWritesBack(a: Around, sp: Spacing, order: Endian)
    requires ItemsOk(EMPTY_DRAFT, With(a, [])) && Fits(sp, a) && InsertsHere(a, sp) && SilentAround(a)
    ensures Loaded(TextOf(a, sp)).Ok? ==> WrittenBack(TextOf(a, sp), a, [], order)
  {
    hide ItemsOk, Fits, InsertsHere, SilentAround, RewrittenTo, ParseSource, WithItems, Built;
    InsertedIsRead(a, sp, order);
  }

  lemma ReplacingWritesBack(a: Around, before: seq<Gap>, g: EntrySpacing, after: seq<Gap>, order: Endian)
    requires ItemsOk(EMPTY_DRAFT, With(a, [EndianIs(ModeAuto)])) && FitsEntry(a, EndianIs(ModeAuto), before, g, after)
    requires ReplacesHere(a, EndianIs(ModeAuto), before, g, after) && SilentAround(a)
    ensures Loaded(TextWith(a, EndianIs(ModeAuto), before, g, after)).Ok? ==>
      WrittenBack(TextWith(a, EndianIs(ModeAuto), before, g, after), a, [EndianIs(ModeAuto)], order)
  {
    hide ItemsOk, FitsEntry, ReplacesHere, SilentAround, RewrittenTo, ParseSource, WithItems, Built;
    ReplacedIsRead(a, EndianIs(ModeAuto), before, g, after, order);
  }

  // ---------- What is found may be in a comment ----------

  /** Text pre + (gap + rest) with part of the gap replaced. */
  lemma ReplacedInGap(pre: string, gap: string, rest: string, start: nat, end: nat, order: Endian)
    requires |pre| < start <= end < |pre| + |gap|
    ensures Replaced(pre + (gap + rest), start, end, order) ==
            pre + ((gap[..start - |pre|] + (" " + OrderName(order)) + gap[end - |pre|..]) + rest)
  {
    hide OrderName;
    var name := " " + OrderName(order);
    var text := pre + (gap + rest);
    var (left, right) := (gap[..start - |pre|], gap[end - |pre|..]);
    assert text[..start] == pre + left && text[end..] == right + rest;
    Associates(pre + left, " ", OrderName(order));
    Associates(pre + left, name, right + rest);
    Associates(pre, left, name + (right + rest));
    Associates(name, right, rest);
    Associates(left, name + right, rest);
    Associates(left, name, right);
  }

  lemma NameInComment(order: Endian)
    ensures BlankOk(Comment(" " + OrderName(order)))
  {
  }

  /** A setting found in one gap is replaced by rewriting the gap to another. */
  lemma SettingInGap(pre: string, g: Gap, rest: string, endian: nat, start: nat, end: nat, order: Endian) returns (h: Gap)
    requires GapOk(g) && SettingAt(pre + (GapText(g) + rest), endian) == Some((start, end))
    requires |pre| < start && end < |pre| + |GapText(g)|
    ensures GapOk(h) && h != [] && Replaced(pre + (GapText(g) + rest), start, end, order) == pre + (GapText(h) + rest)
  {
    hide SettingAt, GapText, GapOk, Replaced, OrderName, BlankOk;
    var text := pre + (GapText(g) + rest);
    var i, j := start - 1 - |pre|, end - |pre|;
    assert GapText(g)[i] == text[start - 1] && GapText(g)[j] == text[end];
    NameInComment(order);
    SettingOrdered(text, endian);
    h := SpliceGap(g, i, j, " " + OrderName(order));
    ReplacedInGap(pre, GapText(g), rest, start, end, order);
  }

  lemma RewriteReplaces(text: string, endian: nat, start: nat, end: nat, order: Endian)
    requires Find(text, "endian", 0) == Some(endian) && SettingAt(text, endian) == Some((start, end))
    ensures start <= end <= |text| && Rewrite(text, order) == Some(Replaced(text, start, end, order))
  {
  }

  /** Only the gap is another. */
  lemma GapRewritten(s: Stream, k: Stream, before: seq<Gap>, g: Gap, after: seq<Gap>, endian: nat, start: nat, end: nat, order: Endian)
    returns (h: Gap)
    requires |before| == Length(s) && |after| == Length(k) && Spaced(Join(s, k), before + ([g] + after))
    requires var text := Text(Join(s, k), before + ([g] + after));
      Find(text, "endian", 0) == Some(endian) && SettingAt(text, endian) == Some((start, end))
    requires |PreText(s, before)| < start && end < |PreText(s, before)| + |GapText(g)|
    ensures Spaced(Join(s, k), before + ([h] + after))
    ensures Rewrite(Text(Join(s, k), before + ([g] + after)), order) == Some(Text(Join(s, k), before + ([h] + after)))
  {
    hide Text, Spaced, PreText, GapText, Join, SettingAt, Find, GapOk, Replaced, Rewrite, PreSpaced;
    TextAround(s, k, before, g, after);
    SpacedJoins(s, k, before, [g] + after);
    FirstGapOk(k, g, after);
    h := SettingInGap(PreText(s, before), g, Text(k, [[]] + after), endian, start, end, order);
    FirstGapFree(k, g, h, after);
    SpacedAround(s, k, before, g, after, k, h, after);
    TextAround(s, k, before, h, after);
    RewriteReplaces(Text(Join(s, k), before + ([g] + after)), endian, start, end, order);
  }

  lemma ParseSplit(items: seq<Item>, s: Stream, k: Stream, before: seq<Gap>, g: Gap, after: seq<Gap>)
    requires ItemsOk(EMPTY_DRAFT, items) && ItemsTokens(items) == Join(s, k)
    requires |before| == Length(s) && |after| == Length(k) && Spaced(Join(s, k), before + ([g] + after))
    ensures ParseSource(Text(Join(s, k), before + ([g] + after))) == Ok(WithItems(EMPTY_DRAFT, items))
  {
    hide Text, Spaced, ItemsOk, ItemsTokens, Join, WithItems, ParseSource;
    ParseWritten(items, before + ([g] + after));
  }

  /** Wherever the first "endian" is: when the '=' and the ';' that are found are in one gap, only comments are
      rewritten.  The rewriting reports success, and the definition is what it was. */
  lemma CommentIsRewritten(items: seq<Item>, s: Stream, k: Stream, before: seq<Gap>, g: Gap, after: seq<Gap>,
      endian: nat, start: nat, end: nat, order: Endian)
    requires ItemsOk(EMPTY_DRAFT, items) && ItemsTokens(items) == Join(s, k)
    requires |before| == Length(s) && |after| == Length(k) && Spaced(Join(s, k), before + ([g] + after))
    requires var text := Text(Join(s, k), before + ([g] + after));
      Find(text, "endian", 0) == Some(endian) && SettingAt(text, endian) == Some((start, end))
    requires |PreText(s, before)| < start && end < |PreText(s, before)| + |GapText(g)|
    ensures var text := Text(Join(s, k), before + ([g] + after));
      Rewrite(text, order).Some? && ParseSource(Rewrite(text, order).value) == ParseSource(text) == Ok(WithItems(EMPTY_DRAFT, items))
  {
    hide Text, Spaced, PreText, GapText, ItemsOk, ItemsTokens, Join, WithItems, ParseSource, SettingAt, Find, Rewrite;
    ParseSplit(items, s, k, before, g, after);
    var h := GapRewritten(s, k, before, g, after, endian, start, end, order);
    ParseSplit(items, s, k, before, h, after);
  }

  lemma SettingOrdered(text: string, endian: nat)
    requires SettingAt(text, endian).Some?
    ensures SettingAt(text, endian).value.0 <= SettingAt(text, endian).value.1
  {
  }

  // ---------- A comment may reach an entry ----------

  /** "//endian" and a constant on the next line, then `k`. */
  function ConstLine(name: string, k: Stream): (r: Stream)
    ensures Length(r) == Length(k) + 4
  {
    assert Length(W(name, S(Assign, k))) == Length(k) + 2;
    Keyword("const", S(LBrace, W(name, S(Assign, k))))
  }

  const ENDIAN_COMMENT: Gap := [Comment("endian")]

  function ConstGaps(gaps: seq<Gap>): (r: seq<Gap>)
    ensures |r| == |gaps| + 4
  {
    [ENDIAN_COMMENT] + ([[]] + ([[]] + ([[]] + gaps)))
  }

  function ConstText(name: string): string { "//endian\n@const{" + name + "=" }

  lemma ConstLineIs(name: string, k: Stream, gaps: seq<Gap>)
    requires |gaps| == Length(k) + 1
    ensures Text(ConstLine(name, k), ConstGaps(gaps)) == ConstText(name) + Text(k, gaps)
  {
    hide Text, GapText, WordKind, ConstText;
    var rest := Text(k, gaps);
    NameSpelled(name);
    TightText(Token(Assign, "=", 0), k, gaps);
    TightText(Token(WordKind(name), name, 0), S(Assign, k), [[]] + gaps);
    TightText(Token(LBrace, "{", 0), W(name, S(Assign, k)), [[]] + ([[]] + gaps));
    TextUnfolds(Token(ConstWord, "const", 0), S(LBrace, W(name, S(Assign, k))), ENDIAN_COMMENT, [[]] + ([[]] + ([[]] + gaps)));
    assert GapText(ENDIAN_COMMENT) == "//endian\n" by { SingleGap(Comment("endian")); }
    ConstJoins(name, rest);
  }

  lemma SingleGap(b: Blank)
    ensures GapText([b]) == BlankText(b)
  {
    assert [b][1..] == [];
    assert BlankText(b) + "" == BlankText(b);
  }

  lemma ConstJoins(name: string, rest: string)
    ensures "//endian\n" + ("@const" + ("{" + (name + ("=" + rest)))) == ConstText(name) + rest
  {
    Associates("//endian\n@const{" + name, "=", rest);
    Associates("//endian\n@const{", name, "=" + rest);
    Associates("//endian\n@const", "{", name + ("=" + rest));
    Associates("//endian\n", "@const", "{" + (name + ("=" + rest)));
  }

  lemma ConstLineSpaced(name: string, k: Stream, gaps: seq<Gap>)
    requires |gaps| == Length(k) + 1 && Name(name) && Spaced(k, gaps) && Head(Text(k, gaps)) != '='
    ensures Spaced(ConstLine(name, k), ConstGaps(gaps))
  {
    hide Text, GapText, Spaced, Word;
    assert GapText([]) == "" by { BlankTexts(); }
    assert GapOk(ENDIAN_COMMENT) by { CommentOk(); }
    SpacedUnfolds(Token(Assign, "=", 0), k, [], gaps);
    TextUnfolds(Token(Assign, "=", 0), k, [], gaps);
    SpacedUnfolds(Token(WordKind(name), name, 0), S(Assign, k), [], [[]] + gaps);
    SpacedUnfolds(Token(LBrace, "{", 0), W(name, S(Assign, k)), [], [[]] + ([[]] + gaps));
    TextUnfolds(Token(LBrace, "{", 0), W(name, S(Assign, k)), [], [[]] + ([[]] + gaps));
    SpacedUnfolds(Token(ConstWord, "const", 0), S(LBrace, W(name, S(Assign, k))), ENDIAN_COMMENT, [[]] + ([[]] + ([[]] + gaps)));
  }

  lemma CommentOk()
    ensures GapOk(ENDIAN_COMMENT)
  {
  }

  lemma ConstChars(name: string)
    requires Name(name)
    ensures var line := ConstText(name);
      |line| == 17 + |name| && line[|line| - 1] == '=' && line[..2] == "//" && line[2..8] == "endian" &&
      forall i :: 2 <= i < |line| - 1 ==> line[i] != '='
  {
    var line := ConstText(name);
    var start := "//endian\n@const{";
    assert forall i :: 0 <= i < 16 ==> line[i] == start[i];
    assert forall i :: 16 <= i < 16 + |name| ==> line[i] == name[i - 16] && name[i - 16] in name;
  }

  lemma EndianAtTwo(text: string)
    requires |text| >= 8 && text[..2] == "//" && text[2..8] == "endian"
    ensures Find(text, "endian", 0) == Some(2)
  {
    hide Find;
    forall i: nat | i < 2
      ensures !OccursAt(text, "endian", i)
    {
      assert text[i] == text[..2][i] == '/';
      if i + 6 <= |text| {
        assert text[i..i + 6][0] == '/';
      }
    }
    FindIs(text, "endian", 0, 2);
  }

  /** The constant's '=' and ';' are the ones that are found. */
  lemma ConstIsFound(name: string, digits: string, rest: string)
    requires Name(name) && |name| <= 6 && |digits| <= 20 && ';' !in digits
    ensures var text := ConstText(name) + (digits + (";" + rest));
      var start := |ConstText(name)|;
      Find(text, "endian", 0) == Some(2) && SettingAt(text, 2) == Some((start, start + |digits|))
  {
    hide ConstText, Find, SettingAt, Name;
    var line := ConstText(name);
    var text := line + (digits + (";" + rest));
    ConstChars(name);
    assert text[..2] == line[..2] && text[2..8] == line[2..8];
    EndianAtTwo(text);
    assert forall i :: 0 <= i < |line| ==> text[i] == line[i];
    assert forall i :: |line| <= i < |line| + |digits| ==> text[i] == digits[i - |line|] && digits[i - |line|] in digits;
    SettingIs(text, 2, |line|, |line| + |digits|);
  }

  lemma WordForConstantFails(p: Cursor, d: Draft, name: string, word: string, k: Stream)
    requires Name(name) && WordKind(word) == Identifier && At(p, ConstLine(name, W(word, k)))
    ensures ParseItem(p, d) == Err(ExpectedConstantValue)
  {
    hide At, NextOk, Step, Expect, Word;
    var line := W(name, S(Assign, W(word, k)));
    Advance(p, Keyword("const", S(LBrace, line)));
    Expected(p, Keyword("const", S(LBrace, line)), ConstWord);
    Expected(Step(p), S(LBrace, line), LBrace);
    var p1 := Step(Step(p));
    Advance(p1, line);
    Expected(Step(p1), S(Assign, W(word, k)), Assign);
    Advance(Step(Step(p1)), W(word, k));
    assert ParseConstant(p1, d) == Err(ExpectedConstantValue);
    assert ParseConstants(p1, d) == Err(ExpectedConstantValue);
  }

  /** A comment that says "endian" without a setting of its own: the '=' and the ';' that are found are those of
      the next entry.  Here a constant gets a word for its value, and the new text cannot be parsed. */
  lemma CommentReachesConstant(name: string, value: U64, cs: seq<(string, U64)>, rest: seq<Item>, after: seq<Gap>, order: Endian)
    requires ItemsOk(EMPTY_DRAFT, [ConstItem([(name, value)] + cs)] + rest) && |name| <= 6
    requires |after| == Length(ConstantsTokens(cs, S(RBrace, ItemsTokens(rest)))) + 1
    requires Spaced(ConstantsTokens(cs, S(RBrace, ItemsTokens(rest))), after)
    ensures var text := ConstText(name) + (Flatten.Decimal(value) + (";" + Text(ConstantsTokens(cs, S(RBrace, ItemsTokens(rest))), after)));
      ParseSource(text) == Ok(WithItems(EMPTY_DRAFT, [ConstItem([(name, value)] + cs)] + rest)) &&
      Rewrite(text, order).Some? && ParseSource(Rewrite(text, order).value) == Err(ExpectedConstantValue)
  {
    hide Text, Spaced, Find, WithItems, ParseSource, ConstantsTokens, ConstLine, ConstGaps, ConstText, OrderName, Flatten.Decimal, AllSpellable;
    var items := [ConstItem([(name, value)] + cs)] + rest;
    var k := ConstantsTokens(cs, S(RBrace, ItemsTokens(rest)));
    var digits := Flatten.Decimal(value);
    ConstTokens(name, value, cs, rest);
    ConstValueText(value, k, after);
    ConstLineIs(name, N(value, S(Semicolon, k)), [[]] + ([[]] + after));
    ConstLineSpaced(name, N(value, S(Semicolon, k)), [[]] + ([[]] + after));
    ParseWritten(items, ConstGaps([[]] + ([[]] + after)));
    ConstIsFound(name, digits, Text(k, after));
    var text := ConstText(name) + (digits + (";" + Text(k, after)));
    var start := |ConstText(name)|;
    assert text[..start] == ConstText(name) && text[start + |digits|..] == ";" + Text(k, after);
    BrokenConstant(name, order, k, after);
    Associates(ConstText(name), " ", OrderName(order));
    Associates(ConstText(name), " " + OrderName(order), ";" + Text(k, after));
  }

  lemma ConstTokens(name: string, value: U64, cs: seq<(string, U64)>, rest: seq<Item>)
    requires ItemsOk(EMPTY_DRAFT, [ConstItem([(name, value)] + cs)] + rest)
    ensures var k := ConstantsTokens(cs, S(RBrace, ItemsTokens(rest)));
      ItemsTokens([ConstItem([(name, value)] + cs)] + rest) == ConstLine(name, N(value, S(Semicolon, k))) &&
      Name(name) && AllSpellable(k)
  {
    hide Word, AllSpellable, AllWritable, Leads, Flatten.Decimal;
    var all := [(name, value)] + cs;
    var items := [ConstItem(all)] + rest;
    assert items[1..] == rest && items[0] == ConstItem(all) && all[0] == (name, value) && all[1..] == cs;
    assert all[0] in all;
    forall c | c in cs
      ensures Name(c.0)
    {
      assert c in all;
    }
    ItemsWritable(WithItem(EMPTY_DRAFT, items[0]), rest);
    var end := S(RBrace, ItemsTokens(rest));
    LeadsItself(end);
    ConstantsLead(cs, end, end);
    BlockWritable(ConstantsTokens(cs, end), ItemsTokens(rest));
    WritableSpellable(ConstantsTokens(cs, end));
  }

  lemma DigitsOnly(value: U64)
    ensures var digits := Flatten.Decimal(value);
      0 < |digits| <= 20 && ';' !in digits && digits[0] != '='
  {
    hide Flatten.Decimal, Numeral;
    DecimalReads(value);
    ShortDecimal(value);
    assert Flatten.Decimal(value)[0] in Flatten.Decimal(value);
  }

  lemma ConstValueText(value: U64, k: Stream, after: seq<Gap>)
    requires |after| == Length(k) + 1 && Spaced(k, after)
    ensures var gaps := [[]] + ([[]] + after);
      Text(N(value, S(Semicolon, k)), gaps) == Flatten.Decimal(value) + (";" + Text(k, after)) &&
      Spaced(N(value, S(Semicolon, k)), gaps) && Head(Text(N(value, S(Semicolon, k)), gaps)) != '='
    ensures |Flatten.Decimal(value)| <= 20 && ';' !in Flatten.Decimal(value)
  {
    hide Text, Spaced, GapText, Flatten.Decimal;
    DigitsOnly(value);
    SemicolonTight(k, after);
    var number := Token(Number, Flatten.Decimal(value), value);
    TightText(number, S(Semicolon, k), [[]] + after);
    SpacedUnfolds(number, S(Semicolon, k), [], [[]] + after);
    assert GapOk([]) by { BlanksOk(); }
  }

  lemma SemicolonTight(k: Stream, after: seq<Gap>)
    requires |after| == Length(k) + 1 && Spaced(k, after)
    ensures Text(S(Semicolon, k), [[]] + after) == ";" + Text(k, after) && Spaced(S(Semicolon, k), [[]] + after)
  {
    hide Text, Spaced, GapText;
    TightText(Token(Semicolon, ";", 0), k, after);
    SpacedUnfolds(Token(Semicolon, ";", 0), k, [], after);
  }

  lemma BrokenConstant(name: string, order: Endian, k: Stream, after: seq<Gap>)
    requires Name(name) && AllSpellable(k) && |after| == Length(k) + 1 && Spaced(k, after)
    ensures ParseSource(ConstText(name) + ((" " + OrderName(order)) + (";" + Text(k, after)))) == Err(ExpectedConstantValue)
  {
    hide Text, Spaced, AllSpellable, At, NextOk, Start, Step, ParseItem, ConstText, ConstGaps, ConstLine, GapText, Word, Yields;
    var word := OrderName(order);
    PlainWords();
    SettingsSpellable();
    PiecesSpellable();
    var value := W(word, S(Semicolon, k));
    var gaps := [ONE_BLANK] + ([[]] + after);
    BlankTexts();
    BlanksOk();
    TextUnfolds(Token(WordKind(word), word, 0), S(Semicolon, k), ONE_BLANK, [[]] + after);
    TightText(Token(Semicolon, ";", 0), k, after);
    Associates(" ", word, ";" + Text(k, after));
    SpacedUnfolds(Token(Semicolon, ";", 0), k, [], after);
    SpacedUnfolds(Token(WordKind(word), word, 0), S(Semicolon, k), ONE_BLANK, [[]] + after);
    ConstLineIs(name, value, gaps);
    ConstLineSpaced(name, value, gaps);
    ConstLineSpellable(name, value);
    var source := Text(ConstLine(name, value), ConstGaps(gaps));
    LexText(ConstLine(name, value), ConstGaps(gaps));
    AtStart(source, ConstLine(name, value));
    var p := Start(source);
    WordForConstantFails(p, EMPTY_DRAFT, name, word, S(Semicolon, k));
    ConstFirst(p, name, value);
  }

  lemma ConstFirst(p: Cursor, name: string, value: Stream)
    requires At(p, ConstLine(name, value))
    ensures p.current.kind.ConstWord?
  {
  }

  lemma ConstLineSpellable(name: string, value: Stream)
    requires Name(name) && AllSpellable(value)
    ensures AllSpellable(ConstLine(name, value))
  {
    hide AllSpellable, Word;
    PiecesSpellable();
    KeywordSpellable("const", S(LBrace, W(name, S(Assign, value))));
  }

  // ---------- The first line end may be inside a struct ----------

  /** "@protocol{}" and the opening of a struct on one line, then `k`. */
  function OneLine(name: string, k: Stream): (r: Stream)
    ensures Length(r) == Length(k) + 5
  {
    assert Length(W(name, S(LBrace, k))) == Length(k) + 2;
    assert Length(S(LBrace, S(RBrace, W(name, S(LBrace, k))))) == Length(k) + 4;
    Keyword("protocol", S(LBrace, S(RBrace, W(name, S(LBrace, k)))))
  }

  function OneLineGaps(next: Gap, others: seq<Gap>): (r: seq<Gap>)
    ensures |r| == |others| + 6
  {
    [[]] + ([[]] + ([[]] + ([[]] + ([[]] + ([LINE_END + next] + others)))))
  }

  function OneLineText(name: string): string { "@protocol{}" + name + "{\n" }

  lemma TightText(t: Token, tail: Stream, gaps: seq<Gap>)
    requires |gaps| == Length(tail) + 1
    ensures Text(More(t, tail), [[]] + gaps) == Spell(t) + Text(tail, gaps)
  {
    hide Spell;
    TextUnfolds(t, tail, [], gaps);
    assert "" + (Spell(t) + Text(tail, gaps)) == Spell(t) + Text(tail, gaps);
  }

  lemma OneLineIs(name: string, next: Gap, others: seq<Gap>, k: Stream)
    requires |others| == Length(k)
    ensures Text(OneLine(name, k), OneLineGaps(next, others)) == OneLineText(name) + Text(k, [next] + others)
  {
    hide Text, GapText, WordKind;
    BlankTexts();
    var after := Text(k, [next] + others);
    var gaps5 := [LINE_END + next] + others;
    FirstGap(k, LINE_END, next, others);
    var k4 := S(LBrace, k);
    TightText(k4.head, k, gaps5);
    var gaps4 := [[]] + gaps5;
    NameSpelled(name);
    var k3 := W(name, k4);
    TightText(k3.head, k4, gaps4);
    var gaps3 := [[]] + gaps4;
    var k2 := S(RBrace, k3);
    TightText(k2.head, k3, gaps3);
    var gaps2 := [[]] + gaps3;
    var k1 := S(LBrace, k2);
    TightText(k1.head, k2, gaps2);
    TightText(OneLine(name, k).head, k1, [[]] + gaps2);
    OneLineJoins(name, after);
  }

  lemma OneLineJoins(name: string, after: string)
    ensures "@protocol" + ("{" + ("}" + (name + ("{" + ("\n" + after))))) == OneLineText(name) + after
  {
    Associates("{", "\n", after);
    Associates("{", "}", name + ("{\n" + after));
    Associates("@protocol", "{}", name + ("{\n" + after));
    Associates("@protocol{}", name, "{\n" + after);
    Associates("@protocol{}" + name, "{\n", after);
  }

  lemma NameSpelled(name: string)
    ensures Spell(Token(WordKind(name), name, 0)) == name
  {
  }

  lemma OneLineSpaced(name: string, next: Gap, others: seq<Gap>, k: Stream)
    requires |others| == Length(k) && Name(name) && GapOk(next) && Spaced(k, [next] + others)
    ensures Spaced(OneLine(name, k), OneLineGaps(next, others))
  {
    hide Text, GapText, Spaced, Word;
    BlankTexts();
    var gaps5 := [LINE_END + next] + others;
    SpacedFirst(k, LINE_END, next, others);
    var k4 := S(LBrace, k);
    SpacedUnfolds(k4.head, k, [], gaps5);
    var gaps4 := [[]] + gaps5;
    TextUnfolds(k4.head, k, [], gaps5);
    var k3 := W(name, k4);
    SpacedUnfolds(k3.head, k4, [], gaps4);
    var gaps3 := [[]] + gaps4;
    var k2 := S(RBrace, k3);
    SpacedUnfolds(k2.head, k3, [], gaps3);
    var gaps2 := [[]] + gaps3;
    var k1 := S(LBrace, k2);
    SpacedUnfolds(k1.head, k2, [], gaps2);
    TextUnfolds(k1.head, k2, [], gaps2);
    SpacedUnfolds(OneLine(name, k).head, k1, [], [[]] + gaps2);
  }

  lemma InsertsInStruct(name: string, after: string)
    requires Name(name) && Find(OneLineText(name) + after, "endian", 0).None?
    ensures InsertAt(OneLineText(name) + after) == Some(|OneLineText(name)|)
  {
    hide Find;
    var line := OneLineText(name);
    var text := line + after;
    assert forall i :: 0 <= i < |line| ==> text[i] == line[i];
    assert line[..9] == "@protocol" && text[..9] == line[..9];
    assert text[0..9] == "@protocol";
    assert OccursAt(text, "@protocol", 0);
    FindIs(text, "@protocol", 0, 0);
    FindCharIs(text, '{', 0, 9);
    assert forall i :: 0 <= i < |name| ==> line[11 + i] == name[i] && name[i] in name;
    assert forall i :: 11 <= i < 11 + |name| ==> line[i] == name[i - 11] && name[i - 11] in name;
    FindCharIs(text, '\n', 9, |line| - 1);
  }

  lemma SettingInStructFails(p: Cursor, d: Draft, name: string, order: Endian, k: Stream)
    requires Name(name) && At(p, W(name, S(LBrace, Setting(order, k))))
    ensures ParseItem(p, d) == Err(ExpectedFieldName)
  {
    hide At, NextOk, Step, Expect, Word;
    PlainWords();
    var setting := Setting(order, k);
    Advance(p, W(name, S(LBrace, setting)));
    Expected(Step(p), S(LBrace, setting), LBrace);
    var p1 := Step(Step(p));
    Advance(p1, setting);
    Advance(Step(p1), Tail(setting));
    var s := StructDef(name, [], 0, false);
    assert ParseField(p1, s, d.defaultEndian) == Err(ExpectedFieldName);
    assert ParseFields(p1, s, d.defaultEndian) == Err(ExpectedFieldName);
  }

  lemma EmptyProtocolRead(p: Cursor, d: Draft, k: Stream)
    requires At(p, Keyword("protocol", S(LBrace, S(RBrace, k))))
    ensures Got(ParseItem(p, d), d, k) && !p.current.kind.EndOfFile?
  {
    assert AllMetadataTokens([], S(RBrace, k)) == S(RBrace, k);
    ItemRead(p, d, ProtocolItem([]), k);
  }

  /** When the line of "@protocol {}" goes on to open a struct, the setting is inserted into the struct: a text
      that could be parsed is rewritten to one that cannot. */
  lemma WritebackCanBreak(name: string, fs: seq<FieldSyntax>, rest: seq<Item>, next: Gap, others: seq<Gap>, order: Endian)
    requires ItemsOk(EMPTY_DRAFT, [ProtocolItem([]), StructItem(name, fs)] + rest)
    requires |others| == Length(FieldsTokens(fs, S(RBrace, ItemsTokens(rest))))
    requires GapOk(next) && Spaced(FieldsTokens(fs, S(RBrace, ItemsTokens(rest))), [next] + others)
    requires Find(OneLineText(name) + Text(FieldsTokens(fs, S(RBrace, ItemsTokens(rest))), [next] + others), "endian", 0).None?
    ensures var text := OneLineText(name) + Text(FieldsTokens(fs, S(RBrace, ItemsTokens(rest))), [next] + others);
      ParseSource(text) == Ok(WithItems(EMPTY_DRAFT, [ProtocolItem([]), StructItem(name, fs)] + rest)) &&
      Rewrite(text, order).Some? &&
      ParseSource(Rewrite(text, order).value) == Err(ExpectedFieldName)
  {
    hide Text, Spaced, InsertAt, Find, WithItems, ParseSource, AllSpellable, FieldsTokens, OneLineText, OneLineGaps;
    var items := [ProtocolItem([]), StructItem(name, fs)] + rest;
    var k := FieldsTokens(fs, S(RBrace, ItemsTokens(rest)));
    var after := Text(k, [next] + others);
    var text := OneLineText(name) + after;
    OneLineTokens(name, fs, rest);
    OneLineIs(name, next, others, k);
    OneLineSpaced(name, next, others, k);
    ParseWritten(items, OneLineGaps(next, others));
    InsertsInStruct(name, after);
    assert text[..|OneLineText(name)|] == OneLineText(name) && text[|OneLineText(name)|..] == after;
    InsertedJoins(OneLineText(name), after, order);
    SettingText(order, next, others, k);
    SettingSpaced(order, next, others, k);
    BrokenRead(name, order, next, others, k);
  }

  lemma OneLineTokens(name: string, fs: seq<FieldSyntax>, rest: seq<Item>)
    requires ItemsOk(EMPTY_DRAFT, [ProtocolItem([]), StructItem(name, fs)] + rest)
    ensures ItemsTokens([ProtocolItem([]), StructItem(name, fs)] + rest) ==
            OneLine(name, FieldsTokens(fs, S(RBrace, ItemsTokens(rest))))
    ensures Name(name) && AllSpellable(FieldsTokens(fs, S(RBrace, ItemsTokens(rest))))
  {
    hide Word, FieldsTokens, AllSpellable, AllWritable, Leads, IsVarbytes, Syntax.FieldOk, WithFields;
    var items := [ProtocolItem([]), StructItem(name, fs)] + rest;
    var later := [StructItem(name, fs)] + rest;
    assert items[0] == ProtocolItem([]) && items[1..] == later && later[1..] == rest;
    assert AllMetadataTokens([], S(RBrace, ItemsTokens(later))) == S(RBrace, ItemsTokens(later));
    var d := WithItem(WithItem(EMPTY_DRAFT, items[0]), later[0]);
    assert ItemOk(WithItem(EMPTY_DRAFT, items[0]), later[0]) && ItemsOk(d, rest);
    ItemsWritable(d, rest);
    var end := S(RBrace, ItemsTokens(rest));
    LeadsItself(end);
    FieldsLead(fs, end, end);
    BlockWritable(FieldsTokens(fs, end), ItemsTokens(rest));
    WritableSpellable(FieldsTokens(fs, end));
  }

  lemma BrokenRead(name: string, order: Endian, next: Gap, others: seq<Gap>, k: Stream)
    requires Name(name) && |others| == Length(k) && AllSpellable(k) && Spaced(Setting(order, k), [FOUR_BLANKS] + SettingGaps(next, others))
    ensures ParseSource(OneLineText(name) + Text(Setting(order, k), [FOUR_BLANKS] + SettingGaps(next, others))) == Err(ExpectedFieldName)
  {
    hide Text, Spaced, AllSpellable, At, NextOk, Start, Step, ParseItems, OneLineText, OneLineGaps, OneLine, Setting, Name, Yields;
    var setting := Setting(order, k);
    var ts := OneLine(name, setting);
    OneLineIs(name, FOUR_BLANKS, SettingGaps(next, others), setting);
    assert GapOk(FOUR_BLANKS) by { FourBlanksOk(); }
    OneLineSpaced(name, FOUR_BLANKS, SettingGaps(next, others), setting);
    var source := Text(ts, OneLineGaps(FOUR_BLANKS, SettingGaps(next, others)));
    OneLineSpellable(name, order, k);
    LexText(ts, OneLineGaps(FOUR_BLANKS, SettingGaps(next, others)));
    AtStart(source, ts);
    OneLineFails(Start(source), name, order, k);
  }

  lemma OneLineSpellable(name: string, order: Endian, k: Stream)
    requires Name(name) && AllSpellable(k)
    ensures AllSpellable(OneLine(name, Setting(order, k)))
  {
    hide AllSpellable, Word;
    SettingsSpellable();
    PiecesSpellable();
    KeywordSpellable("protocol", S(LBrace, S(RBrace, W(name, S(LBrace, Setting(order, k))))));
  }

  lemma OneLineFails(p: Cursor, name: string, order: Endian, k: Stream)
    requires Name(name) && At(p, OneLine(name, Setting(order, k)))
    ensures ParseItems(p, EMPTY_DRAFT) == Err(ExpectedFieldName)
  {
    hide At, NextOk, Step, ParseItem, Word, Setting;
    var line := W(name, S(LBrace, Setting(order, k)));
    EmptyProtocolRead(p, EMPTY_DRAFT, line);
    var p1 := ParseItem(p, EMPTY_DRAFT).value.0;
    SettingInStructFails(p1, EMPTY_DRAFT, name, order, k);
    Advance(p1, line);
    assert ParseItems(p1, EMPTY_DRAFT) == Err(ExpectedFieldName);
  }

  lemma FourBlanksOk()
    ensures GapOk(FOUR_BLANKS)
  {
  }
}
