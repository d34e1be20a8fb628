/** Reading the text of a definition again after a byte order was written into it. */
module Reload {
  import opened Pdef
  import opened Tokens
  import opened Spelling
  import opened TextSearch
  import opened Writeback
  import opened Grammar
  import opened Syntax
  import opened Splice
  import opened Places
  import opened RoundTrip
  import opened Source

  // ---------- The inserted setting ----------

  const ONE_BLANK: Gap := [Space(' ')]
  const FOUR_BLANKS: Gap := [Space(' '), Space(' '), Space(' '), Space(' ')]
  const LINE_END: Gap := [Space('\n')]

  /** The entry that is written back. */
  function Setting(order: Endian, body: Stream): (r: Stream)
    ensures Length(r) == Length(body) + 4
  {
    assert Length(W(ModeText(ModeOf(order)), S(Semicolon, body))) == Length(body) + 2;
    MetadataTokens(EndianIs(ModeOf(order)), body)
  }

  /** The gaps in and after the setting, but the first. */
  function SettingGaps(next: Gap, others: seq<Gap>): (r: seq<Gap>)
    ensures |r| == |others| + 4
  {
    [ONE_BLANK] + ([ONE_BLANK] + ([[]] + ([LINE_END + next] + others)))
  }

  lemma BlankTexts()
    ensures GapText(ONE_BLANK) == " " && GapText(FOUR_BLANKS) == "    " && GapText(LINE_END) == "\n" && GapText([]) == ""
  {
    assert ONE_BLANK[1..] == [];
    assert LINE_END[1..] == [];
    assert FOUR_BLANKS[1..] == [Space(' '), Space(' '), Space(' ')];
    assert [Space(' '), Space(' '), Space(' ')][1..] == [Space(' '), Space(' ')];
    assert [Space(' '), Space(' ')][1..] == [Space(' ')];
  }

  /** The setting and what follows it, as text. */
  lemma SettingText(order: Endian, next: Gap, others: seq<Gap>, body: Stream)
    requires |others| == Length(body)
    ensures Text(Setting(order, body), [FOUR_BLANKS] + SettingGaps(next, others)) ==
            "    endian = " + OrderName(order) + ";\n" + Text(body, [next] + others)
  {
    hide Text, GapText;
    var after := Text(body, [next] + others);
    var word := ModeText(ModeOf(order));
    BlankTexts();
    PlainWords();
    FirstGap(body, LINE_END, next, others);
    var gaps4 := [LINE_END + next] + others;
    TextUnfolds(Token(Semicolon, ";", 0), body, [], gaps4);
    var gaps3 := [[]] + gaps4;
    TextUnfolds(Token(WordKind(word), word, 0), S(Semicolon, body), ONE_BLANK, gaps3);
    var gaps2 := [ONE_BLANK] + gaps3;
    TextUnfolds(Token(Assign, "=", 0), W(word, S(Semicolon, body)), ONE_BLANK, gaps2);
    TextUnfolds(Token(WordKind("endian"), "endian", 0), S(Assign, W(word, S(Semicolon, body))), FOUR_BLANKS, [ONE_BLANK] + gaps2);
    assert word == OrderName(order);
    assert Text(Setting(order, body), [FOUR_BLANKS] + SettingGaps(next, others)) ==
           "    " + ("endian" + (" " + ("=" + (" " + (word + ("" + (";" + ("\n" + after))))))));
    SettingJoins(word, after);
  }

  lemma SettingJoins(word: string, after: string)
    ensures "    " + ("endian" + (" " + ("=" + (" " + (word + ("" + (";" + ("\n" + after)))))))) ==
            "    endian = " + word + ";\n" + after
  {
    Associates(";", "\n", after);
    Associates(word, ";\n", after);
    Associates(" ", word, ";\n" + after);
    Associates("    endian = " + word, ";\n", after);
    Associates("    endian = ", word, ";\n" + after);
    assert "" + (";" + ("\n" + after)) == ";\n" + after;
    Prefix(word + (";\n" + after));
  }

  lemma Prefix(s: string)
    ensures "    " + ("endian" + (" " + ("=" + (" " + s)))) == "    endian = " + s
  {
    Associates("=", " ", s);
    Associates(" ", "= ", s);
    Associates("endian", " = ", s);
    Associates("    ", "endian = ", s);
  }

  lemma SettingSpaced(order: Endian, next: Gap, others: seq<Gap>, body: Stream)
    requires |others| == Length(body) && Spaced(body, [next] + others)
    ensures Spaced(Setting(order, body), [FOUR_BLANKS] + SettingGaps(next, others))
  {
    hide Text, GapText, Spaced;
    var word := ModeText(ModeOf(order));
    BlankTexts();
    PlainWords();
    SpacedFirst(body, LINE_END, next, others);
    var gaps4 := [LINE_END + next] + others;
    SpacedUnfolds(Token(Semicolon, ";", 0), body, [], gaps4);
    TextUnfolds(Token(Semicolon, ";", 0), body, [], gaps4);
    var gaps3 := [[]] + gaps4;
    var end := S(Semicolon, body);
    SpacedUnfolds(Token(WordKind(word), word, 0), end, ONE_BLANK, gaps3);
    TextUnfolds(Token(WordKind(word), word, 0), end, ONE_BLANK, gaps3);
    var gaps2 := [ONE_BLANK] + gaps3;
    SpacedUnfolds(Token(Assign, "=", 0), W(word, end), ONE_BLANK, gaps2);
    TextUnfolds(Token(Assign, "=", 0), W(word, end), ONE_BLANK, gaps2);
    SpacedUnfolds(Token(WordKind("endian"), "endian", 0), S(Assign, W(word, end)), FOUR_BLANKS, [ONE_BLANK] + gaps2);
  }

  // ---------- Inserting ----------

  /** The gaps around a place: before each token of the opening, at the place, and after each token of the rest. */
  datatype Spacing = Spacing(before: seq<Gap>, here: Gap, after: seq<Gap>)

  ghost predicate Fits(sp: Spacing, a: Around) {
    |sp.before| == Length(Opening(a)) && |sp.after| == Length(Closing(a)) &&
    Spaced(Join(Opening(a), Closing(a)), sp.before + ([sp.here] + sp.after))
  }

  ghost function TextOf(a: Around, sp: Spacing): string
    requires Fits(sp, a)
  {
    Text(Join(Opening(a), Closing(a)), sp.before + ([sp.here] + sp.after))
  }

  /** The text has no setting, and the place of insertion is in the gap at this place. */
  ghost predicate InsertsHere(a: Around, sp: Spacing)
    requires Fits(sp, a)
  {
    var start := |PreText(Opening(a), sp.before)|;
    Find(TextOf(a, sp), "endian", 0).None? && InsertAt(TextOf(a, sp)).Some? &&
    start <= InsertAt(TextOf(a, sp)).value <= start + |GapText(sp.here)|
  }

  /** A brace in a gap is followed by a line end. */
  lemma LineAfterBrace(pre: string, g: Gap, rest: string, at: nat)
    requires GapOk(g) && |pre| < at <= |pre| + |GapText(g)|
    ensures var text := pre + (GapText(g) + rest);
      text[at - 1] == GapText(g)[at - 1 - |pre|] && (text[at - 1] == '{' ==> '\n' in text[at..])
  {
    hide GapText;
    var text := pre + (GapText(g) + rest);
    if text[at - 1] == '{' {
      var m := BraceInGap(g, at - 1 - |pre|);
      assert text[at..][|pre| + m - at] == text[|pre| + m] == GapText(g)[m];
    }
  }

  /** The place of insertion splits the gap it is in. */
  lemma SplitHere(pre: string, g: Gap, rest: string, at: nat) returns (h1: Gap, h2: Gap)
    requires GapOk(g) && InsertAt(pre + (GapText(g) + rest)) == Some(at) && |pre| <= at <= |pre| + |GapText(g)|
    ensures g == h1 + h2 && |pre| + |GapText(h1)| == at
  {
    hide InsertAt, GapText;
    if at == |pre| {
      h1, h2 := [], g;
      assert GapText(h1) == "" by { BlankTexts(); }
    } else {
      LineAfterBrace(pre, g, rest, at);
      h1, h2 := SplitGap(g, at - |pre|);
    }
  }

  /** The gaps of the text with the setting behind h1. */
  function Widened(before: seq<Gap>, h1: Gap, h2: Gap, after: seq<Gap>): seq<Gap> {
    before + ([h1 + FOUR_BLANKS] + SettingGaps(h2, after))
  }

  lemma InsertedSpaced(s: Stream, k: Stream, before: seq<Gap>, h1: Gap, h2: Gap, after: seq<Gap>, order: Endian)
    requires |before| == Length(s) && |after| == Length(k) && Spaced(Join(s, k), before + ([h1 + h2] + after))
    ensures Spaced(Join(s, Setting(order, k)), Widened(before, h1, h2, after))
  {
    hide Text, Spaced, GapOk, FOUR_BLANKS;
    SpacedJoins(s, k, before, [h1 + h2] + after);
    SpacedFirst(k, h1, h2, after);
    SettingSpaced(order, h2, after, k);
    SpacedFirst(Setting(order, k), h1, FOUR_BLANKS, SettingGaps(h2, after));
    assert |FOUR_BLANKS| == 4 by { FourBlanks(); }
    SpacedAround(s, k, before, h1 + h2, after, Setting(order, k), h1 + FOUR_BLANKS, SettingGaps(h2, after));
  }

  lemma FourBlanks()
    ensures |FOUR_BLANKS| == 4
  {
  }

  lemma TextInserted(s: Stream, k: Stream, before: seq<Gap>, h1: Gap, h2: Gap, after: seq<Gap>, order: Endian)
    requires |before| == Length(s) && |after| == Length(k)
    ensures var text, at := Text(Join(s, k), before + ([h1 + h2] + after)), |PreText(s, before)| + |GapText(h1)|;
      at <= |text| && Inserted(text, at, order) == Text(Join(s, Setting(order, k)), Widened(before, h1, h2, after))
  {
    hide Text, FOUR_BLANKS, GapText, PreText, OrderName, Inserted, SettingGaps, Join, Setting;
    var pre := PreText(s, before);
    var end := Text(k, [h2] + after);
    TextJoins(s, k, before, [h1 + h2] + after);
    FirstGap(k, h1, h2, after);
    Associates(pre, GapText(h1), end);
    InsertedBetween(pre + GapText(h1), end, order);
    SettingText(order, h2, after, k);
    TextJoins(s, Setting(order, k), before, [h1 + FOUR_BLANKS] + SettingGaps(h2, after));
    FirstGap(Setting(order, k), h1, FOUR_BLANKS, SettingGaps(h2, after));
    Associates(pre, GapText(h1), Text(Setting(order, k), [FOUR_BLANKS] + SettingGaps(h2, after)));
  }

  /** What writing the order into the text makes of it is read as these items. */
  ghost predicate RewrittenTo(text: string, order: Endian, items: seq<Item>) {
    Rewrite(text, order).Some? && ParseSource(Rewrite(text, order).value) == Ok(WithItems(EMPTY_DRAFT, items))
  }

  /** Where the place of insertion is in a gap of a @protocol block between two entries, before the first or behind
      the last, the rewritten text is read as the definition with the setting at that place. */
  lemma InsertedIsRead(a: Around, sp: Spacing, order: Endian)
    requires ItemsOk(EMPTY_DRAFT, With(a, [])) && Fits(sp, a) && InsertsHere(a, sp)
    ensures ParseSource(TextOf(a, sp)) == Ok(WithItems(EMPTY_DRAFT, With(a, [])))
    ensures RewrittenTo(TextOf(a, sp), order, With(a, [EndianIs(ModeOf(order))]))
  {
    hide Text, Spaced, Opening, Closing, InsertAt, Find, WithItems, ItemsOk, ItemsTokens, ParseSource, GapText, PreText, With, Join;
    var (s, k) := (Opening(a), Closing(a));
    var text := TextOf(a, sp);
    PlaceSplits(a, []);
    NoEntries(a);
    ParseWritten(With(a, []), sp.before + ([sp.here] + sp.after));
    TextAround(s, k, sp.before, sp.here, sp.after);
    SpacedJoins(s, k, sp.before, [sp.here] + sp.after);
    FirstGapOk(k, sp.here, sp.after);
    var h1, h2 := SplitHere(PreText(s, sp.before), sp.here, Text(k, [[]] + sp.after), InsertAt(text).value);
    TextInserted(s, k, sp.before, h1, h2, sp.after, order);
    InsertedSpaced(s, k, sp.before, h1, h2, sp.after, order);
    assert MetadataOk(EndianIs(ModeOf(order))) by { SettingOk(ModeOf(order)); }
    WithEntryOk(a, [], EndianIs(ModeOf(order)));
    PlaceSplits(a, [EndianIs(ModeOf(order))]);
    OneEntry(EndianIs(ModeOf(order)), k);
    ParseWritten(With(a, [EndianIs(ModeOf(order))]), Widened(sp.before, h1, h2, sp.after));
  }

  /** The place is found when the first line end behind the brace of the first "@protocol" is in the gap at the
      place, or when no line ends behind the brace and the place is right behind it. */
  lemma PlaceIsFound(a: Around, sp: Spacing, protocol: nat, brace: nat)
    requires Fits(sp, a) && Find(TextOf(a, sp), "endian", 0).None?
    requires IsFirst(TextOf(a, sp), "@protocol", 0, protocol) && IsFirst(TextOf(a, sp), "{", protocol, brace)
    ensures var text, start := TextOf(a, sp), |PreText(Opening(a), sp.before)|;
      (forall n: nat :: IsFirst(text, "\n", brace, n) && start <= n < start + |GapText(sp.here)| ==> InsertsHere(a, sp)) &&
      (start == brace + 1 && (forall n: nat :: brace <= n ==> !OccursAt(text, "\n", n)) ==> InsertsHere(a, sp))
  {
    hide Find, InsertAt, GapText, PreText, Opening, TextOf;
    var text, start := TextOf(a, sp), |PreText(Opening(a), sp.before)|;
    forall n: nat | IsFirst(text, "\n", brace, n) && start <= n < start + |GapText(sp.here)|
      ensures InsertsHere(a, sp)
    {
      InsertExactly(text, n + 1);
    }
    InsertExactly(text, brace + 1);
  }

  // ---------- Replacing ----------

  /** The entries with one value: a name or a byte order. */
  predicate Valued(m: Metadata) { !m.Ports? }

  function KeyOf(m: Metadata): string { if m.EndianIs? then "endian" else "name" }

  function ValueOf(m: Metadata): Token
    requires Valued(m)
  {
    if m.QuotedName? then Token(StringLiteral, m.text, 0)
    else var word := if m.PlainName? then m.word else ModeText(m.mode); Token(WordKind(word), word, 0)
  }

  /** The tokens of such an entry. */
  function Entry(m: Metadata, k: Stream): (r: Stream)
    requires Valued(m)
    ensures Length(r) == Length(k) + 4
  {
    assert Length(More(ValueOf(m), S(Semicolon, k))) == Length(k) + 2;
    W(KeyOf(m), S(Assign, More(ValueOf(m), S(Semicolon, k))))
  }

  lemma EntryIs(m: Metadata, k: Stream)
    requires Valued(m)
    ensures MetadataTokens(m, k) == Entry(m, k)
  {
  }

  /** The entry with the written word for its value. */
  function Rewritten(m: Metadata, order: Endian): (r: Metadata)
    ensures Valued(r)
  {
    if m.EndianIs? then EndianIs(ModeOf(order)) else PlainName(OrderName(order))
  }

  /** The gaps of an entry: before its key, its '=', its value and its ';'. */
  datatype EntrySpacing = EntrySpacing(word: Gap, assign: Gap, value: Gap, end: Gap)

  function EntryGaps(g: EntrySpacing, after: seq<Gap>): (r: seq<Gap>)
    ensures |r| == |after| + 4
  {
    [g.word] + ([g.assign] + ([g.value] + ([g.end] + after)))
  }

  ghost predicate FitsEntry(a: Around, m: Metadata, before: seq<Gap>, g: EntrySpacing, after: seq<Gap>) {
    Valued(m) && |before| == Length(Opening(a)) && |after| == Length(Closing(a)) + 1 &&
    Spaced(Join(Opening(a), Entry(m, Closing(a))), before + EntryGaps(g, after))
  }

  ghost function TextWith(a: Around, m: Metadata, before: seq<Gap>, g: EntrySpacing, after: seq<Gap>): string
    requires FitsEntry(a, m, before, g, after)
  {
    Text(Join(Opening(a), Entry(m, Closing(a))), before + EntryGaps(g, after))
  }

  /** Where the value of the entry starts, right behind its '='. */
  ghost function ValueStart(a: Around, m: Metadata, before: seq<Gap>, g: EntrySpacing): nat
    requires |before| == Length(Opening(a))
  {
    |PreText(Opening(a), before)| + |GapText(g.word)| + |KeyOf(m)| + |GapText(g.assign)| + 1
  }

  function ValueText(m: Metadata, g: EntrySpacing): string
    requires Valued(m)
  {
    GapText(g.value) + Spell(ValueOf(m)) + GapText(g.end)
  }

  /** The '=' and the ';' that are found are those of this entry. */
  ghost predicate ReplacesHere(a: Around, m: Metadata, before: seq<Gap>, g: EntrySpacing, after: seq<Gap>)
    requires FitsEntry(a, m, before, g, after)
  {
    var text := TextWith(a, m, before, g, after);
    var start := ValueStart(a, m, before, g);
    Find(text, "endian", 0).Some? &&
    SettingAt(text, Find(text, "endian", 0).value) == Some((start, start + |ValueText(m, g)|))
  }

  lemma EntryText(m: Metadata, k: Stream, g: EntrySpacing, after: seq<Gap>)
    requires Valued(m) && |after| == Length(k) + 1
    ensures Text(Entry(m, k), EntryGaps(g, after)) ==
            (GapText(g.word) + KeyOf(m) + GapText(g.assign) + "=") + ValueText(m, g) + (";" + Text(k, after))
  {
    hide Text, GapText, ValueOf, Spell;
    var (key, value) := (Token(WordKind(KeyOf(m)), KeyOf(m), 0), ValueOf(m));
    assert Spell(key) == KeyOf(m) by { KeySpelled(m); }
    assert Spell(Token(Semicolon, ";", 0)) == ";" && Spell(Token(Assign, "=", 0)) == "=" by { SymbolsSpelled(); }
    var rest := Text(k, after);
    TextUnfolds(Token(Semicolon, ";", 0), k, g.end, after);
    var gaps3 := [g.end] + after;
    TextUnfolds(value, S(Semicolon, k), g.value, gaps3);
    var gaps2 := [g.value] + gaps3;
    TextUnfolds(Token(Assign, "=", 0), More(value, S(Semicolon, k)), g.assign, gaps2);
    TextUnfolds(key, S(Assign, More(value, S(Semicolon, k))), g.word, [g.assign] + gaps2);
    Regroups(GapText(g.word), KeyOf(m), GapText(g.assign), GapText(g.value), Spell(value), GapText(g.end), ";" + rest);
  }

  lemma KeySpelled(m: Metadata)
    ensures Spell(Token(WordKind(KeyOf(m)), KeyOf(m), 0)) == KeyOf(m)
  {
    PlainWords();
  }

  lemma SymbolsSpelled()
    ensures Spell(Token(Semicolon, ";", 0)) == ";" && Spell(Token(Assign, "=", 0)) == "="
  {
  }

  lemma Regroups(a: string, key: string, b: string, c: string, word: string, d: string, rest: string)
    ensures a + (key + (b + ("=" + (c + (word + (d + rest)))))) ==
            (a + key + b + "=") + (c + word + d) + rest
  {
    var value := c + word + d;
    Associates(c + word, d, rest);
    Associates(c, word, d + rest);
    assert c + (word + (d + rest)) == value + rest;
    Associates(a + key + b, "=", value + rest);
    Associates(a + key, b, "=" + (value + rest));
    Associates(a, key, b + ("=" + (value + rest)));
    Associates(a + key + b + "=", value, rest);
  }

  /** The gaps of an entry whose value has been replaced. */
  function NewGaps(g: EntrySpacing): EntrySpacing { EntrySpacing(g.word, g.assign, ONE_BLANK, []) }

  lemma NewValue(m: Metadata, g: EntrySpacing, order: Endian)
    ensures ValueText(Rewritten(m, order), NewGaps(g)) == " " + OrderName(order)
    ensures ValueOf(Rewritten(m, order)) == Token(WordKind(OrderName(order)), OrderName(order), 0)
    ensures KeyOf(Rewritten(m, order)) == KeyOf(m)
  {
    BlankTexts();
    PlainWords();
    assert (" " + OrderName(order)) + "" == " " + OrderName(order);
  }

  lemma ReplacedText(a: Around, m: Metadata, before: seq<Gap>, g: EntrySpacing, after: seq<Gap>, order: Endian)
    requires FitsEntry(a, m, before, g, after)
    ensures var start := ValueStart(a, m, before, g);
      var text := TextWith(a, m, before, g, after);
      start + |ValueText(m, g)| <= |text| &&
      Replaced(text, start, start + |ValueText(m, g)|, order) ==
        Text(Join(Opening(a), Entry(Rewritten(m, order), Closing(a))), before + EntryGaps(NewGaps(g), after))
  {
    hide Text, Spaced, Opening, Closing, GapText, PreText, Entry, ValueText, EntryGaps, KeyOf, Rewritten, OrderName, Replaced;
    var (s, k) := (Opening(a), Closing(a));
    TextJoins(s, Entry(m, k), before, EntryGaps(g, after));
    TextJoins(s, Entry(Rewritten(m, order), k), before, EntryGaps(NewGaps(g), after));
    EntryText(m, k, g, after);
    EntryText(Rewritten(m, order), k, NewGaps(g), after);
    NewValue(m, g, order);
    ReplacedJoins(PreText(s, before), GapText(g.word) + KeyOf(m) + GapText(g.assign) + "=", ValueText(m, g), ";" + Text(k, after), order);
  }

  lemma ReplacedJoins(pre: string, start: string, value: string, end: string, order: Endian)
    ensures var text := pre + (start + value + end);
      Replaced(text, |pre| + |start|, |pre| + |start| + |value|, order) == pre + (start + (" " + OrderName(order)) + end)
  {
    hide OrderName;
    var text := pre + (start + value + end);
    assert text == (pre + start) + (value + end);
    assert text[..|pre| + |start|] == pre + start && text[|pre| + |start| + |value|..] == end;
    var word := " " + OrderName(order);
    Associates(pre + start, " ", OrderName(order));
    Associates(pre + start, word, end);
    Associates(pre, start, word + end);
    Associates(start, word, end);
  }

  lemma HeadBeforeEquals(gap: string, rest: string)
    ensures Head(gap + ("=" + rest)) == Head(gap + "=")
  {
  }

  lemma AssignHead(rest: Stream, gap: Gap, gaps: seq<Gap>)
    requires |gaps| == Length(rest) + 1
    ensures Head(Text(S(Assign, rest), [gap] + gaps)) == Head(GapText(gap) + "=")
  {
    hide Text, GapText;
    TextUnfolds(Token(Assign, "=", 0), rest, gap, gaps);
    HeadBeforeEquals(GapText(gap), Text(rest, gaps));
  }

  lemma EntrySpaced(m: Metadata, k: Stream, g: EntrySpacing, after: seq<Gap>, order: Endian)
    requires Valued(m) && |after| == Length(k) + 1 && Spaced(Entry(m, k), EntryGaps(g, after))
    ensures Spaced(Entry(Rewritten(m, order), k), EntryGaps(NewGaps(g), after))
  {
    hide Text, GapText, Spaced, GapOk, Entry, EntryGaps, ValueOf, KeyOf, Rewritten;
    PlainWords();
    BlankTexts();
    assert GapOk(ONE_BLANK) && GapOk([]) by { BlanksOk(); }
    EntryUnfolds(m, k, g, after);
    var next := Rewritten(m, order);
    EntryUnfolds(next, k, NewGaps(g), after);
    NewValue(m, g, order);
    AssignHead(More(ValueOf(m), S(Semicolon, k)), g.assign, [g.value] + ([g.end] + after));
    AssignHead(More(ValueOf(next), S(Semicolon, k)), g.assign, [ONE_BLANK] + ([[]] + after));
    TextUnfolds(Token(Semicolon, ";", 0), k, [], after);
    TextUnfolds(ValueOf(next), S(Semicolon, k), ONE_BLANK, [[]] + after);
  }

  lemma BlanksOk()
    ensures GapOk(ONE_BLANK) && GapOk([])
  {
  }

  /** What the spacing of an entry asks for. */
  lemma EntryUnfolds(m: Metadata, k: Stream, g: EntrySpacing, after: seq<Gap>)
    requires Valued(m) && |after| == Length(k) + 1
    ensures var end, value := S(Semicolon, k), More(ValueOf(m), S(Semicolon, k));
      Spaced(Entry(m, k), EntryGaps(g, after)) <==>
        GapOk(g.word) && Breaks(Token(WordKind(KeyOf(m)), KeyOf(m), 0), Head(Text(S(Assign, value), [g.assign] + ([g.value] + ([g.end] + after))))) &&
        GapOk(g.assign) && Breaks(Token(Assign, "=", 0), Head(Text(value, [g.value] + ([g.end] + after)))) &&
        GapOk(g.value) && Breaks(ValueOf(m), Head(Text(end, [g.end] + after))) &&
        GapOk(g.end) && Breaks(Token(Semicolon, ";", 0), Head(Text(k, after))) && Spaced(k, after)
  {
    hide Text, Spaced, GapOk, Breaks, ValueOf, KeyOf;
    var end, value := S(Semicolon, k), More(ValueOf(m), S(Semicolon, k));
    SpacedUnfolds(Token(Semicolon, ";", 0), k, g.end, after);
    SpacedUnfolds(ValueOf(m), end, g.value, [g.end] + after);
    SpacedUnfolds(Token(Assign, "=", 0), value, g.assign, [g.value] + ([g.end] + after));
    SpacedUnfolds(Token(WordKind(KeyOf(m)), KeyOf(m), 0), S(Assign, value), g.word, [g.assign] + ([g.value] + ([g.end] + after)));
  }

  lemma NewSpaced(a: Around, m: Metadata, before: seq<Gap>, g: EntrySpacing, after: seq<Gap>, order: Endian)
    requires FitsEntry(a, m, before, g, after)
    ensures FitsEntry(a, Rewritten(m, order), before, NewGaps(g), after)
  {
    hide Text, Spaced, Opening, Closing, GapText, EntryGaps, PreSpaced, Rewritten, Entry, KeyOf;
    var (s, k) := (Opening(a), Closing(a));
    SpacedJoins(s, Entry(m, k), before, EntryGaps(g, after));
    SpacedJoins(s, Entry(Rewritten(m, order), k), before, EntryGaps(NewGaps(g), after));
    EntrySpaced(m, k, g, after, order);
    EntryHead(m, k, g, after);
    EntryHead(Rewritten(m, order), k, NewGaps(g), after);
    NewValue(m, g, order);
  }

  lemma EntryHead(m: Metadata, k: Stream, g: EntrySpacing, after: seq<Gap>)
    requires Valued(m) && |after| == Length(k) + 1
    ensures Head(Text(Entry(m, k), EntryGaps(g, after))) == Head(GapText(g.word) + KeyOf(m))
  {
    hide Text, GapText, ValueText;
    EntryText(m, k, g, after);
    var start := GapText(g.word) + KeyOf(m);
    assert start != "" && start + GapText(g.assign) + "=" == start + (GapText(g.assign) + "=");
  }

  lemma RewrittenOk(m: Metadata, order: Endian)
    ensures MetadataOk(Rewritten(m, order))
  {
  }

  /** Where the '=' and the ';' that are found are those of an entry with a value, the rewritten text is read as the
      definition with the written word for that value: the byte order, or the name. */
  lemma ReplacedIsRead(a: Around, m: Metadata, before: seq<Gap>, g: EntrySpacing, after: seq<Gap>, order: Endian)
    requires ItemsOk(EMPTY_DRAFT, With(a, [m])) && FitsEntry(a, m, before, g, after)
    requires ReplacesHere(a, m, before, g, after)
    ensures ParseSource(TextWith(a, m, before, g, after)) == Ok(WithItems(EMPTY_DRAFT, With(a, [m])))
    ensures RewrittenTo(TextWith(a, m, before, g, after), order, With(a, [Rewritten(m, order)]))
  {
    hide Text, Spaced, Opening, Closing, SettingAt, Find, WithItems, ItemsOk, ItemsTokens, ParseSource, GapText, PreText, With, Join;
    hide EntryGaps, Entry, Rewritten, ValueText, MetadataTokens, MetadataOk;
    var next := Rewritten(m, order);
    PlaceSplits(a, [m]);
    OneEntry(m, Closing(a));
    EntryIs(m, Closing(a));
    ParseWritten(With(a, [m]), before + EntryGaps(g, after));
    ReplacedText(a, m, before, g, after, order);
    NewSpaced(a, m, before, g, after, order);
    RewrittenOk(m, order);
    WithEntryOk(a, [m], next);
    PlaceSplits(a, [next]);
    OneEntry(next, Closing(a));
    EntryIs(next, Closing(a));
    ParseWritten(With(a, [next]), before + EntryGaps(NewGaps(g), after));
  }

  // ---------- Joining texts ----------

  lemma InsertedBetween(start: string, end: string, order: Endian)
    ensures Inserted(start + end, |start|, order) == start + ("    endian = " + OrderName(order) + ";\n" + end)
  {
    hide OrderName;
    assert (start + end)[..|start|] == start && (start + end)[|start|..] == end;
    InsertedJoins(start, end, order);
  }

  lemma InsertedJoins(before: string, after: string, order: Endian)
    ensures before + "    endian = " + OrderName(order) + ";\n" + after ==
            before + ("    endian = " + OrderName(order) + ";\n" + after)
  {
    hide OrderName;
    Associates(before, "    endian = ", OrderName(order));
    Associates(before, "    endian = " + OrderName(order), ";\n");
    Associates(before, "    endian = " + OrderName(order) + ";\n", after);
  }
}
