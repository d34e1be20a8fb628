/** Writing back that reports success and changes something else: the name, or a field that is lost. */
module Damage {
  import opened Pdef
  import opened Tokens
  import opened Spelling
  import opened TextSearch
  import opened Writeback
  import opened Grammar
  import opened Syntax
  import opened Splice
  import opened Places
  import opened Source
  import opened Reload
  import opened WritebackEffects

  // ---------- The name is replaced ----------

  predicate IsName(m: Metadata) { m.QuotedName? || m.PlainName? }

  ghost predicate NoName(ms: seq<Metadata>) { forall m :: m in ms ==> !IsName(m) }

  ghost predicate NoNames(items: seq<Item>) {
    forall item :: item in items && item.ProtocolItem? ==> NoName(item.metadata)
  }

  /** Two drafts that differ at most in their names. */
  predicate ButName(d: Draft, e: Draft) { e == d.(name := e.name) }

  lemma {:induction false} EntriesButName(d: Draft, e: Draft, ms: seq<Metadata>)
    requires ButName(d, e)
    ensures ButName(WithAllMetadata(d, ms), WithAllMetadata(e, ms))
    ensures NoName(ms) ==> WithAllMetadata(e, ms).name == e.name
    decreases |ms|
  {
    if ms != [] {
      assert ms[0] in ms;
      EntriesButName(WithMetadata(d, ms[0]), WithMetadata(e, ms[0]), ms[1..]);
    }
  }

  lemma {:induction false} ConstantsButName(d: Draft, e: Draft, cs: seq<(string, U64)>)
    requires ButName(d, e)
    ensures ButName(WithConstants(d, cs), WithConstants(e, cs)) && WithConstants(e, cs).name == e.name
    decreases |cs|
  {
    if cs != [] {
      ConstantsButName(d.(constants := [cs[0]] + d.constants), e.(constants := [cs[0]] + e.constants), cs[1..]);
    }
  }

  /** What is read does not depend on the name, and only an entry with a name changes it. */
  lemma {:induction false} ItemsButName(d: Draft, e: Draft, items: seq<Item>)
    requires ButName(d, e)
    ensures ButName(WithItems(d, items), WithItems(e, items))
    ensures NoNames(items) ==> WithItems(e, items).name == e.name
    decreases |items|
  {
    hide WithFields, WithEntries, NoName;
    if items != [] {
      match items[0] {
        case ProtocolItem(ms) => EntriesButName(d, e, ms);
        case ConstItem(cs) => ConstantsButName(d, e, cs);
        case _ =>
      }
      ItemsButName(WithItem(d, items[0]), WithItem(e, items[0]), items[1..]);
    }
  }

  lemma OtherName(a: Around, m: Metadata, word: string)
    requires IsName(m)
    ensures var d, e := WithItems(EMPTY_DRAFT, With(a, [m])), WithItems(EMPTY_DRAFT, With(a, [PlainName(word)]));
      ButName(d, e) && (NoName(a.last) && NoNames(a.after) ==> e.name == word)
  {
    hide NoName, NoNames;
    var n := PlainName(word);
    var were, are := ProtocolItem(a.first + ([m] + a.last)), ProtocolItem(a.first + ([n] + a.last));
    var d0 := WithItems(EMPTY_DRAFT, a.before);
    ItemsInTurn(EMPTY_DRAFT, a.before, [were] + a.after);
    ItemsInTurn(EMPTY_DRAFT, a.before, [are] + a.after);
    MetadataInTurn(d0, a.first, [m] + a.last);
    MetadataInTurn(d0, a.first, [n] + a.last);
    assert ([m] + a.last)[1..] == a.last && ([n] + a.last)[1..] == a.last;
    assert ([were] + a.after)[1..] == a.after && ([are] + a.after)[1..] == a.after;
    var d1 := WithAllMetadata(d0, a.first);
    EntriesButName(WithMetadata(d1, m), WithMetadata(d1, n), a.last);
    ItemsButName(WithItem(d0, were), WithItem(d0, are), a.after);
  }

  /** When the '=' and the ';' that are found are those of a name, rewriting reports success, and the new text is read
      as the same definition under the written word, in the mode that it had. */
  lemma NameIsReplaced(a: Around, m: Metadata, before: seq<Gap>, g: EntrySpacing, after: seq<Gap>, order: Endian)
    requires IsName(m) && ItemsOk(EMPTY_DRAFT, With(a, [m])) && FitsEntry(a, m, before, g, after)
    requires ReplacesHere(a, m, before, g, after)
    ensures var text := TextWith(a, m, before, g, after);
      Rewrite(text, order).Some? && ParseSource(text).Ok? && ParseSource(Rewrite(text, order).value).Ok? &&
      (var d, e := ParseSource(text).value, ParseSource(Rewrite(text, order).value).value;
        e == d.(name := e.name) && (NoName(a.last) && NoNames(a.after) ==> e.name == OrderName(order)))
  {
    hide ItemsOk, With, FitsEntry, ReplacesHere, ParseSource, Rewrite, WithItems, TextWith, NoName, NoNames;
    ReplacedIsRead(a, m, before, g, after, order);
    OtherName(a, m, OrderName(order));
  }

  // ---------- Tokens are taken into a comment ----------

  /** The gap ends where its first line does. */
  predicate OneLine(h: Gap) {
    var text := GapText(h);
    text != "" && text[|text| - 1] == '\n' && '\n' !in text[..|text| - 1]
  }

  /** The text of a gap up to a place inside a comment is a gap and the beginning of a comment. */
  lemma {:induction false} GapUpTo(g: Gap, i: nat) returns (left: Gap, c: string)
    requires GapOk(g) && i < |GapText(g)| && GapText(g)[i] == '='
    ensures GapText(g)[..i + 1] == GapText(left) + ("//" + c)
    ensures BlankOk(Comment(c)) && GapOk(left)
    decreases |g|
  {
    hide BlankText, BlankOk;
    var b := g[0];
    assert BlankOk(b);
    GapTextUnfolds(g);
    var len := |BlankText(b)|;
    if i < len {
      BlankEnds(b, i);
      CommentLength(b);
      left, c := [], b.text[..i - 1];
      PartOfComment(b.text, 0, i - 1);
      assert b.text[0..i - 1] == c;
      CommentUpTo(b.text, GapText(g[1..]), i);
      assert "" + ("//" + c) == "//" + c;
    } else {
      var more;
      more, c := GapUpTo(g[1..], i - len);
      left := [b] + more;
      assert left[1..] == more;
      GapTextUnfolds(left);
      assert GapText(g)[..i + 1] == BlankText(b) + GapText(g[1..])[..i - len + 1];
      Associates(BlankText(b), GapText(more), "//" + c);
    }
  }

  lemma {:induction false} NoEndInGap(g: Gap)
    requires GapOk(g)
    ensures '\0' !in GapText(g)
    decreases |g|
  {
    hide BlankText;
    if g != [] {
      assert BlankOk(g[0]);
      NoEndInBlank(g[0]);
      NoEndInGap(g[1..]);
    }
  }

  lemma NoEndInBlank(b: Blank)
    requires BlankOk(b)
    ensures '\0' !in BlankText(b)
  {
  }

  /** The line of the comment with the written word in it. */
  lemma WiderComment(c: string, order: Endian, u: string)
    requires BlankOk(Comment(c)) && '\n' !in u && '\0' !in u
    ensures BlankOk(Comment(c + (" " + OrderName(order) + (";" + u))))
  {
    hide OrderName;
    NameInComment(order);
    var name := " " + OrderName(order);
    assert '\n' !in name && '\0' !in name by { NamePlain(order); }
    assert '\n' !in name + (";" + u) && '\0' !in name + (";" + u);
  }

  lemma NamePlain(order: Endian)
    ensures '\n' !in " " + OrderName(order) && '\0' !in " " + OrderName(order)
  {
  }

  lemma CommentJoins(left: string, c: string, name: string, u: string, right: string)
    ensures left + (("//" + (c + (name + (";" + u))) + "\n") + right) == (left + ("//" + c)) + (name + (";" + ((u + "\n") + right)))
  {
    var tail := (u + "\n") + right;
    assert u + ("\n" + right) == tail;
    Associates("//" + (c + (name + (";" + u))), "\n", right);
    Associates(";", u, "\n" + right);
    Associates(name, ";" + u, "\n" + right);
    Associates(c, name + (";" + u), "\n" + right);
    Associates("//", c + (name + (";" + u)), "\n" + right);
    Associates("//", c, name + (";" + tail));
    Associates(left, "//" + c, name + (";" + tail));
  }

  /** From an '=' in one gap to a ';', and on to the end of that line: all becomes one comment. */
  lemma SwallowingGap(g: Gap, i: nat, h1: Gap, h2: Gap, order: Endian) returns (gap: Gap)
    requires GapOk(g) && i < |GapText(g)| && GapText(g)[i] == '=' && GapOk(h1) && GapOk(h2) && OneLine(h1)
    ensures GapOk(gap) && gap != []
    ensures GapText(gap) == GapText(g)[..i + 1] + ((" " + OrderName(order)) + (";" + GapText(h1 + h2)))
  {
    hide GapText, OrderName, BlankOk, BlankText;
    var left, c := GapUpTo(g, i);
    var line := GapText(h1);
    var u := line[..|line| - 1];
    NoEndInGap(h1);
    assert line == u + "\n";
    WiderComment(c, order, u);
    var comment := Comment(c + (" " + OrderName(order) + (";" + u)));
    gap := left + ([comment] + h2);
    GapTextJoins(left, [comment] + h2);
    GapTextJoins([comment], h2);
    GapTextJoins(h1, h2);
    SingleGap(comment);
    TextOfComment(comment.text);
    CommentJoins(GapText(left), c, " " + OrderName(order), u, GapText(h2));
  }

  /** Where the '=' that is found is in a gap and the ';' is the last character of some tokens, and these are the last
      of their line, the tokens are lost in a comment: the new text is that of the others. */
  lemma TokensAreLost(s: Stream, mid: Stream, k: Stream, before: seq<Gap>, g: Gap, inner: seq<Gap>, h1: Gap, h2: Gap,
      after: seq<Gap>, endian: nat, i: nat, order: Endian) returns (gap: Gap)
    requires |before| == Length(s) && |inner| + 1 == Length(mid) && |after| == Length(k)
    requires Spaced(Join(s, Join(mid, k)), before + (([g] + inner) + ([h1 + h2] + after)))
    requires i < |GapText(g)| && GapText(g)[i] == '=' && OneLine(h1)
    requires var text := Text(Join(s, Join(mid, k)), before + (([g] + inner) + ([h1 + h2] + after)));
      Find(text, "endian", 0) == Some(endian) &&
      SettingAt(text, endian) == Some((|PreText(s, before)| + i + 1, |PreText(s, before)| + |PreText(mid, [g] + inner)| - 1))
    ensures Spaced(Join(s, k), before + ([gap] + after))
    ensures Rewrite(Text(Join(s, Join(mid, k)), before + (([g] + inner) + ([h1 + h2] + after))), order) ==
            Some(Text(Join(s, k), before + ([gap] + after)))
  {
    hide Text, Spaced, PreText, GapText, Join, SettingAt, Find, GapOk, Replaced, Rewrite, PreSpaced, OneLine, OrderName;
    var h := h1 + h2;
    var gaps := ([g] + inner) + ([h] + after);
    assert gaps == [g] + (inner + ([h] + after));
    TextJoins(s, Join(mid, k), before, gaps);
    TextJoins(mid, k, [g] + inner, [h] + after);
    SpacedJoins(s, Join(mid, k), before, gaps);
    SpacedJoins(mid, k, [g] + inner, [h] + after);
    FirstGapOk(Join(mid, k), g, inner + ([h] + after));
    FirstGapOk(k, h, after);
    GapParts(h1, h2);
    gap := SwallowingGap(g, i, h1, h2, order);
    FirstGapFree(k, h, gap, after);
    SpacedAround(s, Join(mid, k), before, g, inner + ([h] + after), k, gap, after);
    TextAround(s, k, before, gap, after);
    FirstGap(k, h, [], after);
    assert h + [] == h;
    var text := Text(Join(s, Join(mid, k)), before + gaps);
    var start, end := |PreText(s, before)| + i + 1, |PreText(s, before)| + |PreText(mid, [g] + inner)| - 1;
    RewriteReplaces(text, endian, start, end, order);
    SemicolonFound(text, endian);
    MidStarts(mid, g, inner);
    LostText(PreText(s, before), GapText(g), PreText(mid, [g] + inner), GapText(h), Text(k, [[]] + after), i, order);
  }

  lemma GapParts(h1: Gap, h2: Gap)
    requires GapOk(h1 + h2)
    ensures GapOk(h1) && GapOk(h2)
  {
    hide BlankOk;
    assert forall b :: b in h1 || b in h2 ==> b in h1 + h2;
  }

  lemma SemicolonFound(text: string, endian: nat)
    requires SettingAt(text, endian).Some?
    ensures text[SettingAt(text, endian).value.1] == ';'
  {
  }

  lemma MidStarts(mid: Stream, g: Gap, inner: seq<Gap>)
    requires |inner| + 1 == Length(mid)
    ensures GapText(g) <= PreText(mid, [g] + inner)
  {
    hide GapText;
  }

  lemma LostText(pre: string, g: string, mid: string, h: string, rest: string, i: nat, order: Endian)
    requires g <= mid && i < |g| && i + 1 < |mid| && (pre + (mid + (h + rest)))[|pre| + |mid| - 1] == ';'
    ensures Replaced(pre + (mid + (h + rest)), |pre| + i + 1, |pre| + |mid| - 1, order) ==
            pre + ((g[..i + 1] + ((" " + OrderName(order)) + (";" + h))) + rest)
  {
    hide OrderName;
    var name := " " + OrderName(order);
    var text := pre + (mid + (h + rest));
    var left := g[..i + 1];
    assert text[..|pre| + i + 1] == pre + left;
    assert text[|pre| + |mid| - 1..] == ";" + (h + rest);
    Associates(pre + left, " ", OrderName(order));
    Associates(pre + left, name, ";" + (h + rest));
    Associates(pre, left, name + (";" + (h + rest)));
    Associates(";", h, rest);
    Associates(name, ";" + h, rest);
    Associates(left, name + (";" + h), rest);
  }

  // ---------- A field is lost ----------

  /** A definition with one struct of these fields. */
  function WithStruct(first: seq<Item>, name: string, fs: seq<FieldSyntax>, rest: seq<Item>): seq<Item> {
    first + ([StructItem(name, fs)] + rest)
  }

  lemma {:induction false} FieldsAppend(fs: seq<FieldSyntax>, more: seq<FieldSyntax>, k: Stream)
    ensures FieldsTokens(fs + more, k) == FieldsTokens(fs, FieldsTokens(more, k))
    decreases |fs|
  {
    hide FieldTokens;
    if fs == [] {
      assert fs + more == more;
    } else {
      FieldsAppend(fs[1..], more, k);
      assert (fs + more)[1..] == fs[1..] + more;
    }
  }

  lemma FieldJoin(f: FieldSyntax, k: Stream)
    ensures FieldTokens(f, k) == Join(FieldTokens(f, Done), k)
  {
    FieldsJoin([f], Done, k);
    assert [f][1..] == [];
  }

  /** The tokens up to a field of a struct, and those behind it. */
  function StructOpening(first: seq<Item>, name: string, fs: seq<FieldSyntax>): Stream {
    ItemsThen(first, W(name, S(LBrace, FieldsTokens(fs, Done))))
  }

  function StructClosing(fs: seq<FieldSyntax>, rest: seq<Item>): Stream {
    FieldsTokens(fs, S(RBrace, ItemsTokens(rest)))
  }

  lemma StructSplits(first: seq<Item>, name: string, fs: seq<FieldSyntax>, more: seq<FieldSyntax>, rest: seq<Item>)
    ensures ItemsTokens(WithStruct(first, name, fs + more, rest)) ==
            Join(StructOpening(first, name, fs), StructClosing(more, rest))
  {
    hide FieldsTokens, ItemsThen;
    var end := StructClosing(more, rest);
    ItemsAppend(first, [StructItem(name, fs + more)] + rest);
    assert ([StructItem(name, fs + more)] + rest)[1..] == rest;
    FieldsAppend(fs, more, S(RBrace, ItemsTokens(rest)));
    FieldsJoin(fs, Done, end);
    assert ItemsTokens([StructItem(name, fs + more)] + rest) == W(name, S(LBrace, FieldsTokens(fs, Join(Done, end))));
    ItemsJoin(first, W(name, S(LBrace, FieldsTokens(fs, Done))), end);
  }

  lemma FieldSplits(f: FieldSyntax, more: seq<FieldSyntax>, rest: seq<Item>)
    ensures StructClosing([f] + more, rest) == Join(FieldTokens(f, Done), StructClosing(more, rest))
  {
    hide FieldTokens;
    assert ([f] + more)[1..] == more;
    FieldJoin(f, StructClosing(more, rest));
  }

  lemma FewerFieldsOk(fs1: seq<FieldSyntax>, f: FieldSyntax, fs2: seq<FieldSyntax>)
    requires Syntax.FieldsOk(fs1 + ([f] + fs2))
    ensures Syntax.FieldsOk(fs1 + fs2)
  {
    hide FieldOk, IsVarbytes;
    var all, fewer := fs1 + ([f] + fs2), fs1 + fs2;
    forall i | 0 <= i < |fewer|
      ensures FieldOk(fewer[i]) && (IsVarbytes(fewer[i]) ==> i == |fewer| - 1)
    {
      var j := if i < |fs1| then i else i + 1;
      assert all[j] == fewer[i];
    }
  }

  lemma {:induction false} WithStructOk(d: Draft, first: seq<Item>, name: string, fs: seq<FieldSyntax>, fs': seq<FieldSyntax>, rest: seq<Item>)
    requires ItemsOk(d, WithStruct(first, name, fs, rest)) && (Syntax.FieldsOk(fs) ==> Syntax.FieldsOk(fs'))
    ensures ItemsOk(d, WithStruct(first, name, fs', rest))
    decreases |first|
  {
    hide Syntax.FieldsOk, MetadataOk, EntryOk, Name, WithFields;
    var were, are := WithStruct(first, name, fs, rest), WithStruct(first, name, fs', rest);
    if first == [] {
      assert were[1..] == rest && are[1..] == rest;
      ItemsOkAlike(WithItem(d, StructItem(name, fs)), WithItem(d, StructItem(name, fs')), rest);
    } else {
      assert were[1..] == WithStruct(first[1..], name, fs, rest);
      assert are[1..] == WithStruct(first[1..], name, fs', rest);
      WithStructOk(WithItem(d, first[0]), first[1..], name, fs, fs', rest);
    }
  }

  // ---------- What is read then ----------

  function DefinedFields(fs: seq<FieldSyntax>, order: Endian): (r: seq<Field>)
    ensures |r| == |fs|
  {
    if fs == [] then [] else [DefinedField(fs[0], order)] + DefinedFields(fs[1..], order)
  }

  lemma {:induction false} DefinedAppend(fs: seq<FieldSyntax>, more: seq<FieldSyntax>, order: Endian)
    ensures DefinedFields(fs + more, order) == DefinedFields(fs, order) + DefinedFields(more, order)
    decreases |fs|
  {
    hide DefinedField;
    if fs == [] {
      assert fs + more == more;
    } else {
      DefinedAppend(fs[1..], more, order);
      assert (fs + more)[1..] == fs[1..] + more;
    }
  }

  lemma {:induction false} FieldsDefined(s: StructDef, fs: seq<FieldSyntax>, order: Endian)
    ensures WithFields(s, fs, order).fields == s.fields + DefinedFields(fs, order)
    decreases |fs|
  {
    hide DefinedField, IsVarbytes;
    if fs != [] {
      var f := DefinedField(fs[0], order);
      FieldsDefined(s.(fields := s.fields + [f], hasVariable := IsVarbytes(fs[0])), fs[1..], order);
      assert s.fields + [f] + DefinedFields(fs[1..], order) == s.fields + ([f] + DefinedFields(fs[1..], order));
    }
  }

  /** Struct j has lost its field n, and nothing else is different. */
  ghost predicate FieldLost(d: Draft, e: Draft, j: nat, n: nat) {
    e == d.(structs := e.structs) && j < |d.structs| == |e.structs| && n < |d.structs[j].fields| &&
    e.structs == d.structs[..j] + [e.structs[j]] + d.structs[j + 1..] &&
    e.structs[j].fields == d.structs[j].fields[..n] + d.structs[j].fields[n + 1..]
  }

  lemma {:induction false} LostStays(d: Draft, e: Draft, j: nat, n: nat, items: seq<Item>)
    requires FieldLost(d, e, j, n)
    ensures FieldLost(WithItems(d, items), WithItems(e, items), j, n)
    decreases |items|
  {
    hide WithFields, WithEntries;
    if items != [] {
      var d1, e1 := WithItem(d, items[0]), WithItem(e, items[0]);
      match items[0] {
        case ProtocolItem(ms) => OnlyEntries(d, e, ms);
        case ConstItem(cs) => OnlyConstants(d, e, cs);
        case StructItem(_, _) =>
          assert d1.structs[j + 1..] == d.structs[j + 1..] + [d1.structs[|d.structs|]];
        case FilterItem(_, _) =>
      }
      LostStays(d1, e1, j, n, items[1..]);
    }
  }

  lemma {:induction false} OnlyEntries(d: Draft, e: Draft, ms: seq<Metadata>)
    requires e == d.(structs := e.structs)
    ensures WithAllMetadata(e, ms) == WithAllMetadata(d, ms).(structs := e.structs) && WithAllMetadata(d, ms).structs == d.structs
    decreases |ms|
  {
    if ms != [] {
      OnlyEntries(WithMetadata(d, ms[0]), WithMetadata(e, ms[0]), ms[1..]);
    }
  }

  lemma {:induction false} OnlyConstants(d: Draft, e: Draft, cs: seq<(string, U64)>)
    requires e == d.(structs := e.structs)
    ensures WithConstants(e, cs) == WithConstants(d, cs).(structs := e.structs) && WithConstants(d, cs).structs == d.structs
    decreases |cs|
  {
    if cs != [] {
      OnlyConstants(d.(constants := [cs[0]] + d.constants), e.(constants := [cs[0]] + e.constants), cs[1..]);
    }
  }

  lemma StructWithout(d: Draft, name: string, fs1: seq<FieldSyntax>, f: FieldSyntax, fs2: seq<FieldSyntax>)
    ensures FieldLost(WithItem(d, StructItem(name, fs1 + ([f] + fs2))), WithItem(d, StructItem(name, fs1 + fs2)), |d.structs|, |fs1|)
  {
    hide WithFields, DefinedField;
    var order := d.defaultEndian;
    var empty := StructDef(name, [], 0, false);
    FieldsDefined(empty, fs1 + ([f] + fs2), order);
    FieldsDefined(empty, fs1 + fs2, order);
    DefinedAppend(fs1, [f] + fs2, order);
    DefinedAppend([f], fs2, order);
    DefinedAppend(fs1, fs2, order);
    assert |DefinedFields([f], order)| == 1;
  }

  lemma DefinitionWithout(first: seq<Item>, name: string, fs1: seq<FieldSyntax>, f: FieldSyntax, fs2: seq<FieldSyntax>, rest: seq<Item>)
    ensures FieldLost(WithItems(EMPTY_DRAFT, WithStruct(first, name, fs1 + ([f] + fs2), rest)),
                      WithItems(EMPTY_DRAFT, WithStruct(first, name, fs1 + fs2, rest)),
                      |WithItems(EMPTY_DRAFT, first).structs|, |fs1|)
  {
    hide FieldLost, WithItem;
    var were, are := StructItem(name, fs1 + ([f] + fs2)), StructItem(name, fs1 + fs2);
    var d := WithItems(EMPTY_DRAFT, first);
    ItemsInTurn(EMPTY_DRAFT, first, [were] + rest);
    ItemsInTurn(EMPTY_DRAFT, first, [are] + rest);
    assert ([were] + rest)[1..] == rest && ([are] + rest)[1..] == rest;
    StructWithout(d, name, fs1, f, fs2);
    LostStays(WithItem(d, were), WithItem(d, are), |d.structs|, |fs1|, rest);
  }

  /** When the '=' that is found is in a comment before a field that is the last of its line, and the ';' is that of
      the field, rewriting reports success, and the new text is read as the definition without the field, in the mode
      that it had. */
  lemma FieldIsLost(first: seq<Item>, name: string, fs1: seq<FieldSyntax>, f: FieldSyntax, fs2: seq<FieldSyntax>, rest: seq<Item>,
      before: seq<Gap>, g: Gap, inner: seq<Gap>, h1: Gap, h2: Gap, after: seq<Gap>, endian: nat, i: nat, order: Endian)
    requires ItemsOk(EMPTY_DRAFT, WithStruct(first, name, fs1 + ([f] + fs2), rest))
    requires |before| == Length(StructOpening(first, name, fs1)) && |inner| + 1 == Length(FieldTokens(f, Done))
    requires |after| == Length(StructClosing(fs2, rest))
    requires var ts := Join(StructOpening(first, name, fs1), Join(FieldTokens(f, Done), StructClosing(fs2, rest)));
      var gaps := before + (([g] + inner) + ([h1 + h2] + after));
      var start := |PreText(StructOpening(first, name, fs1), before)|;
      Spaced(ts, gaps) && Find(Text(ts, gaps), "endian", 0) == Some(endian) &&
      SettingAt(Text(ts, gaps), endian) == Some((start + i + 1, start + |PreText(FieldTokens(f, Done), [g] + inner)| - 1))
    requires i < |GapText(g)| && GapText(g)[i] == '=' && OneLine(h1)
    ensures var text := Text(Join(StructOpening(first, name, fs1), Join(FieldTokens(f, Done), StructClosing(fs2, rest))),
                             before + (([g] + inner) + ([h1 + h2] + after)));
      Rewrite(text, order).Some? && ParseSource(text).Ok? && ParseSource(Rewrite(text, order).value).Ok? &&
      (var d, e := ParseSource(text).value, ParseSource(Rewrite(text, order).value).value;
        FieldLost(d, e, |WithItems(EMPTY_DRAFT, first).structs|, |fs1|) && e.mode == d.mode)
  {
    hide Text, Spaced, PreText, GapText, Join, SettingAt, Find, Rewrite, ParseSource, ItemsOk, ItemsTokens, WithItems, OneLine;
    hide StructOpening, StructClosing, WithStruct, FieldTokens;
    var s, mid, k := StructOpening(first, name, fs1), FieldTokens(f, Done), StructClosing(fs2, rest);
    StructSplits(first, name, fs1, [f] + fs2, rest);
    FieldSplits(f, fs2, rest);
    StructSplits(first, name, fs1, fs2, rest);
    ParseWritten(WithStruct(first, name, fs1 + ([f] + fs2), rest), before + (([g] + inner) + ([h1 + h2] + after)));
    if Syntax.FieldsOk(fs1 + ([f] + fs2)) {
      FewerFieldsOk(fs1, f, fs2);
    }
    WithStructOk(EMPTY_DRAFT, first, name, fs1 + ([f] + fs2), fs1 + fs2, rest);
    var gap := TokensAreLost(s, mid, k, before, g, inner, h1, h2, after, endian, i, order);
    ParseWritten(WithStruct(first, name, fs1 + fs2, rest), before + ([gap] + after));
    DefinitionWithout(first, name, fs1, f, fs2, rest);
  }

  // ---------- An example ----------

  const LOSING_TEXT := "S{\n//endian=\nuint8 a;\nuint8 b;}"
  const FIRST_FIELD := ScalarField(Uint8, "a")
  const SECOND_FIELD := ScalarField(Uint8, "b")
  const BLANK: Gap := [Space(' ')]
  const SETTING_COMMENT: Gap := [Space('\n'), Comment("endian=")]

  /** The first "endian" of a text, with the '=' right behind it. */
  lemma SettingIsFound(start: string, v: string, rest: string)
    requires 'e' !in start && ';' !in v && |v| < VALUE_REACH
    ensures var text := start + ("endian=" + (v + (";" + rest)));
      Find(text, "endian", 0) == Some(|start|) && SettingAt(text, |start|) == Some((|start| + 7, |start| + 7 + |v|))
  {
    hide Find, SettingAt;
    var text := start + ("endian=" + (v + (";" + rest)));
    assert forall i :: 0 <= i < 7 ==> text[|start| + i] == "endian="[i];
    assert text[|start|..|start| + 6] == "endian";
    forall i: nat | i < |start|
      ensures !OccursAt(text, "endian", i)
    {
      assert text[i] == start[i] && start[i] in start;
      assert i + 6 <= |text| ==> text[i..i + 6][0] == text[i];
    }
    FindIs(text, "endian", 0, |start|);
    assert forall i :: |start| <= i < |start| + 6 ==> text[i] == "endian="[i - |start|];
    assert forall i :: |start| + 7 <= i < |start| + 7 + |v| ==> text[i] == v[i - |start| - 7] && v[i - |start| - 7] in v;
    SettingIs(text, |start|, |start| + 7, |start| + 7 + |v|);
  }

  /** One more token in front of a text. */
  lemma MoreText(t: Token, tail: Stream, g: Gap, gaps: seq<Gap>, gap: string, word: string, rest: string)
    requires |gaps| == Length(tail) + 1 && Text(tail, gaps) == rest && Spaced(tail, gaps)
    requires GapOk(g) && GapText(g) == gap && Spell(t) == word && Breaks(t, Head(rest))
    ensures Text(More(t, tail), [g] + gaps) == gap + (word + rest) && Spaced(More(t, tail), [g] + gaps)
  {
    hide Text, Spaced, GapOk, GapText, Breaks;
    TextUnfolds(t, tail, g, gaps);
    SpacedUnfolds(t, tail, g, gaps);
  }

  lemma ExampleGaps()
    ensures GapText([]) == "" && GapOk([]) && GapText(BLANK) == " " && GapOk(BLANK)
    ensures GapText(LINE_END) == "\n" && GapOk(LINE_END) && OneLine(LINE_END)
    ensures GapText(SETTING_COMMENT) == "\n//endian=\n" && GapOk(SETTING_COMMENT)
  {
    BlankTexts();
    assert SETTING_COMMENT[1..] == [Comment("endian=")];
    SingleGap(Comment("endian="));
  }

  lemma ExampleEnd()
    ensures var k, gaps := StructClosing([SECOND_FIELD], []), [LINE_END] + ([BLANK] + ([[]] + ([[]] + [[]])));
      Length(k) == 4 && Text(k, gaps) == "\nuint8 b;}" && Spaced(k, gaps)
  {
    hide Text, Spaced, GapText, GapOk;
    ExampleGaps();
    var end := S(RBrace, Done);
    assert Text(Done, [[]]) == "" && Spaced(Done, [[]]) by { EmptyEnd(); }
    MoreText(end.head, Done, [], [[]], "", "}", "");
    var k3 := S(Semicolon, end);
    MoreText(k3.head, end, [], [[]] + [[]], "", ";", "}");
    var k2 := W("b", k3);
    MoreText(k2.head, k3, BLANK, [[]] + ([[]] + [[]]), " ", "b", ";}");
    var k1 := W("uint8", k2);
    MoreText(k1.head, k2, LINE_END, [BLANK] + ([[]] + ([[]] + [[]])), "\n", "uint8", " b;}");
    SecondTokens();
  }

  lemma SecondTokens()
    ensures StructClosing([SECOND_FIELD], []) == W("uint8", W("b", S(Semicolon, S(RBrace, Done))))
  {
    var end := S(RBrace, Done);
    assert ItemsTokens([]) == Done;
    assert [SECOND_FIELD][1..] == [] && FieldsTokens([], end) == end;
    assert FieldsTokens([SECOND_FIELD], end) == FieldTokens(SECOND_FIELD, end);
  }

  lemma EmptyEnd()
    ensures Text(Done, [[]]) == "" && Spaced(Done, [[]])
  {
  }

  lemma ExampleStart()
    ensures var s, mid := StructOpening([], "S", []), FieldTokens(FIRST_FIELD, Done);
      Length(s) == 2 && Length(mid) == 3 &&
      (forall k :: Join(s, Join(mid, k)) == W("S", S(LBrace, W("uint8", W("a", S(Semicolon, k)))))) &&
      |PreText(s, [[], []])| == 2 && |PreText(mid, [SETTING_COMMENT] + [BLANK, []])| == 19
  {
    hide GapText;
    ExampleGaps();
    var s, mid := StructOpening([], "S", []), FieldTokens(FIRST_FIELD, Done);
    assert FieldsTokens([], Done) == Done;
    assert s == W("S", S(LBrace, Done)) && mid == W("uint8", W("a", S(Semicolon, Done)));
    assert PreText(S(LBrace, Done), [[]]) == "{" && PreText(S(Semicolon, Done), [[]]) == ";";
    var none: Gap := [];
    assert [none, none][1..] == [none] && ([SETTING_COMMENT] + [BLANK, none])[1..] == [BLANK, none] && [BLANK, none][1..] == [none];
    assert PreText(W("a", S(Semicolon, Done)), [BLANK, []]) == " " + ("a" + ";");
    forall k
      ensures Join(s, Join(mid, k)) == W("S", S(LBrace, W("uint8", W("a", S(Semicolon, k)))))
    {
      JoinUnfolds(k);
      JoinUnfolds(Join(mid, k));
    }
  }

  lemma FieldText(comment: Gap, k: Stream, end: seq<Gap>)
    requires |end| == Length(k) + 1 && Spaced(k, end) && GapOk(comment)
    ensures var ts, gaps := W("uint8", W("a", S(Semicolon, k))), [comment] + ([BLANK] + ([[]] + end));
      Length(ts) == Length(k) + 3 && Spaced(ts, gaps) && Text(ts, gaps) == GapText(comment) + ("uint8" + (" a;" + Text(k, end)))
  {
    hide Text, Spaced, GapText, GapOk;
    ExampleGaps();
    var rest := Text(k, end);
    var t5 := S(Semicolon, k);
    MoreText(t5.head, k, [], end, "", ";", rest);
    assert "" + (";" + rest) == ";" + rest;
    var t4 := W("a", t5);
    MoreText(t4.head, t5, BLANK, [[]] + end, " ", "a", ";" + rest);
    assert " " + ("a" + (";" + rest)) == " a;" + rest;
    MoreText(Token(WordKind("uint8"), "uint8", 0), t4, comment, [BLANK] + ([[]] + end), GapText(comment), "uint8", " a;" + rest);
  }

  lemma ExampleField(k: Stream, end: seq<Gap>)
    requires |end| == Length(k) + 1 && Text(k, end) == "\nuint8 b;}" && Spaced(k, end)
    ensures var ts, gaps := W("uint8", W("a", S(Semicolon, k))), [SETTING_COMMENT] + ([BLANK] + ([[]] + end));
      Length(ts) == Length(k) + 3 && Spaced(ts, gaps) && Text(ts, gaps) == "\n//endian=\nuint8 a;\nuint8 b;}"
  {
    hide Text, Spaced, GapText, GapOk, WordKind;
    ExampleGaps();
    FieldText(SETTING_COMMENT, k, end);
    assert "uint8" + (" a;" + "\nuint8 b;}") == "uint8 a;\nuint8 b;}";
  }

  lemma BlockText(ts: Stream, gaps: seq<Gap>)
    requires |gaps| == Length(ts) + 1 && Spaced(ts, gaps)
    ensures var block := W("S", S(LBrace, ts));
      Length(block) == Length(ts) + 2 && Text(block, [[]] + ([[]] + gaps)) == "S{" + Text(ts, gaps) && Spaced(block, [[]] + ([[]] + gaps))
  {
    hide Text, Spaced, GapText, GapOk;
    var rest := Text(ts, gaps);
    assert GapText([]) == "" && GapOk([]) by { ExampleGaps(); }
    MoreText(Token(LBrace, "{", 0), ts, [], gaps, "", "{", rest);
    assert "" + ("{" + rest) == "{" + rest;
    MoreText(Token(WordKind("S"), "S", 0), S(LBrace, ts), [], [[]] + gaps, "", "S", "{" + rest);
    Associates("S", "{", rest);
  }

  lemma ExampleText(k: Stream, end: seq<Gap>)
    requires |end| == Length(k) + 1 && Text(k, end) == "\nuint8 b;}" && Spaced(k, end)
    ensures var ts, gaps := W("S", S(LBrace, W("uint8", W("a", S(Semicolon, k))))), [[]] + ([[]] + ([SETTING_COMMENT] + ([BLANK] + ([[]] + end))));
      Length(ts) == Length(k) + 5 && Text(ts, gaps) == LOSING_TEXT && Spaced(ts, gaps)
  {
    hide Text, Spaced, GapText, GapOk, WordKind;
    ExampleField(k, end);
    BlockText(W("uint8", W("a", S(Semicolon, k))), [SETTING_COMMENT] + ([BLANK] + ([[]] + end)));
  }

  /** A text from which rewriting takes a field. */
  lemma ExampleLost()
    ensures Rewrite(LOSING_TEXT, Big) == Some("S{\n//endian= big;\nuint8 b;}")
    ensures ParseSource(LOSING_TEXT).Ok? && ParseSource("S{\n//endian= big;\nuint8 b;}").Ok?
    ensures FieldLost(ParseSource(LOSING_TEXT).value, ParseSource("S{\n//endian= big;\nuint8 b;}").value, 0, 0)
    ensures ParseSource("S{\n//endian= big;\nuint8 b;}").value.mode == ParseSource(LOSING_TEXT).value.mode
  {
    hide Text, Spaced, PreText, GapText, GapOk, Find, SettingAt, ParseSource, ItemsOk, StructOpening, StructClosing, FieldLost, Join, FieldTokens, Rewrite;
    ExampleGaps();
    ExampleStart();
    ExampleEnd();
    var k, end := StructClosing([SECOND_FIELD], []), [LINE_END] + ([BLANK] + ([[]] + ([[]] + [[]])));
    ExampleText(k, end);
    ExampleRewritten();
    ExampleOk();
    var rest: seq<Gap> := [BLANK] + ([[]] + ([[]] + [[]]));
    assert LINE_END + [] == LINE_END && [] + ([FIRST_FIELD] + [SECOND_FIELD]) == [FIRST_FIELD, SECOND_FIELD];
    assert [[], []] + (([SETTING_COMMENT] + [BLANK, []]) + ([LINE_END + []] + rest)) ==
           [[]] + ([[]] + ([SETTING_COMMENT] + ([BLANK] + ([[]] + end))));
    assert GapText(SETTING_COMMENT)[9] == '=';
    FieldIsLost([], "S", [], FIRST_FIELD, [SECOND_FIELD], [], [[], []], SETTING_COMMENT, [BLANK, []], LINE_END, [], rest, 5, 9, Big);
    assert WithItems(EMPTY_DRAFT, []).structs == [];
  }

  lemma ExampleOk()
    ensures ItemsOk(EMPTY_DRAFT, WithStruct([], "S", [] + ([FIRST_FIELD] + [SECOND_FIELD]), []))
  {
    hide WithItem;
    var fs := [] + ([FIRST_FIELD] + [SECOND_FIELD]);
    assert fs == [FIRST_FIELD, SECOND_FIELD];
    var items := WithStruct([], "S", fs, []);
    assert items == [StructItem("S", fs)] && items[1..] == [];
    assert FieldOk(FIRST_FIELD) && FieldOk(SECOND_FIELD);
    assert ItemOk(EMPTY_DRAFT, items[0]);
  }

  lemma ExampleRewritten()
    ensures Find(LOSING_TEXT, "endian", 0) == Some(5) && SettingAt(LOSING_TEXT, 5) == Some((12, 20))
    ensures Rewrite(LOSING_TEXT, Big) == Some("S{\n//endian= big;\nuint8 b;}")
  {
    hide Find, SettingAt;
    hide Rewrite, Replaced;
    ExampleParts();
    SettingIsFound("S{\n//", "\nuint8 a", "\nuint8 b;}");
    RewriteReplaces(LOSING_TEXT, 5, 12, 20, Big);
    ReplacedBetween("S{\n//endian=", "\nuint8 a", ";\nuint8 b;}", Big);
  }

  lemma ExampleParts()
    ensures LOSING_TEXT == "S{\n//" + ("endian=" + ("\nuint8 a" + (";" + "\nuint8 b;}")))
    ensures LOSING_TEXT == "S{\n//endian=" + ("\nuint8 a" + ";\nuint8 b;}")
    ensures "S{\n//endian=" + (" " + OrderName(Big)) + ";\nuint8 b;}" == "S{\n//endian= big;\nuint8 b;}"
  {
    assert ";" + "\nuint8 b;}" == ";\nuint8 b;}";
    assert LOSING_TEXT == "S{\n//endian=" + ("\nuint8 a" + ";\nuint8 b;}") by { ExampleJoins(); }
    Associates("S{\n//", "endian=", "\nuint8 a" + ";\nuint8 b;}");
    assert "S{\n//" + "endian=" == "S{\n//endian=";
    assert "S{\n//endian=" + (" " + OrderName(Big)) + ";\nuint8 b;}" == "S{\n//endian= big;\nuint8 b;}" by { NewJoins(); }
  }

  lemma ExampleJoins()
    ensures LOSING_TEXT == "S{\n//endian=" + ("\nuint8 a" + ";\nuint8 b;}")
  {
  }

  lemma NewJoins()
    ensures "S{\n//endian=" + (" " + OrderName(Big)) + ";\nuint8 b;}" == "S{\n//endian= big;\nuint8 b;}"
  {
  }

  lemma ReplacedBetween(left: string, v: string, right: string, order: Endian)
    ensures Replaced(left + (v + right), |left|, |left| + |v|, order) == left + (" " + OrderName(order)) + right
  {
    hide OrderName;
    assert (left + (v + right))[..|left|] == left && (left + (v + right))[|left| + |v|..] == right;
    Associates(left, " ", OrderName(order));
  }
}
