/** Exactly when an inserted setting takes effect. */
module Insertion {
  import opened Pdef
  import opened Tokens
  import opened Spelling
  import opened TextSearch
  import opened Writeback
  import opened Matcher
  import opened Grammar
  import opened Syntax
  import opened Splice
  import opened Places
  import opened RoundTrip
  import opened Source
  import opened Reload
  import opened Elsewhere

  // ---------- Where the place of insertion can be ----------

  /** Behind a line end, or behind a brace after which no line ends: where a setting is inserted. */
  predicate Stop(text: string, at: int) {
    0 < at <= |text| && (text[at - 1] == '\n' || (text[at - 1] == '{' && '\n' !in text[at..]))
  }

  /** A place in the text of some tokens: inside a gap, or inside a literal. */
  datatype Locus =
    | InGap(s: Stream, before: seq<Gap>, left: Gap, right: Gap, k: Stream, after: seq<Gap>)
    | InLiteral(s: Stream, before: seq<Gap>, gap: Gap, x: string, y: string, k: Stream, after: seq<Gap>)

  function LiteralOf(text: string): Token { Token(StringLiteral, text, 0) }

  ghost predicate IsGapAt(l: Locus, ts: Stream, gaps: seq<Gap>, at: int)
    requires l.InGap?
  {
    |l.before| == Length(l.s) && |l.after| == Length(l.k) && ts == Join(l.s, l.k) &&
    gaps == l.before + ([l.left + l.right] + l.after) && at == |PreText(l.s, l.before)| + |GapText(l.left)|
  }

  ghost predicate IsLiteralAt(l: Locus, ts: Stream, gaps: seq<Gap>, at: int)
    requires l.InLiteral?
  {
    |l.before| == Length(l.s) && |l.after| == Length(l.k) + 1 && ts == Join(l.s, More(LiteralOf(l.x + l.y), l.k)) &&
    gaps == l.before + ([l.gap] + l.after) && !EndsInBackslash(l.x) &&
    at == |PreText(l.s, l.before)| + |GapText(l.gap)| + 1 + |Escaped(l.x)|
  }

  ghost predicate IsLocus(l: Locus, ts: Stream, gaps: seq<Gap>, at: int) {
    if l.InGap? then IsGapAt(l, ts, gaps, at) else IsLiteralAt(l, ts, gaps, at)
  }

  /** The same place behind one more token. */
  function Behind(t: Token, g: Gap, l: Locus): Locus { l.(s := More(t, l.s), before := [g] + l.before) }

  lemma BehindIs(t: Token, g: Gap, l: Locus, tail: Stream, gaps: seq<Gap>, at: int)
    requires IsLocus(l, tail, gaps, at)
    ensures IsLocus(Behind(t, g, l), More(t, tail), [g] + gaps, |GapText(g)| + |Spell(t)| + at)
  {
    hide GapText, Spell, Escaped;
    assert ([g] + l.before)[1..] == l.before;
    var more := if l.InGap? then [l.left + l.right] + l.after else [l.gap] + l.after;
    assert ([g] + l.before) + more == [g] + (l.before + more);
  }

  lemma StopSplits(a: string, b: string, at: int)
    requires Stop(a + b, at)
    ensures at <= |a| ==> Stop(a, at)
    ensures at > |a| ==> Stop(b, at - |a|)
  {
    var text := a + b;
    if at <= |a| {
      assert a[at - 1] == text[at - 1];
      forall i | at <= i < |a| && text[at - 1] == '{'
        ensures a[i] != '\n'
      {
        assert text[at..][i - at] == a[i];
      }
      assert forall i :: 0 <= i < |a| - at ==> a[at..][i] == a[at + i];
    } else {
      assert b[at - |a| - 1] == text[at - 1] && b[at - |a|..] == text[at..];
    }
  }

  lemma LineFollows(text: string, at: int, m: int)
    requires 0 <= at <= m < |text| && text[m] == '\n'
    ensures '\n' in text[at..]
  {
    assert text[at..][m - at] == text[m];
  }

  lemma GapStop(g: Gap, at: int) returns (left: Gap, right: Gap)
    requires GapOk(g) && Stop(GapText(g), at)
    ensures g == left + right && |GapText(left)| == at
  {
    hide GapText;
    if GapText(g)[at - 1] == '{' {
      var m := BraceInGap(g, at - 1);
      LineFollows(GapText(g), at, m);
    }
    left, right := SplitGap(g, at);
  }

  /** A character of an escaped text that is not escaped. */
  lemma {:induction false} EscapedSplits(text: string, j: nat) returns (n: nat)
    requires j < |Escaped(text)| && Escaped(text)[j] != '"' && Escaped(text)[j] != '\\'
    ensures n < |text| && text[n] == Escaped(text)[j] && |Escaped(text[..n + 1])| == j + 1
    decreases |text|
  {
    var e := Escape(text[0]);
    assert Escaped(text) == e + Escaped(text[1..]);
    if j < |e| {
      n := 0;
      assert text[..1] == [text[0]] && [text[0]][1..] == "";
    } else {
      assert Escaped(text)[j] == Escaped(text[1..])[j - |e|];
      var m := EscapedSplits(text[1..], j - |e|);
      n := m + 1;
      assert text[..n + 1] == [text[0]] + text[1..][..m + 1];
      assert text[..n + 1][1..] == text[1..][..m + 1];
    }
  }

  /** Inside a token the place is behind a brace or in a literal. */
  lemma TokenStop(t: Token, i: nat)
    requires Spellable(t) && i < |Spell(t)| && (Spell(t)[i] == '\n' || Spell(t)[i] == '{')
    ensures (t == Token(LBrace, "{", 0) && i == 0) || (StringToken(t) && 0 < i < |Spell(t)| - 1)
  {
    hide Escaped, WordKind, Numeral, Word, Symbol, WithEquals, LiteralText;
    KindsApart(t);
    if SymbolToken(t) {
      SymbolStop(t, i);
    } else if StringToken(t) {
      assert Spell(t)[|Spell(t)| - 1] == '"';
    } else {
      PlainStop(t, i);
    }
  }

  lemma SymbolStop(t: Token, i: nat)
    requires SymbolToken(t) && i < |t.text| && (t.text[i] == '\n' || t.text[i] == '{')
    ensures t == Token(LBrace, "{", 0) && i == 0
  {
  }

  lemma PlainStop(t: Token, i: nat)
    requires WordToken(t) || NumberToken(t) || KeywordToken(t)
    requires i < |Spell(t)|
    ensures Spell(t)[i] != '\n' && Spell(t)[i] != '{'
  {
    hide WordKind, KeywordKind, Numeral;
    if KeywordToken(t) {
      if i > 0 {
        assert Spell(t)[i] == t.text[i - 1] && t.text[i - 1] in t.text;
      }
    } else {
      assert Spell(t) == t.text by { PlainSpelled(t); }
      assert t.text[i] in t.text;
    }
  }

  lemma PlainSpelled(t: Token)
    requires WordToken(t) || NumberToken(t)
    ensures Spell(t) == t.text
  {
    if WordToken(t) {
      KindsApart(t);
    }
  }

  lemma LiteralStop(t: Token, i: nat) returns (x: string, y: string)
    requires StringToken(t) && 0 < i < |Spell(t)| - 1 && (Spell(t)[i] == '\n' || Spell(t)[i] == '{')
    ensures t == LiteralOf(x + y) && !EndsInBackslash(x) && i == |Escaped(x)|
  {
    hide Escaped;
    assert Spell(t)[i] == Escaped(t.text)[i - 1];
    var n := EscapedSplits(t.text, i - 1);
    x, y := t.text[..n + 1], t.text[n + 1..];
    assert x + y == t.text;
  }

  /** Every place of insertion in the text of a definition is in a gap or in a literal. */
  lemma {:induction false} Locate(ts: Stream, gaps: seq<Gap>, at: int) returns (l: Locus)
    requires AllWritable(ts) && |gaps| == Length(ts) + 1 && Spaced(ts, gaps) && Stop(Text(ts, gaps), at)
    ensures IsLocus(l, ts, gaps, at)
    decreases ts
  {
    hide Spell, GapText, Stop, GapOk, Breaks, Escaped, IsLocus;
    var g := gaps[0];
    assert gaps == [g] + gaps[1..];
    if ts.Done? {
      l := LocateInGap(ts, g, gaps[1..], at);
    } else {
      var t, rest := ts.head, Text(ts.tail, gaps[1..]);
      StopSplits(GapText(g), Spell(t) + rest, at);
      if at <= |GapText(g)| {
        l := LocateInGap(ts, g, gaps[1..], at);
      } else {
        var at1 := at - |GapText(g)|;
        StopSplits(Spell(t), rest, at1);
        if at1 <= |Spell(t)| {
          l := LocateInToken(t, ts.tail, g, gaps[1..], at1);
        } else {
          var l1 := Locate(ts.tail, gaps[1..], at1 - |Spell(t)|);
          l := Behind(t, g, l1);
          BehindIs(t, g, l1, ts.tail, gaps[1..], at1 - |Spell(t)|);
        }
      }
    }
  }

  lemma LocateInGap(ts: Stream, g: Gap, gaps: seq<Gap>, at: int) returns (l: Locus)
    requires GapOk(g) && Stop(GapText(g), at) && |gaps| == Length(ts)
    ensures IsLocus(l, ts, [g] + gaps, at)
  {
    hide GapText, GapOk, Stop;
    var left, right := GapStop(g, at);
    l := InGap(Done, [], left, right, ts, gaps);
    assert [g] + gaps == [] + ([left + right] + gaps);
  }

  lemma LocateInToken(t: Token, tail: Stream, g: Gap, gaps: seq<Gap>, at: int) returns (l: Locus)
    requires Writable(t) && |gaps| == Length(tail) + 1 && Stop(Spell(t), at)
    ensures IsLocus(l, More(t, tail), [g] + gaps, |GapText(g)| + at)
  {
    hide GapText, Escaped, StringToken, WordToken, NumberToken, KeywordToken, SymbolToken;
    hide Spell;
    TokenStop(t, at - 1);
    if t == Token(LBrace, "{", 0) {
      l := InGap(More(t, Done), [g], [], gaps[0], tail, gaps[1..]);
      assert [] + gaps[0] == gaps[0];
      assert [g] + gaps == [g] + ([[] + gaps[0]] + gaps[1..]);
      assert |Spell(t)| == 1 by { BraceSpelled(); }
      assert GapText([]) == "" by { BlankTexts(); }
      assert [g][1..] == [] && PreText(l.s, [g]) == GapText(g) + (Spell(t) + "");
      assert Length(l.s) == 1 + Length(Done) && Join(l.s, tail) == More(t, Join(Done, tail));
      assert IsGapAt(l, More(t, tail), [g] + gaps, |GapText(g)| + at);
    } else {
      var x, y := LiteralStop(t, at - 1);
      l := InLiteral(Done, [], g, x, y, tail, gaps);
      assert [] + ([g] + gaps) == [g] + gaps && PreText(Done, []) == "";
      assert IsLiteralAt(l, More(t, tail), [g] + gaps, |GapText(g)| + at);
    }
  }

  lemma BraceSpelled()
    ensures Spell(Token(LBrace, "{", 0)) == "{"
  {
  }

  // ---------- No word "endian" in the text, none among its tokens ----------

  lemma {:induction false} WordIsWritten(ts: Stream, gaps: seq<Gap>) returns (i: nat)
    requires |gaps| == Length(ts) + 1 && !NoWord(ts)
    ensures OccursAt(Text(ts, gaps), "endian", i)
  {
    hide GapText;
    var t, rest := ts.head, Text(ts.tail, gaps[1..]);
    var start := GapText(gaps[0]);
    var text := start + (Spell(t) + rest);
    if IsWord(t, "endian") {
      i := |start|;
      assert text[i..] == Spell(t) + rest;
      assert text[i..i + 6] == text[i..][..6] == "endian";
    } else {
      var j := WordIsWritten(ts.tail, gaps[1..]);
      i := |start| + |Spell(t)| + j;
      assert text[i..i + 6] == rest[j..j + 6];
    }
  }

  lemma NoWordWritten(ts: Stream, gaps: seq<Gap>)
    requires |gaps| == Length(ts) + 1 && Find(Text(ts, gaps), "endian", 0).None?
    ensures NoWord(ts)
  {
    hide Find, Text;
    if !NoWord(ts) {
      var i := WordIsWritten(ts, gaps);
    }
  }

  // ---------- In a gap ----------

  lemma {:induction false} SpellableJoins(s: Stream, k: Stream)
    ensures AllSpellable(Join(s, k)) <==> AllSpellable(s) && AllSpellable(k)
  {
    if s.More? {
      SpellableJoins(s.tail, k);
    }
  }

  lemma SettingSpellable(order: Endian, k: Stream)
    requires AllSpellable(k)
    ensures AllSpellable(Setting(order, k))
  {
    hide AllSpellable, Word, WordKind;
    SettingsSpellable();
    PiecesSpellable();
  }

  /** A setting in a gap takes effect between two entries only. */
  lemma InGapReads(items: seq<Item>, s: Stream, k: Stream, before: seq<Gap>, left: Gap, right: Gap, after: seq<Gap>, order: Endian)
    returns (a: Around)
    requires ItemsOk(EMPTY_DRAFT, items) && ItemsTokens(items) == Join(s, k) && NoWord(Join(s, k))
    requires |before| == Length(s) && |after| == Length(k) && Spaced(Join(s, k), before + ([left + right] + after))
    ensures var text, at := Text(Join(s, k), before + ([left + right] + after)), |PreText(s, before)| + |GapText(left)|;
      at <= |text| &&
      (ParseSource(Inserted(text, at, order)).Ok? && ParseSource(Inserted(text, at, order)).value.mode != ModeAuto ==>
        With(a, []) == items && Opening(a) == s && Closing(a) == k)
  {
    hide ItemsOk, ItemsTokens, Join, Text, PreText, GapText, Inserted, Spaced, NoWord, AllWritable, AllSpellable, Setting, Widened;
    hide At, Start, ParseItems, With, Opening, Closing, Yields;
    TextInserted(s, k, before, left, right, after, order);
    InsertedSpaced(s, k, before, left, right, after, order);
    ItemsWritable(EMPTY_DRAFT, items);
    WritableSpellable(ItemsTokens(items));
    SpellableJoins(s, k);
    SettingSpellable(order, k);
    SpellableJoins(s, Setting(order, k));
    var ts, gaps := Join(s, Setting(order, k)), Widened(before, left, right, after);
    WidenedLength(before, left, right, after);
    LexText(ts, gaps);
    AtStart(Text(ts, gaps), ts);
    a := OnlyThere(Start(Text(ts, gaps)), EMPTY_DRAFT, items, s, k, order);
  }

  lemma WidenedLength(before: seq<Gap>, left: Gap, right: Gap, after: seq<Gap>)
    ensures |Widened(before, left, right, after)| == |before| + |after| + 5
  {
  }

  // ---------- In a literal ----------

  function SettingLine(order: Endian): string { "    endian = " + OrderName(order) + ";\n" }

  lemma {:induction false} EscapedJoins(x: string, y: string)
    ensures Escaped(x + y) == Escaped(x) + Escaped(y)
  {
    if x == "" {
      assert x + y == y;
    } else {
      assert (x + y)[1..] == x[1..] + y;
      EscapedJoins(x[1..], y);
      Associates(Escape(x[0]), Escaped(x[1..]), Escaped(y));
    }
  }

  lemma {:induction false} NothingToEscape(text: string)
    requires '"' !in text
    ensures Escaped(text) == text
  {
    if text != "" {
      assert text == [text[0]] + text[1..];
      NothingToEscape(text[1..]);
    }
  }

  lemma LineIsPlain(order: Endian)
    ensures '"' !in SettingLine(order) && '\0' !in SettingLine(order) && |SettingLine(order)| <= 21
    ensures SettingLine(order) != "" && SettingLine(order)[|SettingLine(order)| - 1] == '\n'
  {
  }

  lemma WiderLiteral(x: string, y: string, order: Endian)
    requires LiteralText(x + y) && |x + y| <= NAME_ROOM
    ensures LiteralText(x + (SettingLine(order) + y))
    ensures Escaped(x + (SettingLine(order) + y)) == Escaped(x) + (SettingLine(order) + Escaped(y))
  {
    hide SettingLine, Escaped;
    LineIsPlain(order);
    EscapedJoins(x, SettingLine(order) + y);
    EscapedJoins(SettingLine(order), y);
    NothingToEscape(SettingLine(order));
    var text := x + (SettingLine(order) + y);
    assert forall c :: c in text <==> c in x || c in SettingLine(order) || c in y;
    assert forall c :: c in x + y <==> c in x || c in y;
    if y == "" {
      assert text[|text| - 1] == SettingLine(order)[|SettingLine(order)| - 1];
    } else {
      assert text[|text| - 1] == y[|y| - 1] == (x + y)[|x + y| - 1];
    }
  }

  /** The text around a literal. */
  lemma LiteralAround(s: Stream, k: Stream, before: seq<Gap>, gap: Gap, text: string, after: seq<Gap>)
    requires |before| == Length(s) && |after| == Length(k) + 1
    ensures Text(Join(s, More(LiteralOf(text), k)), before + ([gap] + after)) ==
            PreText(s, before) + (GapText(gap) + (("\"" + Escaped(text) + "\"") + Text(k, after)))
  {
    hide Text, PreText, GapText, Escaped;
    TextJoins(s, More(LiteralOf(text), k), before, [gap] + after);
    TextUnfolds(LiteralOf(text), k, gap, after);
  }

  lemma LiteralWidened(pre: string, gap: string, ex: string, ey: string, end: string, order: Endian)
    ensures var text, at := pre + (gap + (("\"" + (ex + ey) + "\"") + end)), |pre| + |gap| + 1 + |ex|;
      at <= |text| &&
      Inserted(text, at, order) == pre + (gap + (("\"" + (ex + (SettingLine(order) + ey)) + "\"") + end))
  {
    hide OrderName, Inserted;
    var line := SettingLine(order);
    var left, right := pre + gap + "\"" + ex, ey + "\"" + end;
    Quoted(pre, gap, ex, ey, end);
    Quoted(pre, gap, ex, line + ey, end);
    InsertedBetween(left, right, order);
    Associates(line, ey, "\"");
    Associates(line, ey + "\"", end);
  }

  lemma Quoted(pre: string, gap: string, ex: string, ey: string, end: string)
    ensures pre + (gap + (("\"" + (ex + ey) + "\"") + end)) == (pre + gap + "\"" + ex) + (ey + "\"" + end)
  {
    Associates("\"", ex, ey);
    Associates("\"" + ex, ey, "\"");
    Associates("\"" + ex, ey + "\"", end);
    Associates("\"", ex, ey + "\"" + end);
    Associates(gap, "\"", ex + (ey + "\"" + end));
    Associates(pre, gap + "\"", ex + (ey + "\"" + end));
    Associates(pre, gap, "\"");
    Associates(pre + gap + "\"", ex, ey + "\"" + end);
  }

  lemma LiteralSpaced(s: Stream, k: Stream, before: seq<Gap>, gap: Gap, text: string, text': string, after: seq<Gap>)
    requires |before| == Length(s) && |after| == Length(k) + 1
    requires Spaced(Join(s, More(LiteralOf(text), k)), before + ([gap] + after))
    ensures Spaced(Join(s, More(LiteralOf(text'), k)), before + ([gap] + after))
  {
    hide Text, GapText, Escaped, Spaced, GapOk, PreSpaced;
    SpacedJoins(s, More(LiteralOf(text), k), before, [gap] + after);
    SpacedJoins(s, More(LiteralOf(text'), k), before, [gap] + after);
    SpacedUnfolds(LiteralOf(text), k, gap, after);
    SpacedUnfolds(LiteralOf(text'), k, gap, after);
    LiteralHead(k, gap, text, after);
    LiteralHead(k, gap, text', after);
  }

  lemma LiteralHead(k: Stream, gap: Gap, text: string, after: seq<Gap>)
    requires |after| == Length(k) + 1
    ensures Head(Text(More(LiteralOf(text), k), [gap] + after)) == Head(GapText(gap) + "\"")
  {
    hide Text, GapText, Escaped;
    TextUnfolds(LiteralOf(text), k, gap, after);
    assert Spell(LiteralOf(text)) + Text(k, after) == "\"" + ((Escaped(text) + "\"") + Text(k, after));
  }

  /** A setting in a literal is part of the literal, and the mode stays what it was. */
  lemma InLiteralReads(l: Locus, order: Endian)
    requires l.InLiteral? && |l.before| == Length(l.s) && |l.after| == Length(l.k) + 1
    requires var ts := Join(l.s, More(LiteralOf(l.x + l.y), l.k));
      AllWritable(ts) && NoWord(ts) && Spaced(ts, l.before + ([l.gap] + l.after))
    ensures var text := Text(Join(l.s, More(LiteralOf(l.x + l.y), l.k)), l.before + ([l.gap] + l.after));
      var at := |PreText(l.s, l.before)| + |GapText(l.gap)| + 1 + |Escaped(l.x)|;
      at <= |text| &&
      (ParseSource(Inserted(text, at, order)).Ok? ==> ParseSource(Inserted(text, at, order)).value.mode == ModeAuto)
  {
    hide Join, Text, PreText, GapText, Inserted, Spaced, NoWord, AllWritable, AllSpellable, Escaped, SettingLine, LiteralText;
    hide At, Start, ParseItems, Yields;
    var wider := l.x + (SettingLine(order) + l.y);
    var ts := Join(l.s, More(LiteralOf(wider), l.k));
    var gaps := l.before + ([l.gap] + l.after);
    LiteralReplaced(l.s, l.k, l.x, l.y, order);
    LiteralAround(l.s, l.k, l.before, l.gap, l.x + l.y, l.after);
    LiteralAround(l.s, l.k, l.before, l.gap, wider, l.after);
    EscapedJoins(l.x, l.y);
    LiteralWidened(PreText(l.s, l.before), GapText(l.gap), Escaped(l.x), Escaped(l.y), Text(l.k, l.after), order);
    LiteralSpaced(l.s, l.k, l.before, l.gap, l.x + l.y, wider, l.after);
    LexText(ts, gaps);
    AtStart(Text(ts, gaps), ts);
    NoWordAhead(Start(Text(ts, gaps)), ts);
    if ParseSource(Text(ts, gaps)).Ok? {
      ItemsKeepMode(Start(Text(ts, gaps)), EMPTY_DRAFT);
    }
  }

  lemma LiteralReplaced(s: Stream, k: Stream, x: string, y: string, order: Endian)
    requires AllWritable(Join(s, More(LiteralOf(x + y), k))) && NoWord(Join(s, More(LiteralOf(x + y), k)))
    ensures var wider := x + (SettingLine(order) + y);
      Escaped(wider) == Escaped(x) + (SettingLine(order) + Escaped(y)) &&
      AllSpellable(Join(s, More(LiteralOf(wider), k))) && NoWord(Join(s, More(LiteralOf(wider), k)))
  {
    hide Escaped, SettingLine, LiteralText, AllWritable;
    var lit := More(LiteralOf(x + y), k);
    WritableSpellable(Join(s, lit));
    SpellableJoins(s, lit);
    NoWordJoins(s, lit);
    LiteralWritable(s, x + y, k);
    WiderLiteral(x, y, order);
    var lit' := More(LiteralOf(x + (SettingLine(order) + y)), k);
    SpellableJoins(s, lit');
    NoWordJoins(s, lit');
  }

  lemma {:induction false} LiteralWritable(s: Stream, text: string, k: Stream)
    requires AllWritable(Join(s, More(LiteralOf(text), k)))
    ensures LiteralText(text) && |text| <= NAME_ROOM
  {
    hide LiteralText;
    if s.More? {
      LiteralWritable(s.tail, text, k);
    } else {
      assert Writable(LiteralOf(text));
    }
  }

  // ---------- Exactly when ----------

  /** The place where a setting is inserted into the text is between two entries of a @protocol block of the
      definition, before the first or behind the last. */
  ghost predicate BetweenEntries(items: seq<Item>, text: string) {
    exists a: Around, sp: Spacing :: With(a, []) == items && Fits(sp, a) && TextOf(a, sp) == text && InsertsHere(a, sp)
  }

  lemma InsertionStops(text: string, order: Endian)
    requires Find(text, "endian", 0).None? && InsertAt(text).Some?
    ensures Stop(text, InsertAt(text).value) && Rewrite(text, order) == Some(Inserted(text, InsertAt(text).value, order))
  {
  }

  /** Nothing else in the definition sets the byte order. */
  lemma SilentElsewhere(a: Around)
    requires NoWord(ItemsTokens(With(a, [])))
    ensures SilentAround(a)
  {
    hide NoWord, ItemsTokens, Silent, SilentEntries;
    var items := With(a, []);
    SilentDefinition(items);
    var item := ProtocolItem(a.first + ([] + a.last));
    assert items == a.before + ([item] + a.after);
    assert item in [item] + a.after && item in items;
    assert forall x :: x in a.after ==> x in [item] + a.after && x in items;
    SilentParts(item, a.first, a.last);
  }

  lemma SilentParts(item: Item, first: seq<Metadata>, last: seq<Metadata>)
    requires Silent(item) && item == ProtocolItem(first + ([] + last))
    ensures SilentEntries(first) && SilentEntries(last)
  {
    assert forall m :: m in first || m in last ==> m in first + ([] + last);
  }

  /** Between two entries the setting takes effect. */
  lemma BetweenTakesEffect(items: seq<Item>, text: string, order: Endian)
    requires ItemsOk(EMPTY_DRAFT, items) && NoWord(ItemsTokens(items)) && BetweenEntries(items, text)
    ensures Rewrite(text, order).Some? && ParseSource(Rewrite(text, order).value).Ok?
    ensures ParseSource(Rewrite(text, order).value).value.mode == ModeOf(order)
  {
    hide ItemsOk, NoWord, ItemsTokens, With, Fits, TextOf, InsertsHere, Rewrite, ParseSource, WithItems, SilentAround;
    var a: Around, sp: Spacing :|
      With(a, []) == items && Fits(sp, a) && TextOf(a, sp) == text && InsertsHere(a, sp);
    InsertedIsRead(a, sp, order);
    SilentElsewhere(a);
    SettingTakesEffect(a, order);
  }

  lemma GapIsBetween(items: seq<Item>, l: Locus, a: Around, gaps: seq<Gap>)
    requires |gaps| == Length(ItemsTokens(items)) + 1 && Spaced(ItemsTokens(items), gaps)
    requires Find(Text(ItemsTokens(items), gaps), "endian", 0).None? && InsertAt(Text(ItemsTokens(items), gaps)).Some?
    requires l.InGap? && IsGapAt(l, ItemsTokens(items), gaps, InsertAt(Text(ItemsTokens(items), gaps)).value)
    requires With(a, []) == items && Opening(a) == l.s && Closing(a) == l.k
    ensures BetweenEntries(items, Text(ItemsTokens(items), gaps))
  {
    hide ItemsTokens, Spaced, Text, Find, InsertAt, With, Opening, Closing, GapText, PreText, Join;
    var sp := Spacing(l.before, l.left + l.right, l.after);
    assert Fits(sp, a);
    GapTextJoins(l.left, l.right);
    assert InsertsHere(a, sp);
  }

  /** For every text that has no "endian" and a place to insert: writing an order into it succeeds, and what is read
      from the new text is in that order's mode if and only if the place is between two entries of a @protocol block.
      Everywhere else the new text cannot be parsed, or is still in mode auto. */
  lemma InsertionExactly(items: seq<Item>, gaps: seq<Gap>, order: Endian)
    requires ItemsOk(EMPTY_DRAFT, items)
    requires |gaps| == Length(ItemsTokens(items)) + 1 && Spaced(ItemsTokens(items), gaps)
    requires Find(Text(ItemsTokens(items), gaps), "endian", 0).None? && InsertAt(Text(ItemsTokens(items), gaps)).Some?
    ensures var text := Text(ItemsTokens(items), gaps);
      Rewrite(text, order).Some? &&
      (var r := ParseSource(Rewrite(text, order).value);
        (r.Ok? && r.value.mode == ModeOf(order) <==> BetweenEntries(items, text)) &&
        (!BetweenEntries(items, text) ==> r.Err? || r.value.mode == ModeAuto))
  {
    hide ItemsOk, ItemsTokens, Spaced, Text, Find, InsertAt, BetweenEntries, Rewrite, ParseSource, Stop, NoWord, IsLocus;
    var text := Text(ItemsTokens(items), gaps);
    NoWordWritten(ItemsTokens(items), gaps);
    InsertionStops(text, order);
    ElsewhereFails(items, gaps, order);
    if BetweenEntries(items, text) {
      BetweenTakesEffect(items, text, order);
    }
  }

  lemma ElsewhereFails(items: seq<Item>, gaps: seq<Gap>, order: Endian)
    requires ItemsOk(EMPTY_DRAFT, items) && NoWord(ItemsTokens(items))
    requires |gaps| == Length(ItemsTokens(items)) + 1 && Spaced(ItemsTokens(items), gaps)
    requires Find(Text(ItemsTokens(items), gaps), "endian", 0).None? && InsertAt(Text(ItemsTokens(items), gaps)).Some?
    ensures var text := Text(ItemsTokens(items), gaps);
      var r := ParseSource(Inserted(text, InsertAt(text).value, order));
      !BetweenEntries(items, text) ==> r.Err? || r.value.mode == ModeAuto
  {
    hide ItemsOk, ItemsTokens, Spaced, Text, Find, InsertAt, BetweenEntries, Rewrite, ParseSource, Stop, NoWord, With, Opening, Closing;
    hide PreText, GapText, Join, Escaped, Inserted;
    var text := Text(ItemsTokens(items), gaps);
    InsertionStops(text, order);
    ItemsWritable(EMPTY_DRAFT, items);
    var l := Locate(ItemsTokens(items), gaps, InsertAt(text).value);
    if l.InGap? {
      var a := InGapReads(items, l.s, l.k, l.before, l.left, l.right, l.after, order);
      if With(a, []) == items && Opening(a) == l.s && Closing(a) == l.k {
        GapIsBetween(items, l, a, gaps);
      }
    } else {
      InLiteralReads(l, order);
    }
  }
}
