/** Writing tokens as source text, with any spaces and comments between them, and reading them back. */
module Spelling {
  import opened Pdef
  import opened Tokens

  /** The tokens of a source text, without the end of file. */
  datatype Stream = Done | More(head: Token, tail: Stream)

  // ---------- Blanks ----------

  datatype Blank = Space(c: char) | Comment(text: string)

  type Gap = seq<Blank>

  predicate BlankOk(b: Blank) {
    match b
    case Space(c) => IsSpace(c)
    case Comment(text) => '\n' !in text && '\0' !in text
  }

  ghost predicate GapOk(g: Gap) { forall b :: b in g ==> BlankOk(b) }

  function BlankText(b: Blank): string {
    match b
    case Space(c) => [c]
    case Comment(text) => "//" + text + "\n"
  }

  function GapText(g: Gap): string {
    if g == [] then "" else BlankText(g[0]) + GapText(g[1..])
  }

  lemma {:induction false} CommentEnds(text: string, s: string)
    requires '\n' !in text && '\0' !in text
    ensures AfterComment(text + "\n" + s) == "\n" + s
  {
    var t := text + "\n" + s;
    if text == "" {
      assert t == "\n" + s;
    } else {
      assert t[1..] == text[1..] + "\n" + s;
      assert t[0] == text[0] && text[0] in text;
      CommentEnds(text[1..], s);
    }
  }

  lemma SkipBlank(b: Blank, s: string)
    requires BlankOk(b)
    ensures SkipBlanks(BlankText(b) + s) == SkipBlanks(s)
  {
    var t := BlankText(b) + s;
    match b {
      case Space(c) =>
        assert t[1..] == s;
      case Comment(text) =>
        assert t[1..] == ['/'] + (text + "\n" + s);
        assert t[1..][1..] == text + "\n" + s;
        CommentEnds(text, s);
        assert AfterComment(t[1..]) == "\n" + s;
        assert ("\n" + s)[1..] == s;
    }
  }

  /** Spaces and comments before a token do not matter. */
  lemma {:induction false} SkipGap(g: Gap, s: string)
    requires GapOk(g)
    ensures SkipBlanks(GapText(g) + s) == SkipBlanks(s)
  {
    hide SkipBlanks;
    if g == [] {
      assert GapText(g) + s == s;
    } else {
      assert GapText(g) + s == BlankText(g[0]) + (GapText(g[1..]) + s);
      SkipBlank(g[0], GapText(g[1..]) + s);
      SkipGap(g[1..], s);
    }
  }

  // ---------- Spelling of one token ----------

  function Escape(c: char): string { if c == '"' then "\\\"" else [c] }

  /** A string literal's text, with its quotes escaped. */
  function Escaped(text: string): string {
    if text == "" then "" else Escape(text[0]) + Escaped(text[1..])
  }

  function Spell(t: Token): string {
    match t.kind
    case StringLiteral => "\"" + Escaped(t.text) + "\""
    case ProtocolWord | ConstWord | FilterWord => "@" + t.text
    case _ => t.text
  }

  predicate Word(text: string) {
    0 < |text| <= 255 && IsAlpha(text[0]) && forall c :: c in text ==> IsAlnum(c)
  }

  predicate WordToken(t: Token) {
    Word(t.text) && t.kind == WordKind(t.text) && t.value == 0
  }

  predicate NumberToken(t: Token) {
    t.kind.Number? && 0 < |t.text| <= 255 && (forall c :: c in t.text ==> IsDigit(c)) &&
    t.value == DecimalValue(t.text)
  }

  /** A literal that ends in a backslash has no spelling: the closing quote would be read as part of it. */
  predicate StringToken(t: Token) {
    t.kind.StringLiteral? && t.value == 0 && LiteralText(t.text)
  }

  predicate LiteralText(text: string) {
    |text| <= 255 && '\0' !in text && !EndsInBackslash(text)
  }

  predicate EndsInBackslash(text: string) { text != "" && text[|text| - 1] == '\\' }

  predicate KeywordToken(t: Token) {
    (t.kind.ProtocolWord? || t.kind.ConstWord? || t.kind.FilterWord?) &&
    Word(t.text) && t.kind == KeywordKind(t.text) && t.value == 0
  }

  predicate SymbolToken(t: Token) {
    t.value == 0 &&
    if |t.text| == 1 then Symbol(t.text[0]) == Some(t.kind)
    else |t.text| == 2 && t.text[1] == '=' && WithEquals(t.text[0]) == Some(t.kind)
  }

  predicate Spellable(t: Token) {
    WordToken(t) || NumberToken(t) || StringToken(t) || KeywordToken(t) || SymbolToken(t)
  }

  /** Whether character c after the token does not run into it. */
  predicate Breaks(t: Token, c: char) {
    match t.kind
    case StringLiteral => true
    case Assign | Bang | Less | Greater => c != '='
    case EqualEqual | NotEqual | LessEqual | GreaterEqual => true
    case LBrace | RBrace | LBracket | RBracket | Semicolon | Comma | Dot | Ampersand | VerticalBar => true
    case _ => !IsAlnum(c)
  }

  lemma {:induction false} SpanStops(text: string, s: string, class_: CharClass)
    requires |text| <= TEXT_ROOM && (forall c :: c in text ==> InClass(c, class_)) && !InClass(Head(s), class_)
    ensures Span(text + s, class_, TEXT_ROOM) == |text|
    ensures (text + s)[..|text|] == text && (text + s)[|text|..] == s
  {
    forall i | 0 <= i < |text|
      ensures InClass((text + s)[i], class_)
    {
      assert text[i] in text;
    }
    SpanIs(text + s, class_, TEXT_ROOM, |text|);
  }

  lemma ScanWordSpelled(t: Token, s: string)
    requires WordToken(t) && !IsAlnum(Head(s))
    ensures ScanHere(t.text + s) == Scanned(t, s, None)
  {
    hide WordKind;
    SpanStops(t.text, s, Alnum);
    assert t.text[0] == (t.text + s)[0];
  }

  lemma ScanNumberSpelled(t: Token, s: string)
    requires NumberToken(t) && !IsAlnum(Head(s))
    ensures ScanHere(t.text + s) == Scanned(t, s, None)
  {
    hide Numeral;
    var all := t.text + s;
    SpanStops(t.text, s, Digits);
    assert t.text[0] in t.text && t.text[0] == all[0];
    if |t.text| == 1 {
      assert all[1..] == s;
    } else {
      assert all[1..][0] == t.text[1] && t.text[1] in t.text;
    }
  }

  lemma QuoteStep(tail: string)
    ensures var all := "\\\"" + tail;
      StringChar(all) == '"' && StringStep(all) == 2 && all[2..] == tail
  {
    var all := "\\\"" + tail;
    assert all[1..] == ['"'] + tail;
  }

  lemma PlainStep(c: char, tail: string)
    requires c == '\\' ==> Head(tail) != '"'
    ensures var all := [c] + tail;
      StringChar(all) == c && StringStep(all) == 1 && all[1..] == tail
  {
    assert ([c] + tail)[1..] == tail;
  }

  lemma EscapedHead(text: string, s: string)
    requires text != ""
    ensures Head(Escaped(text) + s) == if text[0] == '"' then '\\' else text[0]
  {
  }

  lemma Associates(a: string, b: string, c: string)
    ensures (a + b) + c == a + (b + c)
  {
  }

  lemma EscapedUnfolds(text: string)
    requires text != ""
    ensures Escaped(text) == Escape(text[0]) + Escaped(text[1..])
  {
  }

  lemma EscapedStep(text: string, s: string)
    requires text != "" && '\0' !in text && s != "" && s[0] == '"'
    requires text[0] == '\\' ==> |text| > 1
    ensures var all := Escaped(text) + s;
      all != "" && Head(all) != '"' && Head(all) != '\0' &&
      StringChar(all) == text[0] && all[StringStep(all)..] == Escaped(text[1..]) + s
  {
    hide StringChar, StringStep, Escaped;
    var c := text[0];
    var tail := Escaped(text[1..]) + s;
    assert c in text;
    EscapedHead(text, s);
    assert Escaped(text) == Escape(c) + Escaped(text[1..]) by { EscapedUnfolds(text); }
    Associates(Escape(c), Escaped(text[1..]), s);
    if c == '"' {
      QuoteStep(tail);
    } else {
      if |text| > 1 {
        EscapedHead(text[1..], s);
      }
      PlainStep(c, tail);
    }
  }

  /** The first character of an escaped text is read back, and the rest is left to read. */
  lemma EscapedFirst(text: string, s: string, room: nat)
    requires text != "" && '\0' !in text && s != "" && s[0] == '"'
    requires text[0] == '\\' ==> |text| > 1
    requires room > 0
    ensures var r := StringText(Escaped(text[1..]) + s, room - 1);
      StringText(Escaped(text) + s, room) == ([text[0]] + r.0, r.1)
  {
    hide StringChar, StringStep, Escaped;
    EscapedStep(text, s);
  }

  lemma {:induction false} EscapedRead(text: string, s: string, room: nat)
    requires |text| <= room && '\0' !in text && !EndsInBackslash(text) && s != "" && s[0] == '"'
    ensures StringText(Escaped(text) + s, room) == (text, s)
    decreases |text|
  {
    if text == "" {
      assert Escaped(text) + s == s;
    } else {
      hide StringText, Escaped;
      EscapedFirst(text, s, room);
      assert '\0' !in text[1..];
      EscapedRead(text[1..], s, room - 1);
      assert text == [text[0]] + text[1..];
    }
  }

  lemma ScanStringSpelled(t: Token, s: string)
    requires StringToken(t)
    ensures ScanHere(Spell(t) + s) == Scanned(t, s, None)
  {
    hide StringText, Escaped;
    var all := Spell(t) + s;
    assert all == ['"'] + (Escaped(t.text) + ("\"" + s));
    assert all[1..] == Escaped(t.text) + ("\"" + s);
    EscapedRead(t.text, "\"" + s, TEXT_ROOM);
    assert ("\"" + s)[1..] == s;
  }

  lemma ScanKeywordSpelled(t: Token, s: string)
    requires KeywordToken(t) && !IsAlnum(Head(s))
    ensures ScanHere(Spell(t) + s) == Scanned(t, s, None)
  {
    hide KeywordKind;
    var all := Spell(t) + s;
    assert all == ['@'] + (t.text + s);
    assert all[1..] == t.text + s;
    SpanStops(t.text, s, Alnum);
  }

  lemma SymbolChars(c: char)
    requires Symbol(c).Some? || WithEquals(c).Some?
    ensures c != '\0' && !IsAlpha(c) && !IsDigit(c) && c != '"' && c != '@'
    ensures WithEquals(c).Some? && Symbol(c).Some? ==>
      Symbol(c).value.Assign? || Symbol(c).value.Bang? || Symbol(c).value.Less? || Symbol(c).value.Greater?
  {
  }

  lemma ScanSymbolSpelled(t: Token, s: string)
    requires SymbolToken(t) && Breaks(t, Head(s))
    ensures ScanHere(t.text + s) == Scanned(t, s, None)
  {
    hide Symbol, WithEquals, IsAlpha, IsDigit;
    var all := t.text + s;
    var c := t.text[0];
    SymbolChars(c);
    assert all[0] == c;
    if |t.text| == 1 {
      assert all[1..] == s && all[..1] == t.text;
    } else {
      assert all[2..] == s && all[..2] == t.text;
      assert Second(all) == all[1] == t.text[1];
    }
  }

  lemma NoBlankFirst(t: Token, s: string)
    requires Spellable(t)
    ensures SkipBlanks(Spell(t) + s) == Spell(t) + s
  {
    assert |Spell(t)| > 0 && Head(Spell(t) + s) == Spell(t)[0];
    if NumberToken(t) {
      assert t.text[0] in t.text;
    }
  }

  /** A token that the following text does not run into is read back. */
  lemma ScanSpelled(t: Token, s: string)
    requires Spellable(t) && Breaks(t, Head(s))
    ensures Scan(Spell(t) + s) == Scanned(t, s, None)
  {
    hide SkipBlanks, ScanHere, WordKind, Escaped, Numeral;
    NoBlankFirst(t, s);
    KindsApart(t);
    if WordToken(t) {
      ScanWordSpelled(t, s);
    } else if NumberToken(t) {
      ScanNumberSpelled(t, s);
    } else if StringToken(t) {
      ScanStringSpelled(t, s);
    } else if KeywordToken(t) {
      ScanKeywordSpelled(t, s);
    } else {
      ScanSymbolSpelled(t, s);
    }
  }

  lemma KindsApart(t: Token)
    requires Spellable(t)
    ensures WordToken(t) ==> t.kind.Identifier? || t.kind.TypeWord? || t.kind.InWord?
    ensures SymbolToken(t) && !WordToken(t) ==>
      !t.kind.StringLiteral? && !t.kind.ProtocolWord? && !t.kind.ConstWord? && !t.kind.FilterWord?
  {
  }

  // ---------- Texts ----------

  function Length(ts: Stream): nat { if ts.Done? then 0 else 1 + Length(ts.tail) }

  /** The tokens with a gap before each and one at the end. */
  function Text(ts: Stream, gaps: seq<Gap>): string
    requires |gaps| == Length(ts) + 1
  {
    match ts
    case Done => GapText(gaps[0])
    case More(t, tail) => GapText(gaps[0]) + (Spell(t) + Text(tail, gaps[1..]))
  }

  /** No token runs into what follows it; gaps may be empty where nothing needs one. */
  ghost predicate Spaced(ts: Stream, gaps: seq<Gap>)
    requires |gaps| == Length(ts) + 1
  {
    GapOk(gaps[0]) &&
    match ts
    case Done => true
    case More(t, tail) => Breaks(t, Head(Text(tail, gaps[1..]))) && Spaced(tail, gaps[1..])
  }

  ghost predicate AllSpellable(ts: Stream) {
    match ts
    case Done => true
    case More(t, tail) => Spellable(t) && AllSpellable(tail)
  }

  /** One space everywhere: the plainest way to write tokens. */
  function OneSpace(ts: Stream): (gaps: seq<Gap>)
    ensures |gaps| == Length(ts) + 1
  {
    match ts
    case Done => [[Space(' ')]]
    case More(_, tail) => [[Space(' ')]] + OneSpace(tail)
  }

  lemma {:induction false} OneSpaceSuffices(ts: Stream)
    ensures Spaced(ts, OneSpace(ts)) && Head(Text(ts, OneSpace(ts))) == ' '
  {
    var gaps := OneSpace(ts);
    assert gaps[0] == [Space(' ')] && GapText(gaps[0]) == " ";
    match ts
    case Done =>
    case More(_, tail) =>
      OneSpaceSuffices(tail);
      assert gaps[1..] == OneSpace(tail);
  }

  /** Reading the text gives the tokens, without an error, and then the end. */
  ghost predicate Yields(s: string, ts: Stream)
    decreases ts
  {
    match ts
    case Done => Head(SkipBlanks(s)) == '\0'
    case More(t, tail) => var r := Scan(s); r.token == t && r.error.None? && Yields(r.rest, tail)
  }

  /** Lexing undoes spelling, whatever spaces and comments are between the tokens. */
  lemma {:induction false} LexText(ts: Stream, gaps: seq<Gap>)
    requires |gaps| == Length(ts) + 1 && Spaced(ts, gaps) && AllSpellable(ts)
    ensures Yields(Text(ts, gaps), ts)
  {
    hide SkipBlanks, ScanHere, Spellable, Breaks, Spell;
    match ts
    case Done =>
      assert GapText(gaps[0]) == GapText(gaps[0]) + "";
      SkipGap(gaps[0], "");
      assert SkipBlanks("") == "" by { NoBlanks(); }
    case More(t, tail) =>
      var s := Spell(t) + Text(tail, gaps[1..]);
      SkipGap(gaps[0], s);
      assert Scan(Text(ts, gaps)) == Scan(s);
      ScanSpelled(t, Text(tail, gaps[1..]));
      LexText(tail, gaps[1..]);
  }

  lemma NoBlanks()
    ensures SkipBlanks("") == ""
  {
  }

  // ---------- Literals that cannot be written ----------

  lemma {:induction false} EscapedMisread(text: string, s: string, room: nat)
    requires |text| <= room && '\0' !in text && EndsInBackslash(text) && s != "" && s[0] == '"'
    ensures StringText(Escaped(text) + s, room).0 != text
    decreases |text|
  {
    if |text| == 1 {
      assert Escaped(text) + s == ['\\'] + s;
      BackslashQuote(s);
    } else {
      hide StringText, Escaped;
      EscapedFirst(text, s, room);
      assert '\0' !in text[1..];
      EscapedMisread(text[1..], s, room - 1);
      var r := StringText(Escaped(text) + s, room).0;
      assert r[1..] == StringText(Escaped(text[1..]) + s, room - 1).0;
    }
  }

  lemma BackslashQuote(s: string)
    requires s != "" && s[0] == '"'
    ensures StringChar(['\\'] + s) == '"'
  {
    assert (['\\'] + s)[1..] == s;
  }

  lemma ScanLiteral(text: string, s: string)
    ensures var all := "\"" + Escaped(text) + "\"" + s;
      Scan(all).token.text == StringText(Escaped(text) + ("\"" + s), TEXT_ROOM).0
  {
    hide StringText, Escaped;
    var all := "\"" + Escaped(text) + "\"" + s;
    assert all[1..] == Escaped(text) + ("\"" + s);
    assert SkipBlanks(all) == all;
  }

  /** A literal that fits is read back if and only if it does not end in a backslash. */
  lemma LiteralReadBack(text: string, s: string)
    requires |text| <= TEXT_ROOM && '\0' !in text
    ensures Scan("\"" + Escaped(text) + "\"" + s).token.text == text <==> !EndsInBackslash(text)
  {
    hide StringText, Escaped, Scan;
    ScanLiteral(text, s);
    if EndsInBackslash(text) {
      EscapedMisread(text, "\"" + s, TEXT_ROOM);
    } else {
      EscapedRead(text, "\"" + s, TEXT_ROOM);
    }
  }
}
