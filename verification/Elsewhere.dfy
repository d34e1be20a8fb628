/** A setting that is inserted anywhere but between the entries of a @protocol block does not take effect. */
module Elsewhere {
  import opened Pdef
  import opened Tokens
  import opened Spelling
  import opened Grammar
  import opened Syntax
  import opened Splice
  import opened Places
  import opened RoundTrip
  import opened Source
  import opened Reload
  import Flatten

  // ---------- Streams without the word, and cursors over them ----------

  predicate NoWord(ts: Stream) {
    match ts
    case Done => true
    case More(t, tail) => !IsWord(t, "endian") && NoWord(tail)
  }

  predicate NoBrace(ts: Stream) {
    match ts
    case Done => true
    case More(t, tail) => !t.kind.RBrace? && NoBrace(tail)
  }

  /** Behind every closing brace there is no word "endian". */
  predicate BraceGuard(ts: Stream) {
    match ts
    case Done => true
    case More(t, tail) => (t.kind.RBrace? ==> NoWord(tail)) && BraceGuard(tail)
  }

  function DropTokens(ts: Stream, n: nat): Stream
    decreases n
  {
    if n == 0 then ts else DropTokens(Tail(ts), n - 1)
  }

  lemma {:induction false} AtLater(p: Cursor, ts: Stream, n: nat)
    requires At(p, ts)
    ensures At(Later(p, n), DropTokens(ts, n))
    decreases n
  {
    hide At, NextOk;
    if n > 0 {
      Advance(p, ts);
      AtLater(Next(p), Tail(ts), n - 1);
    }
  }

  lemma {:induction false} DropNoWord(ts: Stream, n: nat)
    requires NoWord(ts)
    ensures NoWord(DropTokens(ts, n)) && !IsWord(First(DropTokens(ts, n)), "endian")
    decreases n
  {
    if n > 0 {
      DropNoWord(Tail(ts), n - 1);
    }
  }

  lemma {:induction false} DropGuarded(ts: Stream, n: nat)
    requires BraceGuard(ts)
    ensures BraceGuard(DropTokens(ts, n))
    ensures First(DropTokens(ts, n)).kind.RBrace? ==> NoWord(DropTokens(ts, n))
    decreases n
  {
    if n > 0 {
      DropGuarded(Tail(ts), n - 1);
    }
  }

  lemma NoWordAhead(p: Cursor, ts: Stream)
    requires At(p, ts) && NoWord(ts)
    ensures NoSettingAhead(p)
  {
    hide At, IsWord, Later;
    forall n: nat
      ensures !IsWord(Later(p, n).current, "endian")
    {
      AtLater(p, ts, n);
      Advance(Later(p, n), DropTokens(ts, n));
      DropNoWord(ts, n);
    }
  }

  lemma GuardAhead(p: Cursor, ts: Stream)
    requires At(p, ts) && BraceGuard(ts)
    ensures Guarded(p)
  {
    hide At, NoSettingAhead, Later;
    forall n: nat | Later(p, n).current.kind.RBrace?
      ensures NoSettingAhead(Later(p, n))
    {
      AtLater(p, ts, n);
      Advance(Later(p, n), DropTokens(ts, n));
      DropGuarded(ts, n);
      NoWordAhead(Later(p, n), DropTokens(ts, n));
    }
  }

  lemma {:induction false} NoWordGuards(ts: Stream)
    requires NoWord(ts)
    ensures BraceGuard(ts)
  {
    if ts.More? {
      NoWordGuards(ts.tail);
    }
  }

  lemma {:induction false} NoWordJoins(s: Stream, k: Stream)
    ensures NoWord(Join(s, k)) <==> NoWord(s) && NoWord(k)
  {
    if s.More? {
      NoWordJoins(s.tail, k);
    }
  }

  lemma {:induction false} GuardJoins(s: Stream, k: Stream)
    requires NoBrace(s) && BraceGuard(k)
    ensures BraceGuard(Join(s, k))
  {
    if s.More? {
      GuardJoins(s.tail, k);
    }
  }

  lemma SettingGuards(order: Endian, k: Stream)
    requires NoWord(k)
    ensures BraceGuard(Setting(order, k))
  {
    NoWordGuards(k);
    PlainWords();
    var word := ModeText(ModeOf(order));
    assert BraceGuard(S(Semicolon, k));
    assert BraceGuard(W(word, S(Semicolon, k)));
    assert BraceGuard(S(Assign, W(word, S(Semicolon, k))));
  }

  // ---------- Without the word the mode stays ----------

  lemma MetadataKeepsMode(p: Cursor, d: Draft)
    requires NoSettingAhead(p) && ParseMetadata(p, d).Ok?
    ensures ParseMetadata(p, d).value.1.mode == d.mode
  {
    hide Step, Expect, SkipSemicolon, ParsePorts;
    assert Later(p, 0) == p;
    assert Cut(p.current.text) == "endian" ==> p.current.text == "endian" by { CutEndian(p.current.text); }
  }

  lemma CutEndian(text: string)
    ensures Cut(text) == "endian" ==> text == "endian"
  {
    assert |text| > NAME_ROOM ==> |Cut(text)| == NAME_ROOM;
  }

  lemma {:induction false} MetadataListKeepsMode(p: Cursor, d: Draft)
    requires NoSettingAhead(p) && ParseMetadataList(p, d).Ok?
    ensures ParseMetadataList(p, d).value.1.mode == d.mode
    decreases Size(p)
  {
    hide ParseMetadata, NoSettingAhead;
    if !p.current.kind.RBrace? {
      MetadataKeepsMode(p, d);
      var (p1, d1) := ParseMetadata(p, d).value;
      MetadataListKeepsMode(p1, d1);
    }
  }

  lemma {:induction false} ConstantsKeepMode(p: Cursor, d: Draft)
    requires ParseConstants(p, d).Ok?
    ensures ParseConstants(p, d).value.1.mode == d.mode && ParseConstants(p, d).value.0.current.kind.RBrace?
    decreases Size(p)
  {
    hide Step, Expect, SkipSemicolon;
    if !p.current.kind.RBrace? {
      var (p1, d1) := ParseConstant(p, d).value;
      ConstantsKeepMode(p1, d1);
    }
  }

  lemma {:induction false} FieldsEnd(p: Cursor, s: StructDef, order: Endian)
    requires ParseFields(p, s, order).Ok?
    ensures ParseFields(p, s, order).value.0.current.kind.RBrace?
    decreases Size(p)
  {
    hide ParseField;
    if !p.current.kind.RBrace? {
      var (p1, s1) := ParseField(p, s, order).value;
      FieldsEnd(p1, s1, order);
    }
  }

  lemma {:induction false} EntriesEnd(p: Cursor, constants: seq<(string, U64)>, rule: TempRule)
    requires ParseFilterEntries(p, constants, rule).Ok?
    ensures ParseFilterEntries(p, constants, rule).value.0.current.kind.RBrace?
    decreases Size(p)
  {
    hide ParseFilterEntry;
    if !p.current.kind.RBrace? {
      var (p1, rule1) := ParseFilterEntry(p, constants, rule).value;
      EntriesEnd(p1, constants, rule1);
    }
  }

  lemma ItemKeepsMode(p: Cursor, d: Draft)
    requires NoSettingAhead(p) && ParseItem(p, d).Ok?
    ensures ParseItem(p, d).value.1.mode == d.mode
  {
    hide Step, NoSettingAhead, ParseMetadataList, ParseConstants, ParseFields, ParseFilterEntries;
    match p.current.kind {
      case ProtocolWord => MetadataListKeepsMode(Expect(Expect(p, ProtocolWord).value, LBrace).value, d);
      case ConstWord => ConstantsKeepMode(Expect(Expect(p, ConstWord).value, LBrace).value, d);
      case _ =>
    }
  }

  lemma {:induction false} ItemsKeepMode(p: Cursor, d: Draft)
    requires NoSettingAhead(p) && ParseItems(p, d).Ok?
    ensures ParseItems(p, d).value.mode == d.mode
    decreases Size(p)
  {
    hide ParseItem, NoSettingAhead;
    if !p.current.kind.EndOfFile? {
      ItemKeepsMode(p, d);
      var (p1, d1) := ParseItem(p, d).value;
      ItemsKeepMode(p1, d1);
    }
  }

  /** A block that ends, other than a @protocol block, leaves the mode alone and the setting behind it. */
  lemma BlockPasses(p: Cursor, d: Draft)
    requires Guarded(p) && ParseItem(p, d).Ok? && !p.current.kind.ProtocolWord?
    ensures ParseItem(p, d).value.1.mode == d.mode && NoSettingAhead(ParseItem(p, d).value.0)
  {
    hide Step, NoSettingAhead, ParseConstants, ParseFields, ParseFilterEntries;
    match p.current.kind {
      case ConstWord =>
        var p2 := Expect(Expect(p, ConstWord).value, LBrace).value;
        ConstantsKeepMode(p2, d);
        EndPasses(ParseConstants(p2, d).value.0);
      case FilterWord =>
        var p1 := Expect(p, FilterWord).value;
        var p2 := Expect(Step(p1), LBrace).value;
        var rule := TempRule(Cut(p1.current.text), [], false, 0);
        EntriesEnd(p2, d.constants, rule);
        EndPasses(ParseFilterEntries(p2, d.constants, rule).value.0);
      case Identifier =>
        var p1 := Expect(Step(p), LBrace).value;
        var s := StructDef(Cut(p.current.text), [], 0, false);
        FieldsEnd(p1, s, d.defaultEndian);
        EndPasses(ParseFields(p1, s, d.defaultEndian).value.0);
      case _ =>
    }
  }

  lemma EndPasses(p: Cursor)
    requires Guarded(p) && p.current.kind.RBrace?
    ensures NoSettingAhead(Step(p))
  {
    hide NoSettingAhead;
    assert Later(p, 0) == p;
  }

  // ---------- A setting inside an entry ----------

  /** Two ways to split a stream: one is longer than the other. */
  lemma {:induction false} SplitPrefix(l: Stream, r: Stream, s: Stream, k: Stream) returns (t: Stream)
    requires Join(l, r) == Join(s, k) && Length(l) <= Length(s)
    ensures s == Join(l, t) && r == Join(t, k)
    decreases l
  {
    if l.Done? {
      t := s;
    } else {
      t := SplitPrefix(l.tail, r, s.tail, k);
    }
  }

  lemma BadEntry(p: Cursor, d: Draft)
    requires !p.current.kind.Identifier? && !p.current.kind.RBrace?
    ensures ParseMetadataList(p, d).Err?
  {
  }

  /** A setting is read, but what is left of the entry behind it cannot be. */
  lemma SettingThenBad(p: Cursor, d: Draft, order: Endian, k: Stream)
    requires At(p, Setting(order, k)) && !First(k).kind.Identifier? && !First(k).kind.RBrace?
    ensures ParseMetadataList(p, d).Err?
  {
    hide At, ParseMetadata, NextOk;
    assert MetadataOk(EndianIs(ModeOf(order))) by { SettingOk(ModeOf(order)); }
    MetadataRead(p, d, EndianIs(ModeOf(order)), k);
    var (p1, d1) := ParseMetadata(p, d).value;
    Advance(p1, k);
    BadEntry(p1, d1);
  }

  /** A key that no '=' follows. */
  lemma KeyAlone(p: Cursor, d: Draft, word: string, end: Stream)
    requires WordKind(word) == Identifier && At(p, W(word, end)) && First(end).kind != Assign
    ensures ParseMetadataList(p, d).Err?
  {
    hide At, NextOk, Step;
    Advance(p, W(word, end));
    Advance(Step(p), end);
    WrongToken(Step(p), Assign);
  }

  /** The word of the setting is taken for the name, and its '=' comes where an entry should start. */
  lemma SettingForName(p: Cursor, d: Draft, order: Endian, k: Stream)
    requires At(p, W("name", S(Assign, Setting(order, k))))
    ensures ParseMetadataList(p, d).Err?
  {
    hide At, NextOk, Step, Expect, Setting, SkipSemicolon;
    PlainWords();
    var setting := Setting(order, k);
    SettingFirst(order, k);
    Advance(p, W("name", S(Assign, setting)));
    Expected(Step(p), S(Assign, setting), Assign);
    var p2 := Step(Step(p));
    Advance(p2, setting);
    var p3 := Step(p2);
    Advance(p3, Tail(setting));
    NotSemicolon(p3);
    assert ParseMetadata(p, d) == Ok((p3, d.(name := "endian")));
    BadEntry(p3, d.(name := "endian"));
  }

  /** The setting is read in front of the ';' of the name. */
  lemma SettingBehindName(p: Cursor, d: Draft, value: Token, order: Endian, k: Stream)
    requires At(p, W("name", S(Assign, More(value, Setting(order, k))))) && First(k).kind.Semicolon?
    requires value.kind.StringLiteral? || value.kind.Identifier?
    ensures ParseMetadataList(p, d).Err?
  {
    hide At, NextOk, Step, Expect, Setting, SkipSemicolon;
    PlainWords();
    var setting := Setting(order, k);
    SettingFirst(order, k);
    Advance(p, W("name", S(Assign, More(value, setting))));
    Expected(Step(p), S(Assign, More(value, setting)), Assign);
    var p2 := Step(Step(p));
    Advance(p2, More(value, setting));
    var p3 := Step(p2);
    Advance(p3, setting);
    NotSemicolon(p3);
    var named := d.(name := Cut(value.text));
    assert ParseMetadata(p, d) == Ok((p3, named));
    SettingThenBad(p3, named, order, k);
  }

  /** Where a stream can be cut within its first four tokens. */
  lemma CutInFour(a: Token, b: Token, c: Token, k4: Stream, s: Stream, k: Stream, t: Stream)
    requires More(a, More(b, More(c, k4))) == Join(s, k) && 0 < Length(s) < 4
    ensures Length(s) == 1 ==> Join(s, t) == More(a, t)
    ensures Length(s) == 2 ==> Join(s, t) == More(a, More(b, t))
    ensures Length(s) == 3 ==> Join(s, t) == More(a, More(b, More(c, t))) && k == k4
  {
    JoinUnfolds(k);
    JoinUnfolds(t);
    var s1 := s.tail;
    assert Length(s) == 1 + Length(s1);
    if s1.More? {
      var s2 := s1.tail;
      assert Length(s1) == 1 + Length(s2) && (s2.More? ==> Length(s2) == 1 + Length(s2.tail));
      assert s2.More? ==> s2.tail.Done?;
      assert Join(Done, t) == t && Join(Done, k) == k;
    }
  }

  lemma NameBroken(p: Cursor, d: Draft, m: Metadata, s: Stream, k: Stream, rest: Stream, order: Endian)
    requires (m.QuotedName? || m.PlainName?) && MetadataOk(m) && MetadataTokens(m, rest) == Join(s, k)
    requires 0 < Length(s) < 4 && At(p, Join(s, Setting(order, k)))
    ensures ParseMetadataList(p, d).Err?
  {
    hide At, ParseMetadataList, Setting, Word, LiteralText, WordKind;
    PlainWords();
    SettingFirst(order, k);
    CutInFour(Token(WordKind("name"), "name", 0), Token(Assign, "=", 0), ValueOf(m), S(Semicolon, rest), s, k, Setting(order, k));
    if Length(s) == 1 {
      KeyAlone(p, d, "name", Setting(order, k));
    } else if Length(s) == 2 {
      SettingForName(p, d, order, k);
    } else {
      SettingBehindName(p, d, ValueOf(m), order, k);
    }
  }

  lemma WrongToken(p: Cursor, kind: TokenKind)
    requires p.current.kind != kind
    ensures Expect(p, kind).Err?
  {
  }

  lemma NotSemicolon(p: Cursor)
    requires !p.current.kind.Semicolon?
    ensures SkipSemicolon(p) == p
  {
  }

  lemma SettingFirst(order: Endian, k: Stream)
    ensures First(Setting(order, k)) == Token(Identifier, "endian", 0)
    ensures First(Tail(Setting(order, k))).kind == Assign
  {
    PlainWords();
  }

  /** Inside a list of ports: the list ends before the setting, or fails. */
  lemma {:induction false} PortsBroken(p: Cursor, ports: seq<U64>, s: Stream, k: Stream, rest: Stream, order: Endian)
    requires ports != [] && PortTokens(ports, S(Semicolon, rest)) == Join(s, k)
    requires 0 < Length(s) <= Length(PortTokens(ports, Done))
    requires At(p, Join(s, Setting(order, k))) || At(p, S(Comma, Join(s, Setting(order, k))))
    ensures ParsePorts(p).Ok? ==> At(ParsePorts(p).value, Setting(order, k)) && (First(k).kind.Comma? || First(k).kind.Semicolon?)
    decreases |ports|
  {
    hide At, NextOk, Step, Setting, Flatten.Decimal;
    var setting := Setting(order, k);
    SettingFirst(order, k);
    var all := Join(s, setting);
    if At(p, all) {
      Advance(p, all);
    } else {
      Advance(p, S(Comma, all));
      Advance(Step(p), all);
    }
    var p2 := Step(if p.current.kind.Comma? then Step(p) else p);
    if s.tail.Done? {
      Advance(p2, setting);
    } else {
      assert |ports| > 1;
      var t := s.tail.tail;
      Advance(p2, S(Comma, Join(t, setting)));
      if t.Done? {
        Advance(Step(p2), setting);
      } else {
        assert Length(PortTokens(ports, Done)) == Length(PortTokens(ports[1..], Done)) + 2;
        PortsBroken(p2, ports[1..], t, k, rest, order);
      }
    }
  }

  lemma PortsEntryBroken(p: Cursor, d: Draft, ports: seq<U64>, s: Stream, k: Stream, rest: Stream, order: Endian)
    requires ports != [] && MetadataTokens(Ports(ports), rest) == Join(s, k)
    requires 0 < Length(s) <= 2 + Length(PortTokens(ports, Done)) && At(p, Join(s, Setting(order, k)))
    ensures ParseMetadataList(p, d).Err?
  {
    hide At, NextOk, Step, Expect, SkipSemicolon, ParsePorts, PortTokens, Setting, Flatten.Decimal;
    PlainWords();
    var setting := Setting(order, k);
    SettingFirst(order, k);
    Advance(p, Join(s, setting));
    var p1 := Step(p);
    if s.tail.Done? {
      Advance(p1, setting);
      assert Expect(p1, Assign).Err? by { WrongToken(p1, Assign); }
    } else {
      var t := s.tail.tail;
      Expected(p1, S(Assign, Join(t, setting)), Assign);
      var p2 := Step(p1);
      if t.Done? {
        Advance(p2, setting);
        assert ParsePorts(p2).Err? by { NoPort(p2); }
      } else {
        PortsBroken(p2, ports, t, k, rest, order);
        if ParsePorts(p2).Ok? {
          var p3 := ParsePorts(p2).value;
          Advance(p3, setting);
          assert SkipSemicolon(p3) == p3 by { NotSemicolon(p3); }
          SettingThenBad(p3, d, order, k);
        }
      }
    }
  }

  lemma NoPort(p: Cursor)
    requires p.current.kind.Identifier?
    ensures ParsePorts(p).Err?
  {
  }

  lemma EntryBroken(p: Cursor, d: Draft, m: Metadata, s: Stream, k: Stream, rest: Stream, order: Endian)
    requires MetadataOk(m) && MetadataTokens(m, rest) == Join(s, k) && NoWord(Join(s, k))
    requires 0 < Length(s) < Length(MetadataTokens(m, Done)) && At(p, Join(s, Setting(order, k)))
    ensures ParseMetadataList(p, d).Err?
  {
    hide At, ParseMetadataList, Setting;
    match m {
      case QuotedName(_) => FourTokens(m); NameBroken(p, d, m, s, k, rest, order);
      case PlainName(_) => FourTokens(m); NameBroken(p, d, m, s, k, rest, order);
      case EndianIs(mode) => PlainWords();
      case Ports(ports) => PortsLength(ports); PortsEntryBroken(p, d, ports, s, k, rest, order);
    }
  }

  lemma FourTokens(m: Metadata)
    requires m.QuotedName? || m.PlainName?
    ensures Length(MetadataTokens(m, Done)) == 4
  {
    assert Length(More(ValueOf(m), S(Semicolon, Done))) == 2;
  }

  lemma PortsLength(ports: seq<U64>)
    ensures Length(MetadataTokens(Ports(ports), Done)) == 3 + Length(PortTokens(ports, Done))
  {
    PortsJoin(ports, Done, S(Semicolon, Done));
    assert Length(S(Semicolon, Done)) == 1;
    assert Length(S(Assign, PortTokens(ports, S(Semicolon, Done)))) == 1 + Length(PortTokens(ports, S(Semicolon, Done)));
  }

  /** In a list of entries the setting is between two of them, or the list fails. */
  lemma {:induction false} ListOnlyThere(p: Cursor, d: Draft, ms: seq<Metadata>, s: Stream, k: Stream, rest: Stream, order: Endian)
    returns (m: nat)
    requires (forall e :: e in ms ==> MetadataOk(e)) && AllMetadataTokens(ms, S(RBrace, rest)) == Join(s, k)
    requires NoWord(Join(s, k)) && Length(s) <= Length(AllMetadataTokens(ms, Done)) && At(p, Join(s, Setting(order, k)))
    ensures m <= |ms|
    ensures ParseMetadataList(p, d).Ok? ==>
      s == AllMetadataTokens(ms[..m], Done) && k == AllMetadataTokens(ms[m..], S(RBrace, rest))
    decreases |ms|
  {
    hide At, MetadataTokens, MetadataOk, ParseMetadata, Setting, WithMetadata;
    if s.Done? {
      m := 0;
      assert ms[..0] == [] && ms[0..] == ms;
    } else {
      var e, more := ms[0], AllMetadataTokens(ms[1..], S(RBrace, rest));
      var l := MetadataTokens(e, Done);
      EntryJoin(e, more);
      if Length(l) <= Length(s) {
        var t := SplitPrefix(l, more, s, k);
        EntryJoin(e, Join(t, Setting(order, k)));
        JoinAssociates(l, t, Setting(order, k));
        MetadataRead(p, d, e, Join(t, Setting(order, k)));
        var (p1, d1) := ParseMetadata(p, d).value;
        EntryJoin(e, AllMetadataTokens(ms[1..], Done));
        NoWordJoins(l, more);
        var n := ListOnlyThere(p1, d1, ms[1..], t, k, rest, order);
        m := n + 1;
        assert ms[..m][0] == e && ms[..m][1..] == ms[1..][..n] && ms[m..] == ms[1..][n..];
        EntryJoin(e, AllMetadataTokens(ms[1..][..n], Done));
      } else {
        m := 0;
        EntryBroken(p, d, e, s, k, more, order);
      }
    }
  }

  lemma EntryJoin(m: Metadata, k: Stream)
    ensures MetadataTokens(m, k) == Join(MetadataTokens(m, Done), k)
  {
    AllMetadataJoin([m], Done, k);
    OneEntry(m, Join(Done, k));
    OneEntry(m, Done);
  }

  // ---------- A setting anywhere ----------

  lemma SettingBetweenItems(p: Cursor, d: Draft, order: Endian, k: Stream)
    requires At(p, Setting(order, k))
    ensures ParseItems(p, d).Err?
  {
    hide At, NextOk, Step, Setting;
    SettingFirst(order, k);
    Advance(p, Setting(order, k));
    Advance(Step(p), Tail(Setting(order, k)));
    WrongToken(Step(p), LBrace);
  }

  /** The tokens of an item: its opening, its inside and its end. */
  function Opener(item: Item): Stream {
    match item
    case ProtocolItem(_) => Keyword("protocol", S(LBrace, Done))
    case ConstItem(_) => Keyword("const", S(LBrace, Done))
    case StructItem(name, _) => W(name, S(LBrace, Done))
    case FilterItem(name, _) => Keyword("filter", W(name, S(LBrace, Done)))
  }

  lemma ItemParts(item: Item, k: Stream)
    ensures ItemTokens(item, k) == Join(Opener(item), Inside(item, S(RBrace, k)))
  {
    hide AllMetadataTokens, ConstantsTokens, FieldsTokens, EntriesTokens;
    JoinUnfolds(Inside(item, S(RBrace, k)));
  }

  lemma {:induction false} LeadsNoBrace(ts: Stream, end: Stream, s: Stream, k: Stream)
    requires Leads(ts, end) && ts == Join(s, k) && Length(s) <= Length(ts) - Length(end)
    ensures NoBrace(s)
    decreases ts
  {
    if s.More? {
      LeadsNoBrace(ts.tail, end, s.tail, k);
    }
  }

  /** A proper beginning of an item has no closing brace. */
  lemma BeginningHasNoBrace(d: Draft, item: Item, s: Stream, k: Stream, rest: Stream)
    requires ItemOk(d, item) && ItemTokens(item, rest) == Join(s, k) && Length(s) < Length(ItemTokens(item, Done))
    ensures NoBrace(s)
  {
    hide ItemOk, Inside, ItemTokens, Leads, Opener;
    ItemParts(item, rest);
    ItemLength(item, rest);
    var end := S(RBrace, rest);
    ItemLeads(d, item, end);
    OpenerHasNoBrace(d, item);
    if Length(s) <= Length(Opener(item)) {
      var t := SplitPrefix(s, k, Opener(item), Inside(item, end));
      NoBraceJoins(s, t);
    } else {
      var t := SplitPrefix(Opener(item), Inside(item, end), s, k);
      LeadsNoBrace(Inside(item, end), end, t, k);
      NoBraceJoins(Opener(item), t);
    }
  }

  lemma ItemLength(item: Item, rest: Stream)
    ensures Length(ItemTokens(item, rest)) == Length(ItemTokens(item, Done)) + Length(rest)
  {
    ItemJoin(item, Done, rest);
  }

  lemma OpenerHasNoBrace(d: Draft, item: Item)
    requires ItemOk(d, item)
    ensures NoBrace(Opener(item))
  {
    hide Syntax.FieldsOk, EntryOk, MetadataOk, Word;
    assert NoBrace(S(LBrace, Done));
    if item.FilterItem? {
      assert NoBrace(W(item.name, S(LBrace, Done)));
    }
  }

  lemma {:induction false} NoBraceJoins(s: Stream, k: Stream)
    ensures NoBrace(Join(s, k)) <==> NoBrace(s) && NoBrace(k)
  {
    if s.More? {
      NoBraceJoins(s.tail, k);
    }
  }

  // ---------- Only there ----------

  /** Without the word no entry sets the byte order. */
  lemma {:induction false} SilentList(ms: seq<Metadata>, k: Stream)
    requires NoWord(AllMetadataTokens(ms, k))
    ensures SilentEntries(ms) && NoWord(k)
    decreases |ms|
  {
    if ms != [] {
      var rest := AllMetadataTokens(ms[1..], k);
      EntryJoin(ms[0], rest);
      NoWordJoins(MetadataTokens(ms[0], Done), rest);
      SilentList(ms[1..], k);
      if ms[0].EndianIs? {
        PlainWords();
      }
    }
  }

  lemma SilentItem(item: Item, k: Stream)
    requires NoWord(ItemTokens(item, k))
    ensures Silent(item) && NoWord(k)
  {
    hide SilentEntries, NoWord;
    ItemJoin(item, Done, k);
    NoWordJoins(ItemTokens(item, Done), k);
    if item.ProtocolItem? {
      BlockWithoutWord(item.metadata, k);
    }
  }

  lemma BlockWithoutWord(ms: seq<Metadata>, k: Stream)
    requires NoWord(ItemTokens(ProtocolItem(ms), k))
    ensures SilentEntries(ms)
  {
    hide AllMetadataTokens, SilentEntries;
    var body := AllMetadataTokens(ms, S(RBrace, k));
    assert NoWord(S(LBrace, body)) && NoWord(body);
    SilentList(ms, S(RBrace, k));
  }

  lemma {:induction false} SilentDefinition(items: seq<Item>)
    requires NoWord(ItemsTokens(items))
    ensures AllSilent(items)
    decreases |items|
  {
    hide ItemTokens, Silent, NoWord;
    if items != [] {
      SilentItem(items[0], ItemsTokens(items[1..]));
      SilentDefinition(items[1..]);
    }
  }

  lemma SilentItemKeepsMode(d: Draft, item: Item)
    requires Silent(item)
    ensures WithItem(d, item).mode == d.mode
  {
    hide WithFields, WithEntries, SilentEntries;
    match item {
      case ProtocolItem(ms) => SilentMetadata(d, ms);
      case ConstItem(cs) => ConstantsOnly(d, d, cs);
      case _ =>
    }
  }

  /** A setting inside a struct or a @const or @filter block does not take effect, even where the text can be parsed. */
  lemma InBlock(p: Cursor, d: Draft, item: Item, s: Stream, k: Stream, rest: Stream, order: Endian)
    requires ItemOk(d, item) && !item.ProtocolItem? && ItemTokens(item, rest) == Join(s, k) && NoWord(Join(s, k))
    requires 0 < Length(s) < Length(ItemTokens(item, Done)) && At(p, Join(s, Setting(order, k)))
    ensures ParseItems(p, d).Ok? ==> ParseItems(p, d).value.mode == d.mode
  {
    hide *;
    BlockGuarded(p, d, item, s, k, rest, order);
    if ParseItems(p, d).Ok? {
      BlockLeft(p, d);
    }
  }

  lemma BlockLeft(p: Cursor, d: Draft)
    requires Guarded(p) && !p.current.kind.ProtocolWord? && !p.current.kind.EndOfFile? && ParseItems(p, d).Ok?
    ensures ParseItems(p, d).value.mode == d.mode
  {
    hide ParseItem, NoSettingAhead, Guarded;
    BlockPasses(p, d);
    var (p1, d1) := ParseItem(p, d).value;
    ItemsKeepMode(p1, d1);
  }

  /** The word is only in front of the block's end. */
  lemma BlockGuarded(p: Cursor, d: Draft, item: Item, s: Stream, k: Stream, rest: Stream, order: Endian)
    requires ItemOk(d, item) && !item.ProtocolItem? && ItemTokens(item, rest) == Join(s, k) && NoWord(Join(s, k))
    requires 0 < Length(s) < Length(ItemTokens(item, Done)) && At(p, Join(s, Setting(order, k)))
    ensures Guarded(p) && !p.current.kind.ProtocolWord? && !p.current.kind.EndOfFile?
  {
    hide At, NextOk, ItemOk, ItemTokens, Setting, NoWord, NoBrace, BraceGuard, Guarded;
    BeginningHasNoBrace(d, item, s, k, rest);
    NoWordJoins(s, k);
    SettingGuards(order, k);
    GuardJoins(s, Setting(order, k));
    GuardAhead(p, Join(s, Setting(order, k)));
    Advance(p, Join(s, Setting(order, k)));
    BlockFirst(d, item, rest);
  }

  lemma BlockFirst(d: Draft, item: Item, rest: Stream)
    requires ItemOk(d, item) && !item.ProtocolItem?
    ensures !First(ItemTokens(item, rest)).kind.ProtocolWord? && !First(ItemTokens(item, rest)).kind.EndOfFile?
  {
    hide Syntax.FieldsOk, EntryOk, Word;
  }

  /** Inside a @protocol block it takes effect between two entries only. */
  lemma InProtocol(p: Cursor, d: Draft, ms: seq<Metadata>, s: Stream, k: Stream, rest: Stream, order: Endian) returns (m: nat)
    requires (forall e :: e in ms ==> MetadataOk(e)) && ItemTokens(ProtocolItem(ms), rest) == Join(s, k) && NoWord(Join(s, k))
    requires 0 < Length(s) < Length(ItemTokens(ProtocolItem(ms), Done)) && At(p, Join(s, Setting(order, k)))
    ensures m <= |ms|
    ensures ParseItems(p, d).Ok? ==>
      s == Keyword("protocol", S(LBrace, AllMetadataTokens(ms[..m], Done))) && k == AllMetadataTokens(ms[m..], S(RBrace, rest))
  {
    hide At, NextOk, Step, Setting, AllMetadataTokens, ParseMetadataList, MetadataOk;
    var setting := Setting(order, k);
    SettingFirst(order, k);
    var t := s.tail;
    Advance(p, Join(s, setting));
    Expected(p, Join(s, setting), ProtocolWord);
    if t.Done? {
      m := 0;
      Advance(Step(p), setting);
      WrongToken(Step(p), LBrace);
    } else {
      Expected(Step(p), Join(t, setting), LBrace);
      ListLength(ms);
      m := ListOnlyThere(Step(Step(p)), d, ms, t.tail, k, rest, order);
    }
  }

  lemma ListLength(ms: seq<Metadata>)
    ensures Length(ItemTokens(ProtocolItem(ms), Done)) == Length(AllMetadataTokens(ms, Done)) + 3
  {
    hide AllMetadataTokens;
    AllMetadataJoin(ms, Done, S(RBrace, Done));
    var body := AllMetadataTokens(ms, S(RBrace, Done));
    assert Length(S(RBrace, Done)) == 1 && Length(S(LBrace, body)) == 1 + Length(body);
  }

  /** When a text that has no word "endian" gets a setting somewhere, and what is read has another mode, the setting
      is between two entries of a @protocol block, before the first or behind the last. */
  lemma {:induction false} OnlyThere(p: Cursor, d: Draft, items: seq<Item>, s: Stream, k: Stream, order: Endian) returns (a: Around)
    requires ItemsOk(d, items) && ItemsTokens(items) == Join(s, k) && NoWord(Join(s, k))
    requires At(p, Join(s, Setting(order, k)))
    ensures ParseItems(p, d).Ok? && ParseItems(p, d).value.mode != d.mode ==>
      With(a, []) == items && Opening(a) == s && Closing(a) == k
    decreases |items|
  {
    hide At, ItemTokens, ItemOk, Setting, ParseItems, ParseItem, NoWord, WithItem, Silent;
    a := Around([], [], [], []);
    if s.Done? {
      SettingBetweenItems(p, d, order, k);
    } else {
      var item, rest := items[0], ItemsTokens(items[1..]);
      var l := ItemTokens(item, Done);
      ItemJoin(item, Done, rest);
      if Length(l) <= Length(s) {
        var t := SplitPrefix(l, rest, s, k);
        ItemPassed(p, d, item, t, k, order);
        var (p1, d1) := ParseItem(p, d).value;
        var b := OnlyThere(p1, d1, items[1..], t, k, order);
        a := Around([item] + b.before, b.first, b.last, b.after);
        AroundMore(item, b, t);
      } else if item.ProtocolItem? {
        var m := InProtocolItem(p, d, item, s, k, rest, order);
        a := Around([], item.metadata[..m], item.metadata[m..], items[1..]);
        AroundHere(item, items[1..], m);
      } else {
        InBlock(p, d, item, s, k, rest, order);
      }
    }
  }

  lemma InProtocolItem(p: Cursor, d: Draft, item: Item, s: Stream, k: Stream, rest: Stream, order: Endian) returns (m: nat)
    requires item.ProtocolItem? && ItemOk(d, item) && ItemTokens(item, rest) == Join(s, k) && NoWord(Join(s, k))
    requires 0 < Length(s) < Length(ItemTokens(item, Done)) && At(p, Join(s, Setting(order, k)))
    ensures m <= |item.metadata|
    ensures ParseItems(p, d).Ok? ==>
      s == Keyword("protocol", S(LBrace, AllMetadataTokens(item.metadata[..m], Done))) &&
      k == AllMetadataTokens(item.metadata[m..], S(RBrace, rest))
  {
    m := InProtocol(p, d, item.metadata, s, k, rest, order);
  }

  /** An item in front of the setting is read as if nothing had changed. */
  lemma ItemPassed(p: Cursor, d: Draft, item: Item, t: Stream, k: Stream, order: Endian)
    requires ItemOk(d, item) && NoWord(Join(Join(ItemTokens(item, Done), t), k))
    requires At(p, Join(Join(ItemTokens(item, Done), t), Setting(order, k)))
    ensures NoWord(Join(t, k)) && Got(ParseItem(p, d), WithItem(d, item), Join(t, Setting(order, k)))
    ensures WithItem(d, item).mode == d.mode
    ensures ParseItems(p, d) == ParseItems(ParseItem(p, d).value.0, ParseItem(p, d).value.1)
  {
    hide At, ItemTokens, ItemOk, Setting, ParseItem, NoWord, WithItem, Silent;
    var l := ItemTokens(item, Done);
    JoinAssociates(l, t, k);
    JoinAssociates(l, t, Setting(order, k));
    ItemJoin(item, Done, Join(t, k));
    ItemJoin(item, Done, Join(t, Setting(order, k)));
    SilentItem(item, Join(t, k));
    SilentItemKeepsMode(d, item);
    ItemRead(p, d, item, Join(t, Setting(order, k)));
  }

  lemma AroundMore(item: Item, b: Around, t: Stream)
    ensures var a := Around([item] + b.before, b.first, b.last, b.after);
      With(a, []) == [item] + With(b, []) && Closing(a) == Closing(b) &&
      (Opening(b) == t ==> Opening(a) == Join(ItemTokens(item, Done), t))
  {
    hide ItemTokens;
    var a := Around([item] + b.before, b.first, b.last, b.after);
    assert a.before[1..] == b.before;
    ItemJoin(item, Done, t);
  }

  lemma AroundHere(item: Item, after: seq<Item>, m: nat)
    requires item.ProtocolItem? && m <= |item.metadata|
    ensures var a := Around([], item.metadata[..m], item.metadata[m..], after);
      With(a, []) == [item] + after &&
      Opening(a) == Keyword("protocol", S(LBrace, AllMetadataTokens(item.metadata[..m], Done))) &&
      Closing(a) == AllMetadataTokens(item.metadata[m..], S(RBrace, ItemsTokens(after)))
  {
    hide AllMetadataTokens;
    assert item.metadata[..m] + ([] + item.metadata[m..]) == item.metadata;
    assert [] + ([item] + after) == [item] + after;
  }
}
