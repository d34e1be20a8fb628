/** A definition around one place of a @protocol block: what is written before it and after it, and what an entry
    at that place does. */
module Places {
  import opened Pdef
  import opened Tokens
  import opened Spelling
  import opened Matcher
  import opened Grammar
  import opened Syntax
  import opened Splice
  import opened Definition
  import Flatten

  function ModeOf(order: Endian): EndianMode { if order.Big? then ModeBig else ModeLittle }

  /** Items, with a place inside the @protocol block of one of them. */
  datatype Around = Around(before: seq<Item>, first: seq<Metadata>, last: seq<Metadata>, after: seq<Item>)

  /** The definition with some entries at the place. */
  function With(a: Around, entries: seq<Metadata>): seq<Item> {
    a.before + ([ProtocolItem(a.first + (entries + a.last))] + a.after)
  }

  // ---------- Its tokens ----------

  function ItemsThen(items: seq<Item>, k: Stream): Stream {
    if items == [] then k else ItemTokens(items[0], ItemsThen(items[1..], k))
  }

  /** The tokens up to the place, and those from it on. */
  function Opening(a: Around): Stream {
    ItemsThen(a.before, Keyword("protocol", S(LBrace, AllMetadataTokens(a.first, Done))))
  }

  function Closing(a: Around): Stream { AllMetadataTokens(a.last, S(RBrace, ItemsTokens(a.after))) }

  lemma JoinUnfolds(end: Stream)
    ensures forall t, tail :: Join(More(t, tail), end) == More(t, Join(tail, end))
  {
  }

  lemma {:induction false} ValuesJoin(os: seq<Operand>, k: Stream, end: Stream)
    ensures ValueTokens(os, Join(k, end)) == Join(ValueTokens(os, k), end)
    decreases |os|
  {
    JoinUnfolds(end);
    if |os| > 1 {
      ValuesJoin(os[1..], k, end);
    }
  }

  lemma {:induction false} IndexesJoin(indexes: seq<U64>, k: Stream, end: Stream)
    ensures IndexTokens(indexes, Join(k, end)) == Join(IndexTokens(indexes, k), end)
    decreases |indexes|
  {
    hide Flatten.Decimal;
    JoinUnfolds(end);
    if indexes != [] {
      IndexesJoin(indexes[1..], k, end);
    }
  }

  lemma {:induction false} PathJoin(path: seq<PathPart>, k: Stream, end: Stream)
    ensures PathTokens(path, Join(k, end)) == Join(PathTokens(path, k), end)
    decreases |path|
  {
    hide IndexTokens;
    JoinUnfolds(end);
    if |path| == 1 {
      IndexesJoin(path[0].indexes, k, end);
    } else if path != [] {
      PathJoin(path[1..], k, end);
      IndexesJoin(path[0].indexes, S(Dot, PathTokens(path[1..], k)), end);
    }
  }

  lemma TestJoin(test: Test, k: Stream, end: Stream)
    ensures TestTokens(test, Join(k, end)) == Join(TestTokens(test, k), end)
  {
    hide ValueTokens, Flatten.Decimal;
    JoinUnfolds(end);
    if test.Among? {
      ValuesJoin(test.values, k, end);
    }
  }

  lemma {:induction false} EntriesJoin(es: seq<FilterEntry>, k: Stream, end: Stream)
    ensures EntriesTokens(es, Join(k, end)) == Join(EntriesTokens(es, k), end)
    decreases |es|
  {
    hide PathTokens, TestTokens, Flatten.Decimal;
    JoinUnfolds(end);
    if es != [] {
      EntriesJoin(es[1..], k, end);
      if es[0].Tests? {
        var rest := S(Semicolon, EntriesTokens(es[1..], k));
        TestJoin(es[0].test, rest, end);
        PathJoin(es[0].path, TestTokens(es[0].test, rest), end);
      }
    }
  }

  lemma {:induction false} FieldsJoin(fs: seq<FieldSyntax>, k: Stream, end: Stream)
    ensures FieldsTokens(fs, Join(k, end)) == Join(FieldsTokens(fs, k), end)
    decreases |fs|
  {
    hide TypeText, Flatten.Decimal;
    JoinUnfolds(end);
    if fs != [] {
      FieldsJoin(fs[1..], k, end);
    }
  }

  lemma {:induction false} PortsJoin(ports: seq<U64>, k: Stream, end: Stream)
    ensures PortTokens(ports, Join(k, end)) == Join(PortTokens(ports, k), end)
    decreases |ports|
  {
    hide Flatten.Decimal;
    JoinUnfolds(end);
    if |ports| > 1 {
      PortsJoin(ports[1..], k, end);
    }
  }

  lemma {:induction false} AllMetadataJoin(ms: seq<Metadata>, k: Stream, end: Stream)
    ensures AllMetadataTokens(ms, Join(k, end)) == Join(AllMetadataTokens(ms, k), end)
    decreases |ms|
  {
    hide PortTokens;
    JoinUnfolds(end);
    if ms != [] {
      AllMetadataJoin(ms[1..], k, end);
      if ms[0].Ports? {
        PortsJoin(ms[0].ports, S(Semicolon, AllMetadataTokens(ms[1..], k)), end);
      }
    }
  }

  lemma {:induction false} ConstantsJoin(cs: seq<(string, U64)>, k: Stream, end: Stream)
    ensures ConstantsTokens(cs, Join(k, end)) == Join(ConstantsTokens(cs, k), end)
    decreases |cs|
  {
    hide Flatten.Decimal;
    JoinUnfolds(end);
    if cs != [] {
      ConstantsJoin(cs[1..], k, end);
    }
  }

  lemma ItemJoin(item: Item, k: Stream, end: Stream)
    ensures ItemTokens(item, Join(k, end)) == Join(ItemTokens(item, k), end)
  {
    hide AllMetadataTokens, ConstantsTokens, FieldsTokens, EntriesTokens;
    JoinUnfolds(end);
    match item {
      case ProtocolItem(ms) => AllMetadataJoin(ms, S(RBrace, k), end);
      case ConstItem(cs) => ConstantsJoin(cs, S(RBrace, k), end);
      case StructItem(_, fs) => FieldsJoin(fs, S(RBrace, k), end);
      case FilterItem(_, es) => EntriesJoin(es, S(RBrace, k), end);
    }
  }

  lemma {:induction false} ItemsJoin(items: seq<Item>, k: Stream, end: Stream)
    ensures ItemsThen(items, Join(k, end)) == Join(ItemsThen(items, k), end)
    decreases |items|
  {
    hide ItemTokens;
    if items != [] {
      ItemsJoin(items[1..], k, end);
      ItemJoin(items[0], ItemsThen(items[1..], k), end);
    }
  }

  lemma {:induction false} ItemsAppend(items: seq<Item>, more: seq<Item>)
    ensures ItemsTokens(items + more) == ItemsThen(items, ItemsTokens(more))
    decreases |items|
  {
    hide ItemTokens;
    if items == [] {
      assert items + more == more;
    } else {
      ItemsAppend(items[1..], more);
      assert (items + more)[1..] == items[1..] + more;
    }
  }

  lemma {:induction false} AllMetadataAppend(ms: seq<Metadata>, more: seq<Metadata>, k: Stream)
    ensures AllMetadataTokens(ms + more, k) == AllMetadataTokens(ms, AllMetadataTokens(more, k))
    decreases |ms|
  {
    hide MetadataTokens;
    if ms == [] {
      assert ms + more == more;
    } else {
      AllMetadataAppend(ms[1..], more, k);
      assert (ms + more)[1..] == ms[1..] + more;
    }
  }

  /** A definition is written as what comes before the place, the entries, and what comes after. */
  lemma PlaceSplits(a: Around, entries: seq<Metadata>)
    ensures ItemsTokens(With(a, entries)) == Join(Opening(a), AllMetadataTokens(entries, Closing(a)))
  {
    hide AllMetadataTokens, ItemsThen;
    var item := ProtocolItem(a.first + (entries + a.last));
    var end := AllMetadataTokens(entries, Closing(a));
    ItemsAppend(a.before, [item] + a.after);
    assert ([item] + a.after)[1..] == a.after;
    AllMetadataAppend(a.first, entries + a.last, S(RBrace, ItemsTokens(a.after)));
    AllMetadataAppend(entries, a.last, S(RBrace, ItemsTokens(a.after)));
    AllMetadataJoin(a.first, Done, end);
    assert ItemsTokens([item] + a.after) == Keyword("protocol", S(LBrace, AllMetadataTokens(a.first, Join(Done, end))));
    ItemsJoin(a.before, Keyword("protocol", S(LBrace, AllMetadataTokens(a.first, Done))), end);
  }

  lemma NoEntries(a: Around)
    ensures AllMetadataTokens([], Closing(a)) == Closing(a)
  {
  }

  lemma OneEntry(m: Metadata, k: Stream)
    ensures AllMetadataTokens([m], k) == MetadataTokens(m, k)
  {
    assert [m][1..] == [];
  }

  // ---------- It can still be written ----------

  /** Whether items can be written depends only on the constants and on how many rules there are. */
  lemma {:induction false} ItemsOkAlike(d: Draft, e: Draft, items: seq<Item>)
    requires ItemsOk(d, items) && e.constants == d.constants && |e.rules| == |d.rules|
    ensures ItemsOk(e, items)
    decreases |items|
  {
    hide MetadataOk, Syntax.FieldsOk, EntryOk, Name, WithFields, WithEntries;
    if items != [] {
      match items[0] {
        case ProtocolItem(ms) => MetadataOnly(d, ms); MetadataOnly(e, ms);
        case ConstItem(cs) => ConstantsOnly(d, e, cs);
        case StructItem(_, _) =>
        case FilterItem(_, _) =>
      }
      ItemsOkAlike(WithItem(d, items[0]), WithItem(e, items[0]), items[1..]);
    }
  }

  lemma {:induction false} MetadataOnly(d: Draft, ms: seq<Metadata>)
    ensures WithAllMetadata(d, ms).constants == d.constants && WithAllMetadata(d, ms).rules == d.rules
    ensures WithAllMetadata(d, ms).structs == d.structs
    decreases |ms|
  {
    if ms != [] {
      MetadataOnly(WithMetadata(d, ms[0]), ms[1..]);
    }
  }

  lemma {:induction false} ConstantsOnly(d: Draft, e: Draft, cs: seq<(string, U64)>)
    requires d.constants == e.constants
    ensures WithConstants(d, cs).constants == WithConstants(e, cs).constants
    ensures WithConstants(d, cs) == d.(constants := WithConstants(d, cs).constants)
    ensures WithConstants(e, cs) == e.(constants := WithConstants(e, cs).constants)
    decreases |cs|
  {
    if cs != [] {
      ConstantsOnly(d.(constants := [cs[0]] + d.constants), e.(constants := [cs[0]] + e.constants), cs[1..]);
    }
  }

  lemma {:induction false} ItemsOkAround(d: Draft, before: seq<Item>, ms: seq<Metadata>, ms': seq<Metadata>, after: seq<Item>)
    requires ItemsOk(d, before + ([ProtocolItem(ms)] + after)) && forall m :: m in ms' ==> MetadataOk(m)
    ensures ItemsOk(d, before + ([ProtocolItem(ms')] + after))
    decreases |before|
  {
    hide ItemOk, MetadataOk, WithItem;
    var were, are := before + ([ProtocolItem(ms)] + after), before + ([ProtocolItem(ms')] + after);
    if before == [] {
      assert were[1..] == after && are[1..] == after;
      ProtocolOnly(d, ms, ms');
      ItemsOkAlike(WithItem(d, ProtocolItem(ms)), WithItem(d, ProtocolItem(ms')), after);
    } else {
      assert were[1..] == before[1..] + ([ProtocolItem(ms)] + after);
      assert are[1..] == before[1..] + ([ProtocolItem(ms')] + after);
      ItemsOkAround(WithItem(d, before[0]), before[1..], ms, ms', after);
    }
  }

  lemma ProtocolOnly(d: Draft, ms: seq<Metadata>, ms': seq<Metadata>)
    requires forall m :: m in ms' ==> MetadataOk(m)
    ensures ItemOk(d, ProtocolItem(ms'))
    ensures var e, e' := WithItem(d, ProtocolItem(ms)), WithItem(d, ProtocolItem(ms'));
      e.constants == e'.constants && e.rules == e'.rules && e.structs == e'.structs
  {
    MetadataOnly(d, ms);
    MetadataOnly(d, ms');
  }

  /** Another entry can be written at the place. */
  lemma WithEntryOk(a: Around, entries: seq<Metadata>, entry: Metadata)
    requires ItemsOk(EMPTY_DRAFT, With(a, entries)) && MetadataOk(entry)
    ensures ItemsOk(EMPTY_DRAFT, With(a, [entry]))
  {
    hide ItemsOk, MetadataOk;
    var were, are := a.first + (entries + a.last), a.first + ([entry] + a.last);
    OldMetadataOk(EMPTY_DRAFT, a.before, were, a.after);
    forall m | m in are
      ensures MetadataOk(m)
    {
      if m in a.first || m in a.last {
        assert m in were;
      }
    }
    ItemsOkAround(EMPTY_DRAFT, a.before, were, are, a.after);
  }

  lemma {:induction false} OldMetadataOk(d: Draft, before: seq<Item>, ms: seq<Metadata>, after: seq<Item>)
    requires ItemsOk(d, before + ([ProtocolItem(ms)] + after))
    ensures forall m :: m in ms ==> MetadataOk(m)
    decreases |before|
  {
    hide MetadataOk, WithItem;
    var items := before + ([ProtocolItem(ms)] + after);
    if before == [] {
      assert items[0] == ProtocolItem(ms);
    } else {
      assert items[1..] == before[1..] + ([ProtocolItem(ms)] + after);
      OldMetadataOk(WithItem(d, before[0]), before[1..], ms, after);
    }
  }

  lemma SettingOk(mode: EndianMode)
    ensures MetadataOk(EndianIs(mode))
  {
  }

  // ---------- What the setting does to the definition ----------

  /** The item leaves the byte order alone. */
  ghost predicate Silent(item: Item) { item.ProtocolItem? ==> SilentEntries(item.metadata) }

  ghost predicate SilentEntries(ms: seq<Metadata>) { forall m :: m in ms ==> !m.EndianIs? }

  ghost predicate AllSilent(items: seq<Item>) { forall item :: item in items ==> Silent(item) }

  /** Nothing but what is at the place sets the byte order. */
  ghost predicate SilentAround(a: Around) {
    AllSilent(a.before) && SilentEntries(a.first) && SilentEntries(a.last) && AllSilent(a.after)
  }

  ghost predicate NoStructs(items: seq<Item>) { forall item :: item in items ==> !item.StructItem? }

  lemma {:induction false} SilentMetadata(d: Draft, ms: seq<Metadata>)
    requires SilentEntries(ms)
    ensures WithAllMetadata(d, ms).defaultEndian == d.defaultEndian && WithAllMetadata(d, ms).mode == d.mode
    decreases |ms|
  {
    if ms != [] {
      SilentMetadata(WithMetadata(d, ms[0]), ms[1..]);
    }
  }

  lemma {:induction false} FieldsInOrder(s: StructDef, fs: seq<FieldSyntax>, order: Endian)
    requires InOrder(s.fields, order)
    ensures InOrder(WithFields(s, fs, order).fields, order)
    decreases |fs|
  {
    if fs != [] {
      var g := DefinedField(fs[0], order);
      var s1 := s.(fields := s.fields + [g], hasVariable := IsVarbytes(fs[0]));
      assert forall f :: f in s1.fields <==> f in s.fields || f == g;
      FieldsInOrder(s1, fs[1..], order);
    }
  }

  /** Items that leave the byte order alone keep the default and the mode, and parse their structs with it. */
  lemma {:induction false} SilentItems(d: Draft, items: seq<Item>)
    requires AllSilent(items)
    ensures var e := WithItems(d, items);
      e.mode == d.mode && e.defaultEndian == d.defaultEndian &&
      (AllInOrder(d.structs, d.defaultEndian) ==> AllInOrder(e.structs, d.defaultEndian)) &&
      (NoStructs(items) ==> e.structs == d.structs)
    decreases |items|
  {
    hide WithFields, WithEntries, InOrder;
    if items != [] {
      var d1 := WithItem(d, items[0]);
      assert Silent(items[0]);
      match items[0] {
        case ProtocolItem(ms) => MetadataOnly(d, ms); SilentMetadata(d, ms);
        case ConstItem(cs) => ConstantsOnly(d, d, cs);
        case StructItem(name, fs) =>
          assert InOrder([], d.defaultEndian) by { NoFields(d.defaultEndian); }
          FieldsInOrder(StructDef(name, [], 0, false), fs, d.defaultEndian);
          var s := WithFields(StructDef(name, [], 0, false), fs, d.defaultEndian);
          assert forall t :: t in d.structs + [s] <==> t in d.structs || t == s;
        case FilterItem(_, _) =>
      }
      SilentItems(d1, items[1..]);
    }
  }

  lemma {:induction false} ItemsInTurn(d: Draft, items: seq<Item>, more: seq<Item>)
    ensures WithItems(d, items + more) == WithItems(WithItems(d, items), more)
    decreases |items|
  {
    hide WithItem;
    if items == [] {
      assert items + more == more;
    } else {
      assert (items + more)[1..] == items[1..] + more;
      ItemsInTurn(WithItem(d, items[0]), items[1..], more);
    }
  }

  lemma {:induction false} MetadataInTurn(d: Draft, ms: seq<Metadata>, more: seq<Metadata>)
    ensures WithAllMetadata(d, ms + more) == WithAllMetadata(WithAllMetadata(d, ms), more)
    decreases |ms|
  {
    hide WithMetadata;
    if ms == [] {
      assert ms + more == more;
    } else {
      assert (ms + more)[1..] == ms[1..] + more;
      MetadataInTurn(WithMetadata(d, ms[0]), ms[1..], more);
    }
  }

  /** With one setting in a definition, its mode is that of the setting; structs after it are parsed in its order,
      and structs before it in big-endian order. */
  lemma SettingTakesEffect(a: Around, order: Endian)
    requires SilentAround(a)
    ensures var d := WithItems(EMPTY_DRAFT, With(a, [EndianIs(ModeOf(order))]));
      d.mode == ModeOf(order) &&
      (NoStructs(a.before) ==> AllInOrder(d.structs, order)) && (NoStructs(a.after) ==> AllInOrder(d.structs, Big))
  {
    hide AllSilent, AllInOrder, NoStructs, SilentEntries, InOrder;
    var e := EndianIs(ModeOf(order));
    var item := ProtocolItem(a.first + ([e] + a.last));
    var d0 := WithItems(EMPTY_DRAFT, a.before);
    ItemsInTurn(EMPTY_DRAFT, a.before, [item] + a.after);
    assert AllInOrder([], Big) && AllInOrder([], order) by { NoStructsInOrder(); }
    SilentItems(EMPTY_DRAFT, a.before);
    var d1 := WithAllMetadata(d0, a.first);
    MetadataInTurn(d0, a.first, [e] + a.last);
    MetadataOnly(d0, a.first);
    var d2 := WithMetadata(d1, e);
    assert ([e] + a.last)[1..] == a.last;
    SilentMetadata(d2, a.last);
    MetadataOnly(d2, a.last);
    var d3 := WithAllMetadata(d2, a.last);
    assert ([item] + a.after)[1..] == a.after;
    assert WithItem(d0, item) == d3;
    SilentItems(d3, a.after);
  }

  lemma NoStructsInOrder()
    ensures AllInOrder([], Big) && AllInOrder([], Little)
  {
  }
}
