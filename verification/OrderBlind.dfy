/** The byte order of fields has no influence on names, places and errors: definitions that differ only in it are
    built alike, and mean the same when read in one order. */
module OrderBlind {
  import opened Pdef
  import opened Compiler
  import opened Flatten
  import opened Definition
  import opened Protocol
  import opened Grammar
  import opened Syntax
  import opened Places

  function Blind(s: StructDef): StructDef { s.(fields := WithOrder(s.fields, Big)) }

  function BlindAll(structs: seq<StructDef>): (r: seq<StructDef>)
    ensures |r| == |structs|
    ensures forall i :: 0 <= i < |r| ==> r[i] == Blind(structs[i])
  {
    seq(|structs|, i requires 0 <= i < |structs| => Blind(structs[i]))
  }

  function BlindLayout(l: Flatten.Layout): Flatten.Layout { l.(fields := WithOrder(l.fields, Big)) }

  // ---------- Flattening ----------

  lemma {:induction false} WithOrderAppend(a: seq<Field>, b: seq<Field>, order: Endian)
    ensures WithOrder(a + b, order) == WithOrder(a, order) + WithOrder(b, order)
  {
    if a == [] {
      assert a + b == b;
    } else {
      WithOrderAppend(a[1..], b, order);
      assert (a + b)[1..] == a[1..] + b;
    }
  }

  lemma {:induction false} WithOrderTwice(fields: seq<Field>, first: Endian, order: Endian)
    ensures WithOrder(WithOrder(fields, first), order) == WithOrder(fields, order)
  {
    if fields != [] {
      WithOrderTwice(fields[1..], first, order);
    }
  }

  lemma {:induction false} ExpandedBlind(fields: seq<Field>, prefix: string, base: nat)
    ensures WithOrder(Expanded(fields, prefix, base), Big) == Expanded(WithOrder(fields, Big), prefix, base)
  {
    if fields != [] {
      ExpandedBlind(fields[1..], prefix, base);
    }
  }

  lemma {:induction false} ElementsBlind(nested: StructDef, f: Field, typeName: string, fieldName: string, base: nat, idx: nat)
    requires |typeName| <= NAME_ROOM && idx <= Repeat(f)
    ensures var g := f.(endian := Big);
      Repeat(g) == Repeat(f) &&
      WithOrder(Elements(nested, f, typeName, fieldName, base, idx), Big) ==
        Elements(Blind(nested), g, typeName, fieldName, base, idx)
    decreases Repeat(f) - idx
  {
    hide Expanded, ElementBase, WithOrder, Fit;
    if idx < Repeat(f) {
      var prefix := ElementName(f, typeName, fieldName, idx);
      var at := ElementBase(base, idx, nested.minSize);
      assert ElementName(f.(endian := Big), typeName, fieldName, idx) == prefix;
      ElementsBlind(nested, f, typeName, fieldName, base, idx + 1);
      ExpandedBlind(nested.fields, prefix, at);
      WithOrderAppend(Expanded(nested.fields, prefix, at), Elements(nested, f, typeName, fieldName, base, idx + 1), Big);
    } else {
      assert WithOrder([], Big) == [] by { NoFieldsBlind(); }
    }
  }

  lemma NoFieldsBlind()
    ensures WithOrder([], Big) == []
  {
  }

  lemma {:induction false} FirstLongBlind(f: Field, typeName: string, fieldName: string, idx: nat)
    requires |typeName| <= NAME_ROOM && idx <= Repeat(f)
    ensures var g := f.(endian := Big);
      Repeat(g) == Repeat(f) && FirstLong(g, typeName, fieldName, idx) == FirstLong(f, typeName, fieldName, idx)
    decreases Repeat(f) - idx
  {
    hide Fit;
    if idx < Repeat(f) {
      assert ElementField(f.(endian := Big), typeName, fieldName, idx) == ElementField(f, typeName, fieldName, idx);
      FirstLongBlind(f, typeName, fieldName, idx + 1);
    }
  }

  lemma {:induction false} FindBlind(structs: seq<StructDef>, name: string)
    ensures var r := FindStruct(structs, name);
      FindStruct(BlindAll(structs), name) == if r.None? then None else Some(Blind(r.value))
  {
    hide Blind;
    assert forall s: StructDef :: Blind(s).name == s.name by { BlindNames(); }
    if structs != [] && structs[0].name != name {
      FindBlind(structs[1..], name);
      assert BlindAll(structs)[1..] == BlindAll(structs[1..]);
    }
  }

  lemma BlindNames()
    ensures forall s: StructDef :: Blind(s).name == s.name && Blind(s).minSize == s.minSize && Blind(s).hasVariable == s.hasVariable
  {
  }

  lemma AddFieldBlind(structs: seq<StructDef>, name: string, l: Flatten.Layout, f: Field)
    ensures var r := AddField(structs, name, l, f);
      AddField(BlindAll(structs), name, BlindLayout(l), f.(endian := Big)) == if r.Err? then Err(r.error) else Ok(BlindLayout(r.value))
  {
    hide Elements, FindStruct, NestedNames, FirstLong, BlindAll, WithOrder;
    if f.ftype.Nested? && NestedNames(f.name).Ok? {
      var (typeName, fieldName) := NestedNames(f.name).value;
      FindBlind(structs, typeName);
      var found := FindStruct(structs, typeName);
      if found.Some? && Repeat(f) > 0 {
        FirstLongBlind(f, typeName, fieldName, 0);
        ElementsBlind(found.value, f, typeName, fieldName, l.size, 0);
        WithOrderAppend(l.fields, Elements(found.value, f, typeName, fieldName, l.size, 0), Big);
      }
    } else {
      WithOrderAppend(l.fields, [f.(offset := l.size)], Big);
      OneBlind(f.(offset := l.size));
    }
  }

  lemma OneBlind(f: Field)
    ensures WithOrder([f], Big) == [f.(endian := Big)]
  {
    assert [f][1..] == [];
  }

  lemma {:induction false} AddFieldsBlind(structs: seq<StructDef>, name: string, l: Flatten.Layout, fields: seq<Field>)
    ensures var r := AddFields(structs, name, l, fields);
      AddFields(BlindAll(structs), name, BlindLayout(l), WithOrder(fields, Big)) == if r.Err? then Err(r.error) else Ok(BlindLayout(r.value))
    decreases |fields|
  {
    hide AddField, BlindAll, BlindLayout;
    if fields != [] {
      AddFieldBlind(structs, name, l, fields[0]);
      var r := AddField(structs, name, l, fields[0]);
      assert WithOrder(fields, Big)[1..] == WithOrder(fields[1..], Big);
      if r.Ok? {
        AddFieldsBlind(structs, name, r.value, fields[1..]);
      }
    }
  }

  lemma FlattenedStructBlind(structs: seq<StructDef>, i: nat)
    requires i < |structs|
    ensures var r := FlattenedStruct(structs, i);
      FlattenedStruct(BlindAll(structs), i) == if r.Err? then Err(r.error) else Ok(Blind(r.value))
  {
    hide AddFields, WithOrder;
    var s := structs[i];
    var view := structs[i := s.(hasVariable := false)];
    assert BlindAll(structs)[i := Blind(s).(hasVariable := false)] == BlindAll(view);
    NoFieldsBlind();
    AddFieldsBlind(view, s.name, Flatten.Layout([], 0, false), s.fields);
  }

  lemma {:induction false} FlattenedFromBlind(structs: seq<StructDef>, i: nat)
    requires i <= |structs|
    ensures var r := FlattenedFrom(structs, i);
      FlattenedFrom(BlindAll(structs), i) == if r.Err? then Err(r.error) else Ok(BlindAll(r.value))
    decreases |structs| - i
  {
    hide FlattenedStruct, Blind;
    if i < |structs| {
      FlattenedStructBlind(structs, i);
      var r := FlattenedStruct(structs, i);
      if r.Ok? {
        assert BlindAll(structs)[i := Blind(r.value)] == BlindAll(structs[i := r.value]);
        FlattenedFromBlind(structs[i := r.value], i + 1);
      }
    }
  }

  // ---------- Compiling ----------

  lemma {:induction false} FindFieldBlind(fields: seq<Field>, path: string)
    ensures FindField(WithOrder(fields, Big), path).Some? <==> FindField(fields, path).Some?
  {
    if fields != [] {
      FindFieldBlind(fields[1..], path);
      assert WithOrder(fields, Big)[1..] == WithOrder(fields[1..], Big);
    }
  }

  lemma {:induction false} FindTargetBlind(flat: seq<StructDef>, path: string)
    ensures var r := FindTarget(flat, path);
      FindTarget(BlindAll(flat), path) == if r.None? then None else Some(Blind(r.value))
  {
    hide FindField;
    if flat != [] {
      FindFieldBlind(flat[0].fields, path);
      FindTargetBlind(flat[1..], path);
      assert BlindAll(flat)[1..] == BlindAll(flat[1..]);
    }
  }

  lemma CompiledRuleBlind(flat: seq<StructDef>, rule: TempRule)
    ensures CompiledRule(BlindAll(flat), rule).Ok? <==> CompiledRule(flat, rule).Ok?
  {
    hide CompiledRule, FindTarget, FindField, BlindAll;
    CompiledRuleIff(flat, rule);
    CompiledRuleIff(BlindAll(flat), rule);
    if rule.conditions != [] {
      FindTargetBlind(flat, rule.conditions[0].fieldName);
      var target := FindTarget(flat, rule.conditions[0].fieldName);
      if target.Some? {
        forall path
          ensures FindField(WithOrder(target.value.fields, Big), path).Some? <==> FindField(target.value.fields, path).Some?
        {
          FindFieldBlind(target.value.fields, path);
        }
      }
    }
  }

  lemma {:induction false} CompiledRulesBlind(flat: seq<StructDef>, rules: seq<TempRule>)
    ensures CompiledRules(BlindAll(flat), rules).Ok? <==> CompiledRules(flat, rules).Ok?
    decreases |rules|
  {
    hide CompiledRule, BlindAll;
    if rules != [] {
      CompiledRuleBlind(flat, rules[0]);
      CompiledRulesBlind(flat, rules[1..]);
    }
  }

  lemma BuiltBlind(structs: seq<StructDef>, rules: seq<TempRule>)
    ensures Built(BlindAll(structs), rules).Ok? <==> Built(structs, rules).Ok?
  {
    hide FlattenedFrom, CompiledRules, BlindAll;
    FlattenedFromBlind(structs, 0);
    if Flattened(structs).Ok? {
      CompiledRulesBlind(Flattened(structs).value, rules);
    }
  }

  /** Definitions that differ only in the byte order of fields are built alike. */
  lemma BuiltAlike(structs: seq<StructDef>, others: seq<StructDef>, rules: seq<TempRule>)
    requires BlindAll(structs) == BlindAll(others)
    ensures Built(structs, rules).Ok? <==> Built(others, rules).Ok?
  {
    hide Built, BlindAll;
    BuiltBlind(structs, rules);
    BuiltBlind(others, rules);
  }

  lemma RuleBlind(flat: seq<StructDef>, rule: TempRule, order: Endian, packet: Packet)
    ensures RuleHoldsIn(BlindAll(flat), rule, order, packet) <==> RuleHoldsIn(flat, rule, order, packet)
  {
    hide FindTarget, RuleAcceptsOver, BlindAll;
    if rule.conditions != [] {
      FindTargetBlind(flat, rule.conditions[0].fieldName);
      var target := FindTarget(flat, rule.conditions[0].fieldName);
      if target.Some? {
        WithOrderTwice(target.value.fields, Big, order);
      }
    }
  }

  lemma HoldsBlind(structs: seq<StructDef>, rules: seq<TempRule>, order: Endian, packet: Packet)
    requires Flattened(structs).Ok?
    ensures Flattened(BlindAll(structs)).Ok?
    ensures DefinitionHolds(BlindAll(structs), rules, order, packet) <==> DefinitionHolds(structs, rules, order, packet)
  {
    hide FlattenedFrom, RuleHoldsIn, BlindAll;
    FlattenedFromBlind(structs, 0);
    var flat := Flattened(structs).value;
    forall k | 0 <= k < |rules|
      ensures RuleHoldsIn(BlindAll(flat), rules[k], order, packet) <==> RuleHoldsIn(flat, rules[k], order, packet)
    {
      RuleBlind(flat, rules[k], order, packet);
    }
  }

  /** Read in one byte order, definitions that differ only in the byte order of fields mean the same. */
  lemma HoldsAlike(structs: seq<StructDef>, others: seq<StructDef>, rules: seq<TempRule>, order: Endian, packet: Packet)
    requires BlindAll(structs) == BlindAll(others) && Flattened(structs).Ok? && Flattened(others).Ok?
    ensures DefinitionHolds(structs, rules, order, packet) <==> DefinitionHolds(others, rules, order, packet)
  {
    hide DefinitionHolds, BlindAll, FlattenedFrom;
    HoldsBlind(structs, rules, order, packet);
    HoldsBlind(others, rules, order, packet);
  }

  // ---------- Written definitions ----------

  /** Two definitions that agree but for names, the mode and byte orders. */
  ghost predicate Alike(d: Draft, e: Draft) {
    d.constants == e.constants && d.rules == e.rules && BlindAll(d.structs) == BlindAll(e.structs)
  }

  lemma {:induction false} WithFieldsBlind(s: StructDef, t: StructDef, fs: seq<FieldSyntax>, order: Endian, other: Endian)
    requires Blind(s) == Blind(t)
    ensures Blind(WithFields(s, fs, order)) == Blind(WithFields(t, fs, other))
    decreases |fs|
  {
    hide WithOrder;
    if fs != [] {
      var f, g := DefinedField(fs[0], order), DefinedField(fs[0], other);
      WithOrderAppend(s.fields, [f], Big);
      WithOrderAppend(t.fields, [g], Big);
      OneBlind(f);
      OneBlind(g);
      WithFieldsBlind(s.(fields := s.fields + [f], hasVariable := IsVarbytes(fs[0])),
                      t.(fields := t.fields + [g], hasVariable := IsVarbytes(fs[0])), fs[1..], order, other);
    }
  }

  lemma BlindAppend(structs: seq<StructDef>, s: StructDef)
    ensures BlindAll(structs + [s]) == BlindAll(structs) + [Blind(s)]
  {
  }

  lemma {:induction false} ItemsAlike(d: Draft, e: Draft, items: seq<Item>)
    requires Alike(d, e)
    ensures Alike(WithItems(d, items), WithItems(e, items))
    decreases |items|
  {
    hide WithFields, WithEntries, BlindAll, Blind;
    if items != [] {
      match items[0] {
        case ProtocolItem(ms) => MetadataOnly(d, ms); MetadataOnly(e, ms);
        case ConstItem(cs) => ConstantsOnly(d, e, cs);
        case StructItem(name, fs) =>
          var s := StructDef(name, [], 0, false);
          WithFieldsBlind(s, s, fs, d.defaultEndian, e.defaultEndian);
          BlindAppend(d.structs, WithFields(s, fs, d.defaultEndian));
          BlindAppend(e.structs, WithFields(s, fs, e.defaultEndian));
        case FilterItem(_, _) =>
      }
      ItemsAlike(WithItem(d, items[0]), WithItem(e, items[0]), items[1..]);
    }
  }

  /** What is at the place of a @protocol block has no influence but on the name, the mode and byte orders. */
  lemma EntriesAlike(a: Around, entries: seq<Metadata>, others: seq<Metadata>)
    ensures Alike(WithItems(EMPTY_DRAFT, With(a, entries)), WithItems(EMPTY_DRAFT, With(a, others)))
  {
    hide BlindAll;
    var d := WithItems(EMPTY_DRAFT, a.before);
    var item, other := ProtocolItem(a.first + (entries + a.last)), ProtocolItem(a.first + (others + a.last));
    ItemsInTurn(EMPTY_DRAFT, a.before, [item] + a.after);
    ItemsInTurn(EMPTY_DRAFT, a.before, [other] + a.after);
    assert ([item] + a.after)[1..] == a.after && ([other] + a.after)[1..] == a.after;
    MetadataOnly(d, item.metadata);
    MetadataOnly(d, other.metadata);
    ItemsAlike(WithItem(d, item), WithItem(d, other), a.after);
  }
}
