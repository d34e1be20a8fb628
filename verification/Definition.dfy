/** From a parsed definition to its compiled rules: flattening, compiling and the two byte orders together. */
module Definition {
  import opened Pdef
  import opened ByteOrder
  import opened Executor
  import opened Compiler
  import opened Meaning
  import opened CompilerCorrect
  import opened Flatten
  import opened Layout
  import opened Mirror
  import opened Overlap

  // ---------- Fields as the struct parser produces them ----------

  predicate Integer(t: FieldType) { !t.Bytes? && !t.String? && !t.Varbytes? && !t.Nested? }

  /** The sizes of the integer types. */
  predicate RightSize(t: FieldType, size: nat) {
    (t.Uint8? || t.Int8? ==> size == 1) && (t.Uint16? || t.Int16? ==> size == 2) &&
    (t.Uint32? || t.Int32? ==> size == 4) && (t.Uint64? || t.Int64? ==> size == 8)
  }

  /** Integers have the size of their type, and only varbytes is of variable length. */
  predicate ParsedField(f: Field) { RightSize(f.ftype, f.size) && (f.isVariable <==> f.ftype.Varbytes?) }

  ghost predicate AllParsed(fields: seq<Field>) {
    forall f :: f in fields ==> ParsedField(f)
  }

  ghost predicate ParsedStructs(structs: seq<StructDef>) {
    forall i :: 0 <= i < |structs| ==> AllParsed(structs[i].fields)
  }

  // ---------- What flattening leaves alone ----------

  /** A property of fields that does not depend on their name and place. */
  ghost predicate Placeless(P: Field -> bool) {
    forall f, name, offset :: P(f) ==> P(f.(name := name, offset := offset))
  }

  ghost predicate All(P: Field -> bool, fields: seq<Field>) { forall f :: f in fields ==> P(f) }

  ghost predicate AllStructs(P: Field -> bool, structs: seq<StructDef>) { forall s :: s in structs ==> All(P, s.fields) }

  lemma {:induction false} ExpandedKeep(P: Field -> bool, fields: seq<Field>, prefix: string, base: nat)
    requires Placeless(P) && All(P, fields)
    ensures All(P, Expanded(fields, prefix, base))
  {
    if fields != [] {
      assert fields[0] in fields;
      MovedKeeps(P, fields[0], prefix, base);
      ExpandedKeep(P, fields[1..], prefix, base);
    }
  }

  lemma MovedKeeps(P: Field -> bool, f: Field, prefix: string, base: nat)
    requires Placeless(P) && P(f)
    ensures P(Moved(f, prefix, base))
  {
    var g := Moved(f, prefix, base);
    assert g == f.(name := g.name, offset := g.offset);
  }

  lemma {:induction false} ElementsKeep(P: Field -> bool, nested: StructDef, f: Field, typeName: string, fieldName: string, base: nat, idx: nat)
    requires |typeName| <= NAME_ROOM && idx <= Repeat(f) && Placeless(P) && All(P, nested.fields)
    ensures All(P, Elements(nested, f, typeName, fieldName, base, idx))
    decreases Repeat(f) - idx
  {
    hide Expanded, Repeat, ElementField, ElementBase, Placeless;
    if idx < Repeat(f) {
      ExpandedKeep(P, nested.fields, ElementName(f, typeName, fieldName, idx), ElementBase(base, idx, nested.minSize));
      ElementsKeep(P, nested, f, typeName, fieldName, base, idx + 1);
    }
  }

  lemma {:induction false} FoundKeeps(P: Field -> bool, structs: seq<StructDef>, name: string)
    requires AllStructs(P, structs) && FindStruct(structs, name).Some?
    ensures All(P, FindStruct(structs, name).value.fields)
  {
    if structs[0].name != name {
      FoundKeeps(P, structs[1..], name);
    }
  }

  lemma {:induction false} AddFieldsKeep(P: Field -> bool, structs: seq<StructDef>, name: string, l: Flatten.Layout, fields: seq<Field>)
    requires Placeless(P) && AllStructs(P, structs) && All(P, l.fields) && All(P, fields)
    requires AddFields(structs, name, l, fields).Ok?
    ensures All(P, AddFields(structs, name, l, fields).value.fields)
    decreases |fields|
  {
    hide AddField, Placeless, AllStructs;
    if fields != [] {
      assert fields[0] in fields;
      AddFieldKeeps(P, structs, name, l, fields[0]);
      AddFieldsKeep(P, structs, name, AddField(structs, name, l, fields[0]).value, fields[1..]);
    }
  }

  lemma AddFieldKeeps(P: Field -> bool, structs: seq<StructDef>, name: string, l: Flatten.Layout, f: Field)
    requires Placeless(P) && AllStructs(P, structs) && All(P, l.fields) && P(f) && AddField(structs, name, l, f).Ok?
    ensures All(P, AddField(structs, name, l, f).value.fields)
  {
    hide Elements, FindStruct, NestedNames, FirstLong, Repeat;
    if f.ftype.Nested? {
      var (typeName, fieldName) := NestedNames(f.name).value;
      FoundKeeps(P, structs, typeName);
      ElementsKeep(P, FindStruct(structs, typeName).value, f, typeName, fieldName, l.size, 0);
    } else {
      assert P(f.(name := f.name, offset := l.size));
    }
  }

  /** What all fields have, however they are named and placed, all flattened fields have. */
  lemma {:induction false} FlattenedKeeps(P: Field -> bool, structs: seq<StructDef>, i: nat)
    requires Placeless(P) && AllStructs(P, structs) && i <= |structs| && FlattenedFrom(structs, i).Ok?
    ensures AllStructs(P, FlattenedFrom(structs, i).value)
    decreases |structs| - i
  {
    hide AddFields, Placeless, All;
    if i < |structs| {
      var s := structs[i];
      var view := structs[i := s.(hasVariable := false)];
      assert forall t :: t in view ==> t in structs || t.fields == s.fields;
      assert All(P, []) by { NoneAll(P); }
      AddFieldsKeep(P, view, s.name, Flatten.Layout([], 0, false), s.fields);
      var flat := FlattenedStruct(structs, i).value;
      assert forall t :: t in structs[i := flat] ==> t in structs || t == flat;
      FlattenedKeeps(P, structs[i := flat], i + 1);
    }
  }

  lemma NoneAll(P: Field -> bool)
    ensures All(P, [])
  {
  }

  /** Flattening keeps the sizes the parser gave. */
  lemma FlattenedParsed(structs: seq<StructDef>, i: nat)
    requires ParsedStructs(structs) && Flattened(structs).Ok? && i < |Flattened(structs).value|
    ensures AllParsed(Flattened(structs).value[i].fields)
  {
    hide FlattenedFrom;
    var P := (f: Field) => ParsedField(f);
    assert Placeless(P);
    assert AllStructs(P, structs);
    FlattenedKeeps(P, structs, 0);
    assert Flattened(structs).value[i] in Flattened(structs).value;
  }

  // ---------- What the layout gives the compiled program ----------

  /** Where the fields tile their space, no integer field is cut off in a packet of at least the minimum size. */
  lemma GateCoversIntegers(structs: seq<StructDef>, i: nat, f: Field, packet: Packet)
    requires ParsedStructs(structs) && Flattened(structs).Ok? && i < |Flattened(structs).value|
    requires StructTiles(Flattened(structs).value[i])
    requires f in Flattened(structs).value[i].fields
    requires !f.ftype.Bytes? && !f.ftype.String? && !f.ftype.Varbytes? && !f.ftype.Nested?
    requires |packet| >= Flattened(structs).value[i].minSize
    ensures FieldValue(packet, f).Some?
  {
    hide Flattened;
    var s := Flattened(structs).value[i];
    FlattenedParsed(structs, i);
    var k :| 0 <= k < |s.fields| && s.fields[k] == f;
    TilesDisjoint(s.fields, 0, s.minSize, k, k);
  }

  /** A field that takes no space is compared by a byte that belongs to what follows it: a bytes or string field of
      length zero, a field of variable length, or one whose struct is used before its definition. */
  predicate ReadsBeyond(f: Field) { !Integer(f.ftype) && Space(f) == 0 }

  /** Field k takes no space and lies at the offset of a multi-byte integer. */
  ghost predicate OnInteger(fields: seq<Field>, k: nat)
    requires k < |fields|
  {
    ReadsBeyond(fields[k]) &&
    exists j :: 0 <= j < |fields| && MultiByte(fields[j].ftype) && fields[j].offset == fields[k].offset
  }

  /** A field of a flattened struct whose fields tile shares no byte with the other multi-byte integers, exactly
      unless it takes no space and lies at the offset of one. */
  lemma IsolatedExactly(structs: seq<StructDef>, i: nat, k: nat)
    requires ParsedStructs(structs) && Flattened(structs).Ok? && i < |Flattened(structs).value|
    requires StructTiles(Flattened(structs).value[i]) && k < |Flattened(structs).value[i].fields|
    ensures Isolated(Flattened(structs).value[i].fields, k) <==> !OnInteger(Flattened(structs).value[i].fields, k)
  {
    hide Flattened;
    var s := Flattened(structs).value[i];
    var fields := s.fields;
    FlattenedParsed(structs, i);
    var f := fields[k];
    assert f in fields;
    forall j | 0 <= j < |fields| && j != k && MultiByte(fields[j].ftype)
      ensures Apart(f, fields[j]) <==> !(ReadsBeyond(f) && fields[j].offset == f.offset)
    {
      assert fields[j] in fields;
      if j < k {
        TilesDisjoint(fields, 0, s.minSize, j, k);
      } else {
        TilesDisjoint(fields, 0, s.minSize, k, j);
      }
    }
    if OnInteger(fields, k) {
      var j :| 0 <= j < |fields| && MultiByte(fields[j].ftype) && fields[j].offset == fields[k].offset;
      assert !Apart(f, fields[j]);
    }
  }

  // ---------- Compiled rules ----------

  /** A rule compiles exactly when it has a condition, some struct has the field of the first one, no value
      list is empty, and the first such struct has all the fields. */
  lemma CompiledRuleIff(flat: seq<StructDef>, rule: TempRule)
    ensures CompiledRule(flat, rule).Ok? <==>
            rule.conditions != [] &&
            FindTarget(flat, rule.conditions[0].fieldName).Some? &&
            ListsNonEmpty(rule.conditions) &&
            Resolved(FindTarget(flat, rule.conditions[0].fieldName).value.fields, rule.conditions)
  {
    hide RuleCode, FindTarget, FirstEmptyList;
    EmptyListsReported(rule.name, rule.conditions);
  }

  /** The target of a rule is a struct of the definition, and no earlier struct has the field. */
  lemma {:induction false} TargetIsFirst(flat: seq<StructDef>, path: string) returns (i: nat)
    requires FindTarget(flat, path).Some?
    ensures i < |flat| && FindTarget(flat, path) == Some(flat[i])
    ensures FindField(flat[i].fields, path).Some?
    ensures forall k :: 0 <= k < i ==> FindField(flat[k].fields, path).None?
  {
    if FindField(flat[0].fields, path).Some? {
      i := 0;
    } else {
      i := TargetIsFirst(flat[1..], path);
      i := i + 1;
      assert forall k :: 1 <= k < i ==> flat[k] == flat[1..][k - 1];
    }
  }

  /** The fields, all read in one byte order. */
  function WithOrder(fields: seq<Field>, order: Endian): seq<Field> {
    if fields == [] then [] else [fields[0].(endian := order)] + WithOrder(fields[1..], order)
  }

  /** All fields have the byte order. */
  ghost predicate InOrder(fields: seq<Field>, order: Endian) { forall f :: f in fields ==> f.endian == order }

  /** All structs were parsed while the byte order was the default. */
  ghost predicate AllInOrder(structs: seq<StructDef>, order: Endian) {
    forall s :: s in structs ==> InOrder(s.fields, order)
  }

  lemma {:induction false} OrdersOf(fields: seq<Field>, order: Endian)
    requires InOrder(fields, order)
    ensures fields == WithOrder(fields, order)
    ensures SwapFields(fields) == WithOrder(fields, Other(order))
  {
    if fields != [] {
      assert fields[0] in fields;
      OrdersOf(fields[1..], order);
    }
  }

  lemma FlattenedFromOrder(structs: seq<StructDef>, i: nat, order: Endian)
    requires AllInOrder(structs, order) && i <= |structs| && FlattenedFrom(structs, i).Ok?
    ensures AllInOrder(FlattenedFrom(structs, i).value, order)
  {
    hide FlattenedFrom;
    var P := (f: Field) => f.endian == order;
    assert Placeless(P);
    assert AllStructs(P, structs);
    FlattenedKeeps(P, structs, i);
    var flat := FlattenedFrom(structs, i).value;
    forall s | s in flat
      ensures InOrder(s.fields, order)
    {
      assert All(P, s.fields);
    }
  }

  lemma NoFields(order: Endian)
    ensures InOrder([], order)
  {
  }

  /** The struct a compiled rule is about. */
  ghost predicate RuleOf(structs: seq<StructDef>, rule: TempRule, r: FilterRule, i: nat) {
    Flattened(structs).Ok? && i < |Flattened(structs).value| &&
    rule.conditions != [] && CompiledRule(Flattened(structs).value, rule) == Ok(r) &&
    FindTarget(Flattened(structs).value, rule.conditions[0].fieldName) == Some(Flattened(structs).value[i])
  }

  /** What the two programs of a rule decide, by the byte order that was the default while the structs were
      parsed: codeBE reads that order and codeLE reads the other one.  So the labels are right exactly for
      the default big; with default little they are exchanged. */
  lemma ProgramsReadOrders(structs: seq<StructDef>, order: Endian, rule: TempRule, r: FilterRule, i: nat, packet: Packet)
    requires AllInOrder(structs, order) && RuleOf(structs, rule, r, i)
    ensures ForwardOnly(r.codeBE) && ForwardOnly(r.codeLE) && r.codeLE == SwapCode(r.codeBE)
    ensures var fields := Flattened(structs).value[i].fields;
      (Verdict(packet, r.codeBE) <==> RuleHolds(packet, WithOrder(fields, order), rule.conditions)) &&
      (Verdict(packet, r.codeLE) <==> RuleHolds(packet, WithOrder(fields, Other(order)), rule.conditions))
  {
    hide FlattenedFrom, RuleCode, FindTarget, FirstEmptyList, RuleHolds, Verdict;
    var flat := Flattened(structs).value;
    CompiledRuleIff(flat, rule);
    FlattenedFromOrder(structs, 0, order);
    assert flat[i] in flat;
    OrdersOf(flat[i].fields, order);
    BothProgramsCorrect(packet, flat[i].fields, rule.conditions);
  }

  // ---------- The mirror for a whole definition ----------

  /** Where the fields tile, and unless a rule compares a field without space that lies on an integer, its little-endian program decides a
      packet as its big-endian program decides the mirrored packet. */
  lemma RuleMirror(structs: seq<StructDef>, rule: TempRule, r: FilterRule, i: nat, packet: Packet)
    requires ParsedStructs(structs) && RuleOf(structs, rule, r, i) && StructTiles(Flattened(structs).value[i])
    requires var fields := Flattened(structs).value[i].fields;
      Resolved(fields, rule.conditions) ==>
        forall c :: c in rule.conditions ==> !OnInteger(fields, FieldIndex(fields, c.fieldName))
    ensures ForwardOnly(r.codeBE) && ForwardOnly(r.codeLE)
    ensures Verdict(packet, r.codeLE) <==>
            Verdict(MirrorPacket(packet, Flattened(structs).value[i].fields), r.codeBE)
  {
    hide Flattened, RuleCode, FindTarget, FirstEmptyList, Isolated, OnInteger;
    var flat := Flattened(structs).value;
    var fields := flat[i].fields;
    CompiledRuleIff(flat, rule);
    forall c | c in rule.conditions
      ensures Isolated(fields, FieldIndex(fields, c.fieldName))
    {
      IsolatedExactly(structs, i, FieldIndex(fields, c.fieldName));
    }
    MirrorTheorem(packet, fields, rule.conditions);
  }

  /** The programs of these conditions decide the packet and its mirror alike. */
  ghost predicate MirrorAgrees(packet: Packet, fields: seq<Field>, conds: seq<Condition>) {
    var be, le := RuleCode(fields, conds), SwapCode(RuleCode(fields, conds));
    ForwardOnly(be) && ForwardOnly(le) && (Verdict(packet, le) <==> Verdict(MirrorPacket(packet, fields), be))
  }

  ghost predicate About(conds: seq<Condition>, path: string) { forall c :: c in conds ==> c.fieldName == path }

  /** Whatever is asked of field k, the mirror holds on every packet. */
  ghost predicate Mirrors(fields: seq<Field>, k: nat)
    requires k < |fields|
  {
    forall packet: Packet, conds: seq<Condition> :: About(conds, fields[k].name) && ListsNonEmpty(conds) ==>
      MirrorAgrees(packet, fields, conds)
  }

  /** A packet that is zero but for the last byte of the integer at `offset`. */
  function LastByteSet(offset: nat, width: nat): (packet: Packet)
    requires width > 1
    ensures |packet| == offset + width
    ensures forall p :: 0 <= p < |packet| ==> packet[p] == if p == offset + width - 1 then 1 else 0
  {
    seq(offset + width, p => if p == offset + width - 1 then 1 else 0)
  }

  /** A field that takes no space is read as the byte at its offset. */
  lemma ReadsFirstByte(packet: Packet, f: Field)
    requires ReadsBeyond(f) && f.offset < |packet|
    ensures FieldValue(packet, f) == Some(packet[f.offset])
  {
    hide Number;
    ReadsByte(packet, f.offset, f.endian);
  }

  /** Field k on the integer j: its first byte is zero in the packet and one in the mirrored packet. */
  lemma MirrorMovesByte(fields: seq<Field>, k: nat, j: nat)
    requires k < |fields| && j < |fields| && MultiByte(fields[j].ftype) && Isolated(fields, j)
    requires ReadsBeyond(fields[k]) && fields[j].offset == fields[k].offset
    ensures var packet := LastByteSet(fields[j].offset, Width(fields[j].ftype));
      FieldValue(packet, SwapField(fields[k])) == Some(0) &&
      FieldValue(MirrorPacket(packet, fields), fields[k]) == Some(1)
  {
    hide MirrorPacket, FieldValue, Isolated;
    var o, w := fields[j].offset, Width(fields[j].ftype);
    var packet := LastByteSet(o, w);
    var mirrored := MirrorPacket(packet, fields);
    MirrorReverses(packet, fields, j);
    assert mirrored[o] == mirrored[o..o + w][0] == packet[o..o + w][w - 1] == packet[o + w - 1];
    ReadsFirstByte(packet, SwapField(fields[k]));
    ReadsFirstByte(mirrored, fields[k]);
  }

  /** The condition that tells the two packets apart. */
  function IsZero(path: string): Condition { Condition(path, Eq, 0, 0, []) }

  lemma MirrorBroken(fields: seq<Field>, k: nat, j: nat)
    requires k < |fields| && j < |fields| && MultiByte(fields[j].ftype) && Isolated(fields, j)
    requires ReadsBeyond(fields[k]) && fields[j].offset == fields[k].offset
    requires FieldIndex(fields, fields[k].name) == k
    ensures var packet := LastByteSet(fields[j].offset, Width(fields[j].ftype));
      var conds := [IsZero(fields[k].name)];
      var be, le := RuleCode(fields, conds), SwapCode(RuleCode(fields, conds));
      ForwardOnly(be) && ForwardOnly(le) && Verdict(packet, le) && !Verdict(MirrorPacket(packet, fields), be)
  {
    hide MirrorPacket, FieldValue, Isolated, LastByteSet, RuleCode, Verdict;
    var packet := LastByteSet(fields[j].offset, Width(fields[j].ftype));
    var c := IsZero(fields[k].name);
    MirrorMovesByte(fields, k, j);
    FindSwapped(fields, c.fieldName);
    assert c in [c];
    BothProgramsCorrect(packet, fields, [c]);
    BothProgramsCorrect(MirrorPacket(packet, fields), fields, [c]);
    assert CondHolds(packet, SwapFields(fields), c) && !CondHolds(MirrorPacket(packet, fields), fields, c);
  }

  /** The exact condition, in every struct whose fields tile: everything that can be asked of a field (the first of
      its name, since no rule finds another) mirrors if and only if the field is isolated, that is, unless it takes no
      space and lies at the offset of a multi-byte integer. */
  lemma MirrorsExactly(structs: seq<StructDef>, i: nat, k: nat)
    requires ParsedStructs(structs) && Flattened(structs).Ok? && i < |Flattened(structs).value|
    requires StructTiles(Flattened(structs).value[i])
    requires k < |Flattened(structs).value[i].fields|
    requires FieldIndex(Flattened(structs).value[i].fields, Flattened(structs).value[i].fields[k].name) == k
    ensures var fields := Flattened(structs).value[i].fields;
      (Mirrors(fields, k) <==> Isolated(fields, k)) && (Isolated(fields, k) <==> !OnInteger(fields, k))
  {
    hide Flattened, Isolated, RuleCode, LastByteSet, MirrorPacket, Verdict;
    var fields := Flattened(structs).value[i].fields;
    IsolatedExactly(structs, i, k);
    if Isolated(fields, k) {
      forall packet: Packet, conds: seq<Condition> | About(conds, fields[k].name) && ListsNonEmpty(conds)
        ensures MirrorAgrees(packet, fields, conds)
      {
        MirrorTheorem(packet, fields, conds);
      }
    } else {
      var j :| 0 <= j < |fields| && MultiByte(fields[j].ftype) && fields[j].offset == fields[k].offset;
      IsolatedExactly(structs, i, j);
      assert !OnInteger(fields, j);
      MirrorBroken(fields, k, j);
      var conds := [IsZero(fields[k].name)];
      assert About(conds, fields[k].name) && ListsNonEmpty(conds);
      assert !MirrorAgrees(LastByteSet(fields[j].offset, Width(fields[j].ftype)), fields, conds);
    }
  }

  /** Where a rule can be about such a field, a compiled rule of the definition fails to mirror. */
  lemma MirrorFails(structs: seq<StructDef>, i: nat, k: nat, name: string) returns (rule: TempRule, r: FilterRule, packet: Packet)
    requires ParsedStructs(structs) && Flattened(structs).Ok? && i < |Flattened(structs).value|
    requires StructTiles(Flattened(structs).value[i])
    requires var fields := Flattened(structs).value[i].fields;
      k < |fields| && FieldIndex(fields, fields[k].name) == k && OnInteger(fields, k) &&
      FindTarget(Flattened(structs).value, fields[k].name) == Some(Flattened(structs).value[i])
    ensures RuleOf(structs, rule, r, i) && rule.name == name && ForwardOnly(r.codeBE) && ForwardOnly(r.codeLE)
    ensures Verdict(packet, r.codeLE) && !Verdict(MirrorPacket(packet, Flattened(structs).value[i].fields), r.codeBE)
  {
    hide Flattened, Isolated, RuleCode, LastByteSet, MirrorPacket, Verdict, FindTarget, FirstEmptyList;
    var flat := Flattened(structs).value;
    var fields := flat[i].fields;
    var j :| 0 <= j < |fields| && MultiByte(fields[j].ftype) && fields[j].offset == fields[k].offset;
    IsolatedExactly(structs, i, j);
    assert !OnInteger(fields, j);
    MirrorBroken(fields, k, j);
    var c := IsZero(fields[k].name);
    rule := TempRule(name, [c], false, 0);
    assert forall d :: d in [c] <==> d == c;
    CompiledRuleIff(flat, rule);
    r := CompiledRule(flat, rule).value;
    packet := LastByteSet(fields[j].offset, Width(fields[j].ftype));
  }

  /** The smallest such definition: { bytes[0] x; uint16 y; } with a rule about x. */
  lemma MirrorFailsForZeroLength() returns (rule: TempRule, r: FilterRule, packet: Packet)
    ensures var x, y := Field("x", Bytes, 0, 0, Big, false, false, 1), Field("y", Uint16, 0, 2, Big, false, false, 1);
      RuleOf([StructDef("S", [x, y], 0, false)], rule, r, 0) && ForwardOnly(r.codeBE) && ForwardOnly(r.codeLE) &&
      Flattened([StructDef("S", [x, y], 0, false)]) == Ok([StructDef("S", [x, y], 2, false)]) &&
      Verdict(packet, r.codeLE) && !Verdict(MirrorPacket(packet, [x, y]), r.codeBE)
  {
    hide MirrorPacket, Verdict, RuleCode;
    var x, y := Field("x", Bytes, 0, 0, Big, false, false, 1), Field("y", Uint16, 0, 2, Big, false, false, 1);
    var s := StructDef("S", [x, y], 0, false);
    var flat := StructDef("S", [x, y], 2, false);
    var l1, l2 := Flatten.Layout([x], 0, false), Flatten.Layout([x, y], 2, false);
    assert [] + [x] == [x] && [x] + [y] == [x, y] && [s][0 := s] == [s] && [s][0 := flat] == [flat];
    AddTwo([s], "S", x, y, l1, l2);
    assert FlattenedStruct([s], 0) == Ok(flat);
    assert FlattenedFrom([flat], 1) == Ok([flat]);
    assert Flattened([s]) == Ok([flat]);
    assert FindField([x, y], "x") == Some(x);
    assert MultiByte([x, y][1].ftype) && [x, y][1].offset == [x, y][0].offset;
    assert StructTiles(flat) by { TwoTiles(x, y); }
    rule, r, packet := MirrorFails([s], 0, 0, "r");
  }

  lemma TwoTiles(x: Field, y: Field)
    requires x.offset == 0 && y.offset == Space(x)
    ensures Tiles([x, y], 0, Space(x) + Space(y))
  {
    OneTile(y, y.offset);
    assert [x, y][1..] == [y];
  }
}
