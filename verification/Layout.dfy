/** The layout a definition describes: a recursive reading of nested structs and arrays, against which
    flattening is proved. */
module Layout {
  import opened Pdef
  import opened Flatten

  // ---------- The reference layout ----------

  /** The index of the first struct with the name. */
  function IndexOf(structs: seq<StructDef>, name: string): (i: nat)
    ensures i <= |structs|
    ensures i < |structs| ==> structs[i].name == name
    ensures forall k :: 0 <= k < i ==> structs[k].name != name
    ensures (exists k :: 0 <= k < |structs| && structs[k].name == name) ==> i < |structs|
  {
    if structs == [] || structs[0].name == name then 0 else 1 + IndexOf(structs[1..], name)
  }

  function TypeOf(f: Field): (r: string)
    ensures |r| <= NAME_ROOM
  {
    match NestedNames(f.name)
    case Ok(names) => names.0
    case Err(_) => ""
  }

  function OwnName(f: Field): string {
    match NestedNames(f.name)
    case Ok(names) => names.1
    case Err(_) => ""
  }

  /** Every nested field of struct i names a struct that is defined before it. */
  ghost predicate RefersBack(structs: seq<StructDef>, i: nat)
    requires i < |structs|
  {
    forall f :: f in structs[i].fields && f.ftype.Nested? ==>
      NestedNames(f.name).Ok? && IndexOf(structs, TypeOf(f)) < i
  }

  ghost predicate DefinedBeforeUse(structs: seq<StructDef>) {
    forall i :: 0 <= i < |structs| ==> RefersBack(structs, i)
  }

  /** The path of every leaf gets the name of the enclosing field in front; paths are cut to their room. */
  function Under(prefix: string, leaves: seq<Field>): (r: seq<Field>)
    ensures |r| == |leaves|
    ensures forall k :: 0 <= k < |r| ==> r[k] == leaves[k].(name := Fit(prefix + "." + leaves[k].name))
  {
    seq(|leaves|, k requires 0 <= k < |leaves| => leaves[k].(name := Fit(prefix + "." + leaves[k].name)))
  }

  /** Copies idx, idx+1, ... of the leaves of a nested array field, up to its number of elements. */
  function Copies(f: Field, leaves: seq<Field>, idx: nat): seq<Field>
    requires idx <= f.arraySize
    decreases f.arraySize - idx
  {
    if idx == f.arraySize then []
    else Under(ElementName(f, TypeOf(f), OwnName(f), idx), leaves) + Copies(f, leaves, idx + 1)
  }

  /** What a nested field stands for: its elements, if it is an array, or else the one struct under its name. */
  function Instances(f: Field, leaves: seq<Field>): seq<Field> {
    if f.isArray then Copies(f, leaves, 0) else Under(OwnName(f), leaves)
  }

  /** The leaves of struct i in order, each named by its path from the struct. */
  ghost function Leaves(structs: seq<StructDef>, i: nat): seq<Field>
    requires DefinedBeforeUse(structs) && i < |structs|
    decreases i, |structs[i].fields| + 1
  {
    LeavesOf(structs, i, structs[i].fields)
  }

  ghost function LeavesOf(structs: seq<StructDef>, i: nat, fields: seq<Field>): seq<Field>
    requires DefinedBeforeUse(structs) && i < |structs|
    requires forall f :: f in fields ==> f in structs[i].fields
    decreases i, |fields|
  {
    if fields == [] then []
    else LeavesOfField(structs, i, fields[0]) + LeavesOf(structs, i, fields[1..])
  }

  ghost function LeavesOfField(structs: seq<StructDef>, i: nat, f: Field): seq<Field>
    requires DefinedBeforeUse(structs) && i < |structs| && f in structs[i].fields
    decreases i, 0
  {
    assert RefersBack(structs, i);
    if f.ftype.Nested? then Instances(f, Leaves(structs, IndexOf(structs, TypeOf(f)))) else [f]
  }

  /** The space a leaf reserves; a variable-length leaf reserves none. */
  function Space(f: Field): nat { if f.isVariable then 0 else f.size }

  function TotalSpace(leaves: seq<Field>): nat {
    if leaves == [] then 0 else Space(leaves[0]) + TotalSpace(leaves[1..])
  }

  /** The leaves one after the other from offset `base`, without gaps. */
  function Placed(leaves: seq<Field>, base: nat): seq<Field> {
    if leaves == [] then [] else [leaves[0].(offset := base)] + Placed(leaves[1..], base + Space(leaves[0]))
  }

  predicate HasVariable(leaves: seq<Field>) { exists f :: f in leaves && f.isVariable }

  ghost function LayoutOf(structs: seq<StructDef>, i: nat): StructDef
    requires DefinedBeforeUse(structs) && i < |structs|
  {
    var leaves := Leaves(structs, i);
    StructDef(structs[i].name, Placed(leaves, 0), TotalSpace(leaves), HasVariable(leaves))
  }

  // ---------- When a definition is acceptable ----------

  /** A field in struct i is acceptable: arrays are of nested structs, are not empty and, unless they have
      a single element, are of structs of fixed length; the names of elements fit. */
  ghost predicate FieldOk(structs: seq<StructDef>, i: nat, f: Field)
    requires DefinedBeforeUse(structs) && i < |structs| && f in structs[i].fields
  {
    (f.isArray ==>
      f.arraySize > 0 && f.ftype.Nested? &&
      (forall idx :: 0 <= idx < f.arraySize ==> |ElementName(f, TypeOf(f), OwnName(f), idx)| <= NAME_ROOM) &&
      (assert RefersBack(structs, i);
       f.arraySize > 1 ==> !HasVariable(Leaves(structs, IndexOf(structs, TypeOf(f))))))
  }

  /** Every field is acceptable, and only the last one may contain anything of variable length. */
  ghost predicate StructOk(structs: seq<StructDef>, i: nat)
    requires DefinedBeforeUse(structs) && i < |structs|
  {
    FieldsOk(structs, i, structs[i].fields)
  }

  ghost predicate FieldsOk(structs: seq<StructDef>, i: nat, fields: seq<Field>)
    requires DefinedBeforeUse(structs) && i < |structs|
    requires forall f :: f in fields ==> f in structs[i].fields
  {
    (forall j :: 0 <= j < |fields| ==> FieldOk(structs, i, fields[j])) &&
    forall j :: 0 <= j < |fields| - 1 ==> !HasVariable(LeavesOfField(structs, i, fields[j]))
  }

  // ---------- Facts about placing ----------

  lemma {:induction false} TotalAppend(a: seq<Field>, b: seq<Field>)
    ensures TotalSpace(a + b) == TotalSpace(a) + TotalSpace(b)
  {
    if a == [] {
      assert a + b == b;
    } else {
      TotalAppend(a[1..], b);
      assert (a + b)[1..] == a[1..] + b;
    }
  }

  lemma PlacedNothing(base: nat)
    ensures Placed([], base) == []
  {
  }

  lemma PlacedCons(leaf: Field, rest: seq<Field>, base: nat)
    ensures Placed([leaf] + rest, base) == [leaf.(offset := base)] + Placed(rest, base + Space(leaf))
    ensures TotalSpace([leaf] + rest) == Space(leaf) + TotalSpace(rest)
  {
    assert ([leaf] + rest)[1..] == rest;
  }

  lemma {:induction false} PlacedAppend(a: seq<Field>, b: seq<Field>, base: nat)
    ensures Placed(a + b, base) == Placed(a, base) + Placed(b, base + TotalSpace(a))
    decreases |a|
  {
    hide Placed, TotalSpace, Space;
    if a == [] {
      assert a + b == b;
      PlacedNothing(base);
      NoLeaves();
    } else {
      var x, rest := a[0], a[1..];
      var inner := base + Space(x);
      assert a == [x] + rest && a + b == [x] + (rest + b);
      PlacedCons(x, rest, base);
      PlacedCons(x, rest + b, base);
      PlacedAppend(rest, b, inner);
      assert inner + TotalSpace(rest) == base + TotalSpace(a);
    }
  }

  lemma {:induction false} UnderTail(prefix: string, leaves: seq<Field>)
    requires leaves != []
    ensures Under(prefix, leaves)[1..] == Under(prefix, leaves[1..])
  {
  }

  lemma {:induction false} UnderKeepsSpace(prefix: string, leaves: seq<Field>)
    ensures TotalSpace(Under(prefix, leaves)) == TotalSpace(leaves)
    ensures HasVariable(Under(prefix, leaves)) == HasVariable(leaves)
  {
    if leaves != [] {
      UnderKeepsSpace(prefix, leaves[1..]);
      UnderTail(prefix, leaves);
    }
    var u := Under(prefix, leaves);
    if HasVariable(leaves) {
      var k :| 0 <= k < |leaves| && leaves[k].isVariable;
      assert u[k] in u && u[k].isVariable;
    }
    if HasVariable(u) {
      var k :| 0 <= k < |u| && u[k].isVariable;
      assert leaves[k] in leaves && leaves[k].isVariable;
    }
  }

  /** Copying placed fields to a new base, as the loop does, places the renamed leaves there. */
  lemma {:induction false} ExpandedPlaces(leaves: seq<Field>, prefix: string, base: nat, inner: nat)
    ensures Expanded(Placed(leaves, inner), prefix, base) == Placed(Under(prefix, leaves), base + inner)
    decreases |leaves|
  {
    if leaves != [] {
      ExpandedPlaces(leaves[1..], prefix, base, inner + Space(leaves[0]));
      UnderTail(prefix, leaves);
      assert Placed(leaves, inner)[1..] == Placed(leaves[1..], inner + Space(leaves[0]));
    }
  }

  lemma {:induction false} CopiesSpace(f: Field, leaves: seq<Field>, idx: nat)
    requires idx <= f.arraySize
    ensures TotalSpace(Copies(f, leaves, idx)) == (f.arraySize - idx) * TotalSpace(leaves)
    ensures HasVariable(Copies(f, leaves, idx)) <==> idx < f.arraySize && HasVariable(leaves)
    decreases f.arraySize - idx
  {
    hide TotalSpace, HasVariable, ElementName, OwnName;
    if idx < f.arraySize {
      var prefix := ElementName(f, TypeOf(f), OwnName(f), idx);
      CopiesSpace(f, leaves, idx + 1);
      UnderKeepsSpace(prefix, leaves);
      TotalAppend(Under(prefix, leaves), Copies(f, leaves, idx + 1));
      VariableAppend(Under(prefix, leaves), Copies(f, leaves, idx + 1));
      OneMore(f.arraySize - idx, TotalSpace(leaves));
    } else {
      NoLeaves();
    }
  }

  lemma OneMore(n: nat, size: nat)
    requires n > 0
    ensures n * size == size + (n - 1) * size
  {
  }

  lemma VariableAppend(a: seq<Field>, b: seq<Field>)
    ensures HasVariable(a + b) <==> HasVariable(a) || HasVariable(b)
  {
    if HasVariable(a) {
      var f :| f in a && f.isVariable;
      assert f in a + b;
    }
    if HasVariable(b) {
      var f :| f in b && f.isVariable;
      assert f in a + b;
    }
  }

  lemma NextElement(base: nat, idx: nat, size: nat)
    ensures ElementBase(base, idx + 1, size) == ElementBase(base, idx, size) + size
    ensures ElementBase(base, 0, size) == base
  {
  }

  lemma {:induction false} ElementsPlace(nested: StructDef, leaves: seq<Field>, f: Field, base: nat, idx: nat)
    requires nested.fields == Placed(leaves, 0) && nested.minSize == TotalSpace(leaves)
    requires f.isArray && idx <= f.arraySize
    ensures Elements(nested, f, TypeOf(f), OwnName(f), base, idx) ==
            Placed(Copies(f, leaves, idx), ElementBase(base, idx, nested.minSize))
    decreases f.arraySize - idx
  {
    hide Placed, Expanded, ElementName, OwnName, TypeOf, TotalSpace, ElementBase, Under;
    if idx < f.arraySize {
      var at := ElementBase(base, idx, nested.minSize);
      var prefix := ElementName(f, TypeOf(f), OwnName(f), idx);
      ElementsPlace(nested, leaves, f, base, idx + 1);
      ExpandedPlaces(leaves, prefix, at, 0);
      UnderKeepsSpace(prefix, leaves);
      PlacedAppend(Under(prefix, leaves), Copies(f, leaves, idx + 1), at);
      NextElement(base, idx, nested.minSize);
    } else {
      PlacedNothing(ElementBase(base, idx, nested.minSize));
    }
  }

  // ---------- The loops compute the reference layout ----------

  lemma {:induction false} FindStructIsIndexOf(structs: seq<StructDef>, name: string)
    ensures FindStruct(structs, name) ==
            if IndexOf(structs, name) < |structs| then Some(structs[IndexOf(structs, name)]) else None
  {
    if structs != [] && structs[0].name != name {
      FindStructIsIndexOf(structs[1..], name);
    }
  }

  /** `view` is the definition with the structs before i already laid out. */
  ghost predicate LaidOutBefore(structs: seq<StructDef>, view: seq<StructDef>, i: nat)
    requires DefinedBeforeUse(structs)
  {
    |view| == |structs| && i <= |structs| &&
    (forall k :: 0 <= k < |structs| ==> view[k].name == structs[k].name) &&
    forall k :: 0 <= k < i ==> view[k] == LayoutOf(structs, k)
  }

  lemma {:induction false} SameIndex(structs: seq<StructDef>, view: seq<StructDef>, name: string)
    requires |view| == |structs| && forall k :: 0 <= k < |structs| ==> view[k].name == structs[k].name
    ensures IndexOf(view, name) == IndexOf(structs, name)
  {
    if structs != [] && structs[0].name != name {
      SameIndex(structs[1..], view[1..], name);
    }
  }

  lemma InstancesPlaced(nested: StructDef, leaves: seq<Field>, f: Field, base: nat)
    requires nested.fields == Placed(leaves, 0) && nested.minSize == TotalSpace(leaves)
    requires nested.hasVariable == HasVariable(leaves) && Repeat(f) > 0
    ensures Elements(nested, f, TypeOf(f), OwnName(f), base, 0) == Placed(Instances(f, leaves), base)
    ensures nested.minSize * Repeat(f) == TotalSpace(Instances(f, leaves))
    ensures nested.hasVariable == HasVariable(Instances(f, leaves))
  {
    hide Placed, TotalSpace, HasVariable, Elements, ElementName, OwnName, TypeOf, ElementBase;
    if f.isArray {
      ElementsPlace(nested, leaves, f, base, 0);
      NextElement(base, 0, nested.minSize);
      CopiesSpace(f, leaves, 0);
    } else {
      SinglePlaced(nested, leaves, f, base);
      UnderKeepsSpace(OwnName(f), leaves);
    }
  }

  lemma SinglePlaced(nested: StructDef, leaves: seq<Field>, f: Field, base: nat)
    requires nested.fields == Placed(leaves, 0) && !f.isArray
    ensures Elements(nested, f, TypeOf(f), OwnName(f), base, 0) == Placed(Under(OwnName(f), leaves), base)
  {
    hide Placed, TotalSpace, Expanded, ElementName, OwnName, TypeOf, ElementBase, Under;
    NextElement(base, 0, nested.minSize);
    SingleName(f, TypeOf(f), OwnName(f));
    ExpandedPlaces(leaves, OwnName(f), base, 0);
    var rest := Elements(nested, f, TypeOf(f), OwnName(f), base, 1);
    assert rest == [];
    var all := Expanded(nested.fields, OwnName(f), base);
    assert all + [] == all;
  }

  lemma SingleName(f: Field, typeName: string, fieldName: string)
    requires |typeName| <= NAME_ROOM && !f.isArray
    ensures ElementName(f, typeName, fieldName, 0) == fieldName
  {
    var all := typeName + "." + fieldName;
    assert all[|typeName| + 1..] == fieldName;
  }

  /** The names of the elements fit when flattening finds none that is too long. */
  lemma NamesFit(f: Field, typeName: string, fieldName: string)
    requires |typeName| <= NAME_ROOM && |fieldName| <= NAME_ROOM
    ensures FirstLong(f, typeName, fieldName, 0).None? <==>
            (f.isArray ==> forall idx :: 0 <= idx < f.arraySize ==> |ElementName(f, typeName, fieldName, idx)| <= NAME_ROOM)
  {
    hide ElementName, FirstLong;
    if f.isArray {
      forall idx | 0 <= idx < f.arraySize
        ensures LongName(f, typeName, fieldName, idx) <==> |ElementName(f, typeName, fieldName, idx)| > NAME_ROOM
      {
      }
    } else {
      SingleName(f, typeName, fieldName);
      assert !LongName(f, typeName, fieldName, 0);
    }
  }

  lemma AddFieldPlaces(structs: seq<StructDef>, view: seq<StructDef>, i: nat, l: Layout, f: Field)
    requires DefinedBeforeUse(structs) && i < |structs| && LaidOutBefore(structs, view, i)
    requires f in structs[i].fields
    ensures AddField(view, structs[i].name, l, f).Ok? <==> !l.variable && FieldOk(structs, i, f)
    ensures !l.variable && FieldOk(structs, i, f) ==>
      var leaves := LeavesOfField(structs, i, f);
      AddField(view, structs[i].name, l, f) ==
        Ok(Layout(l.fields + Placed(leaves, l.size), l.size + TotalSpace(leaves), HasVariable(leaves)))
  {
    hide Elements, Placed, HasVariable, TotalSpace, Instances, NestedNames, IndexOf, FindStruct, FirstLong, ElementName;
    if !l.variable && Repeat(f) > 0 {
      if f.ftype.Nested? {
        assert RefersBack(structs, i);
        var k := IndexOf(structs, TypeOf(f));
        SameIndex(structs, view, TypeOf(f));
        FindStructIsIndexOf(view, TypeOf(f));
        NamesFit(f, TypeOf(f), OwnName(f));
        InstancesPlaced(view[k], Leaves(structs, k), f, l.size);
      } else {
        SingleLeaf(f, l.size);
      }
    }
  }

  lemma SingleLeaf(f: Field, base: nat)
    ensures Placed([f], base) == [f.(offset := base)]
    ensures TotalSpace([f]) == Space(f)
    ensures HasVariable([f]) == f.isVariable
  {
    assert Placed([f], base) == [f.(offset := base)] + Placed([], base + Space(f));
    assert f in [f];
  }

  lemma {:induction false} AddFieldsPlace(structs: seq<StructDef>, view: seq<StructDef>, i: nat, l: Layout, fields: seq<Field>)
    requires DefinedBeforeUse(structs) && i < |structs| && LaidOutBefore(structs, view, i)
    requires forall f :: f in fields ==> f in structs[i].fields
    ensures AddFields(view, structs[i].name, l, fields).Ok? <==>
            FieldsOk(structs, i, fields) && (l.variable ==> fields == [])
    ensures FieldsOk(structs, i, fields) && (l.variable ==> fields == []) ==>
      var leaves := LeavesOf(structs, i, fields);
      AddFields(view, structs[i].name, l, fields) ==
        Ok(Layout(l.fields + Placed(leaves, l.size), l.size + TotalSpace(leaves), l.variable || HasVariable(leaves)))
    decreases |fields|
  {
    hide AddField, Placed, TotalSpace, HasVariable, FieldOk, LaidOutBefore, LeavesOfField;
    if fields == [] {
      PlacedNothing(l.size);
      NoLeaves();
      assert l.fields + [] == l.fields;
    } else {
      var f := fields[0];
      AddFieldPlaces(structs, view, i, l, f);
      FieldsOkSplit(structs, i, fields);
      if !l.variable && FieldOk(structs, i, f) {
        var own := LeavesOfField(structs, i, f);
        var more := LeavesOf(structs, i, fields[1..]);
        var l' := AddField(view, structs[i].name, l, f).value;
        AddFieldsPlace(structs, view, i, l', fields[1..]);
        PlacedAppend(own, more, l.size);
        TotalAppend(own, more);
        VariableAppend(own, more);
        assert LeavesOf(structs, i, fields) == own + more;
        var a, b, c := l.fields, Placed(own, l.size), Placed(more, l'.size);
        assert a + (b + c) == (a + b) + c;
      }
    }
  }

  lemma NoLeaves()
    ensures TotalSpace([]) == 0 && !HasVariable([])
  {
  }

  lemma FieldsOkTail(structs: seq<StructDef>, i: nat, fields: seq<Field>)
    requires DefinedBeforeUse(structs) && i < |structs| && fields != []
    requires forall f :: f in fields ==> f in structs[i].fields
    requires FieldsOk(structs, i, fields)
    ensures FieldOk(structs, i, fields[0]) && FieldsOk(structs, i, fields[1..])
    ensures HasVariable(LeavesOfField(structs, i, fields[0])) ==> fields[1..] == []
  {
    hide FieldOk, LeavesOfField, HasVariable;
    assert forall j :: 0 <= j < |fields[1..]| ==> fields[1..][j] == fields[j + 1];
  }

  lemma FieldsOkSplit(structs: seq<StructDef>, i: nat, fields: seq<Field>)
    requires DefinedBeforeUse(structs) && i < |structs| && fields != []
    requires forall f :: f in fields ==> f in structs[i].fields
    ensures FieldsOk(structs, i, fields) <==>
            FieldOk(structs, i, fields[0]) && FieldsOk(structs, i, fields[1..]) &&
            (HasVariable(LeavesOfField(structs, i, fields[0])) ==> fields[1..] == [])
  {
    hide FieldOk, LeavesOfField, HasVariable;
    if FieldsOk(structs, i, fields) {
      FieldsOkTail(structs, i, fields);
    } else if FieldOk(structs, i, fields[0]) && FieldsOk(structs, i, fields[1..]) {
      assert forall j :: 1 <= j < |fields| ==> fields[j] == fields[1..][j - 1];
    }
  }

  lemma {:induction false} FlattenedFromPlaces(structs: seq<StructDef>, cur: seq<StructDef>, i: nat)
    requires DefinedBeforeUse(structs) && LaidOutBefore(structs, cur, i)
    requires forall k :: i <= k < |structs| ==> cur[k] == structs[k]
    ensures FlattenedFrom(cur, i).Ok? <==> forall k :: i <= k < |structs| ==> StructOk(structs, k)
    ensures FlattenedFrom(cur, i).Ok? ==> LaidOutBefore(structs, FlattenedFrom(cur, i).value, |structs|)
    decreases |structs| - i
  {
    hide AddFields, Placed, TotalSpace, HasVariable, FieldsOk;
    if i < |structs| {
      var s := structs[i];
      var view := cur[i := s.(hasVariable := false)];
      AddFieldsPlace(structs, view, i, Layout([], 0, false), s.fields);
      var leaves := Leaves(structs, i);
      assert [] + Placed(leaves, 0) == Placed(leaves, 0);
      if StructOk(structs, i) {
        assert FlattenedStruct(cur, i) == Ok(LayoutOf(structs, i));
        FlattenedFromPlaces(structs, cur[i := LayoutOf(structs, i)], i + 1);
      }
    }
  }

  /** Flattening accepts exactly the acceptable definitions, and then every struct becomes its reference
      layout: the paths, types and offsets of the recursive reading. */
  lemma FlattenedIsLayout(structs: seq<StructDef>)
    requires DefinedBeforeUse(structs)
    ensures Flattened(structs).Ok? <==> forall i :: 0 <= i < |structs| ==> StructOk(structs, i)
    ensures Flattened(structs).Ok? ==>
              |Flattened(structs).value| == |structs| &&
              forall i :: 0 <= i < |structs| ==> Flattened(structs).value[i] == LayoutOf(structs, i)
  {
    FlattenedFromPlaces(structs, structs, 0);
  }

  // ---------- Names of array elements ----------

  /** How long the name of an array element is: the field's name with the index in brackets, cut to what the
      type's name leaves of the room. */
  lemma ElementNameExactly(f: Field, typeName: string, fieldName: string, idx: nat)
    requires |typeName| <= NAME_ROOM && f.isArray
    ensures var full := fieldName + "[" + Decimal(idx) + "]";
      var room := PATH_ROOM - |typeName| - 1;
      ElementName(f, typeName, fieldName, idx) == if |full| <= room then full else full[..room]
  {
    hide Decimal;
    var full := fieldName + "[" + Decimal(idx) + "]";
    var start := typeName + ".";
    assert typeName + "." + fieldName + "[" + Decimal(idx) + "]" == start + full;
    var name := ElementName(f, typeName, fieldName, idx);
    assert start + name == Fit(start + full);
    assert name == (start + name)[|start|..];
    if |full| > PATH_ROOM - |typeName| - 1 {
      assert (start + full)[..PATH_ROOM] == start + full[..PATH_ROOM - |start|];
    }
  }

  lemma FirstElementLong(f: Field, typeName: string, fieldName: string)
    requires |fieldName| + 3 > NAME_ROOM && |typeName| + 1 + NAME_ROOM < PATH_ROOM && f.isArray
    ensures LongName(f, typeName, fieldName, 0)
  {
    ElementNameExactly(f, typeName, fieldName, 0);
    assert Decimal(0) == "0";
  }

  /** A field name can fit and its numbered form not: an array field is rejected when its name with the first
      index is too long, unless a long type name cuts it to fit. */
  lemma LongElementRejected(structs: seq<StructDef>, i: nat, f: Field)
    requires DefinedBeforeUse(structs) && i < |structs| && f in structs[i].fields
    requires f.ftype.Nested? && f.isArray && f.arraySize > 0
    requires |OwnName(f)| + 3 > NAME_ROOM && |TypeOf(f)| + 1 + NAME_ROOM < PATH_ROOM
    ensures Flattened(structs).Err?
  {
    hide Flattened, HasVariable, LongName, TypeOf, OwnName;
    FirstElementLong(f, TypeOf(f), OwnName(f));
    FlattenedIsLayout(structs);
    var j :| 0 <= j < |structs[i].fields| && structs[i].fields[j] == f;
    assert !FieldOk(structs, i, structs[i].fields[j]);
    assert !StructOk(structs, i);
  }

  /** When type and field have the longest names, nothing is left of the index: the element is accepted, without
      its number. */
  lemma LongestNamesLoseIndex(f: Field, typeName: string, fieldName: string, idx: nat)
    requires f.isArray && |typeName| == |fieldName| == NAME_ROOM
    ensures ElementName(f, typeName, fieldName, idx) == fieldName
  {
    hide Decimal;
    ElementNameExactly(f, typeName, fieldName, idx);
    var full := fieldName + "[" + Decimal(idx) + "]";
    assert full[..NAME_ROOM] == fieldName;
  }

  // ---------- Tiling ----------

  /** The fields start at `base`, each begins where the one before it ends, and the last ends at `end`. */
  ghost predicate Tiles(fields: seq<Field>, base: nat, end: nat) {
    if fields == [] then base == end
    else fields[0].offset == base && Tiles(fields[1..], base + Space(fields[0]), end)
  }

  lemma {:induction false} PlacedTiles(leaves: seq<Field>, base: nat)
    ensures Tiles(Placed(leaves, base), base, base + TotalSpace(leaves))
    decreases |leaves|
  {
    if leaves != [] {
      PlacedTiles(leaves[1..], base + Space(leaves[0]));
    }
  }

  /** Tiled fields do not overlap and lie between the two ends. */
  lemma {:induction false} TilesDisjoint(fields: seq<Field>, base: nat, end: nat, j: nat, k: nat)
    requires Tiles(fields, base, end) && j <= k < |fields|
    ensures base <= fields[j].offset && fields[k].offset + Space(fields[k]) <= end
    ensures j < k ==> fields[j].offset + Space(fields[j]) <= fields[k].offset
    decreases |fields|
  {
    TilesBounded(fields[1..], base + Space(fields[0]), end);
    if j > 0 {
      TilesDisjoint(fields[1..], base + Space(fields[0]), end, j - 1, k - 1);
    } else if k > 0 {
      TilesDisjoint(fields[1..], base + Space(fields[0]), end, k - 1, k - 1);
    }
  }

  lemma {:induction false} TilesBounded(fields: seq<Field>, base: nat, end: nat)
    requires Tiles(fields, base, end)
    ensures base <= end
    decreases |fields|
  {
    if fields != [] {
      TilesBounded(fields[1..], base + Space(fields[0]), end);
    }
  }

  // ---------- Variable-length leaves come last ----------

  ghost predicate OnlyLastVaries(leaves: seq<Field>) {
    forall k :: 0 <= k < |leaves| - 1 ==> !leaves[k].isVariable
  }

  lemma FixedThenVarying(a: seq<Field>, b: seq<Field>)
    requires OnlyLastVaries(a) && OnlyLastVaries(b)
    requires b != [] ==> !HasVariable(a)
    ensures OnlyLastVaries(a + b)
  {
    if b == [] {
      assert a + b == a;
    } else {
      assert forall k :: 0 <= k < |a| ==> a[k] in a;
    }
  }

  lemma FixedVaryNowhere(leaves: seq<Field>)
    requires !HasVariable(leaves)
    ensures OnlyLastVaries(leaves)
  {
    assert forall k :: 0 <= k < |leaves| ==> leaves[k] in leaves;
  }

  lemma LeavesOfFieldVary(structs: seq<StructDef>, i: nat, f: Field)
    requires DefinedBeforeUse(structs) && i < |structs| && f in structs[i].fields && FieldOk(structs, i, f)
    requires forall k :: 0 <= k < |structs| ==> StructOk(structs, k)
    ensures OnlyLastVaries(LeavesOfField(structs, i, f))
    decreases i, 0
  {
    if f.ftype.Nested? {
      assert RefersBack(structs, i);
      var k := IndexOf(structs, TypeOf(f));
      var inner := Leaves(structs, k);
      LeavesVary(structs, k);
      if !f.isArray {
        UnderKeepsSpace(OwnName(f), inner);
      } else if HasVariable(inner) {
        assert Copies(f, inner, 0) == Under(ElementName(f, TypeOf(f), OwnName(f), 0), inner) + Copies(f, inner, 1);
        assert Copies(f, inner, 1) == [];
      } else {
        CopiesSpace(f, inner, 0);
        FixedVaryNowhere(Copies(f, inner, 0));
      }
    }
  }

  lemma {:induction false} LeavesOfVary(structs: seq<StructDef>, i: nat, fields: seq<Field>)
    requires DefinedBeforeUse(structs) && i < |structs|
    requires forall f :: f in fields ==> f in structs[i].fields
    requires FieldsOk(structs, i, fields)
    requires forall k :: 0 <= k < |structs| ==> StructOk(structs, k)
    ensures OnlyLastVaries(LeavesOf(structs, i, fields))
    decreases i, 1, |fields|
  {
    if fields != [] {
      FieldsOkSplit(structs, i, fields);
      LeavesOfFieldVary(structs, i, fields[0]);
      LeavesOfVary(structs, i, fields[1..]);
      FixedThenVarying(LeavesOfField(structs, i, fields[0]), LeavesOf(structs, i, fields[1..]));
    }
  }

  lemma LeavesVary(structs: seq<StructDef>, i: nat)
    requires DefinedBeforeUse(structs) && i < |structs|
    requires forall k :: 0 <= k < |structs| ==> StructOk(structs, k)
    ensures OnlyLastVaries(Leaves(structs, i))
    decreases i, 2
  {
    assert StructOk(structs, i);
    LeavesOfVary(structs, i, structs[i].fields);
  }

  lemma {:induction false} PlacedKeepsLeaf(leaves: seq<Field>, base: nat, k: nat)
    requires k < |leaves|
    ensures |Placed(leaves, base)| == |leaves|
    ensures Placed(leaves, base)[k] == leaves[k].(offset := Placed(leaves, base)[k].offset)
    decreases |leaves|
  {
    hide Space;
    if |leaves| > 1 {
      PlacedKeepsLeaf(leaves[1..], base + Space(leaves[0]), if k == 0 then 0 else k - 1);
    } else {
      assert Placed(leaves[1..], base + Space(leaves[0])) == [];
    }
  }

  /** Placing changes offsets only. */
  lemma PlacedKeepsLeaves(leaves: seq<Field>, base: nat)
    ensures |Placed(leaves, base)| == |leaves|
    ensures forall k :: 0 <= k < |leaves| ==>
              Placed(leaves, base)[k] == leaves[k].(offset := Placed(leaves, base)[k].offset)
  {
    hide Placed;
    if leaves == [] {
      PlacedNothing(base);
    } else {
      PlacedKeepsLeaf(leaves, base, 0);
      forall k | 0 <= k < |leaves|
        ensures Placed(leaves, base)[k] == leaves[k].(offset := Placed(leaves, base)[k].offset)
      {
        PlacedKeepsLeaf(leaves, base, k);
      }
    }
  }

  /** After flattening, the fields of every struct tile [0, minSize) and only the last may be of variable length. */
  lemma FlattenedTiles(structs: seq<StructDef>, i: nat)
    requires DefinedBeforeUse(structs) && Flattened(structs).Ok? && i < |structs|
    ensures |Flattened(structs).value| == |structs|
    ensures Tiles(Flattened(structs).value[i].fields, 0, Flattened(structs).value[i].minSize)
    ensures OnlyLastVaries(Flattened(structs).value[i].fields)
  {
    FlattenedIsLayout(structs);
    var leaves := Leaves(structs, i);
    PlacedTiles(leaves, 0);
    LeavesVary(structs, i);
    PlacedKeepsLeaves(leaves, 0);
  }

  // ---------- A struct used before its definition ----------

  /** Looked up before it has been flattened, a struct still has minimum size zero, so a field of its type
      takes no space and the next field is laid over it. */
  lemma ForwardReferenceTakesNoSpace(view: seq<StructDef>, structName: string, l: Layout, f: Field)
    requires f.ftype.Nested? && IndexOf(view, TypeOf(f)) < |view|
    requires view[IndexOf(view, TypeOf(f))].minSize == 0
    ensures AddField(view, structName, l, f).Ok? ==> AddField(view, structName, l, f).value.size == l.size
  {
    hide Elements, NestedNames, IndexOf, FindStruct;
    FindStructIsIndexOf(view, TypeOf(f));
    assert 0 * Repeat(f) == 0;
  }

  function Scalar(name: string, t: FieldType, size: nat): Field { Field(name, t, 0, size, Big, false, false, 1) }

  /** O { I x; uint16 y; } before I { uint32 a; }: accepted, but y shares offset 0 with x.a. */
  lemma ForwardReferenceOverlaps()
    ensures
      var outer := StructDef("O", [Scalar("I.x", Nested, 0), Scalar("y", Uint16, 2)], 0, false);
      var inner := StructDef("I", [Scalar("a", Uint32, 4)], 0, false);
      Flattened([outer, inner]) ==
        Ok([StructDef("O", [Scalar("x.a", Uint32, 4), Scalar("y", Uint16, 2)], 2, false),
            StructDef("I", [Scalar("a", Uint32, 4)], 4, false)])
  {
    var x, y, a := Scalar("I.x", Nested, 0), Scalar("y", Uint16, 2), Scalar("a", Uint32, 4);
    var outer := StructDef("O", [x, y], 0, false);
    var inner := StructDef("I", [a], 0, false);
    var xa := Scalar("x.a", Uint32, 4);
    var flat := StructDef("O", [xa, y], 2, false);
    var done := StructDef("I", [a], 4, false);
    ForwardReferenceStep(x, y, a, xa, outer, inner);
    assert [outer, inner][0 := outer] == [outer, inner] && [outer, inner][0 := flat] == [flat, inner];
    assert FlattenedStruct([outer, inner], 0) == Ok(flat);
    AddOne([flat, inner], "I", a);
    assert [flat, inner][1 := inner] == [flat, inner] && [flat, inner][1 := done] == [flat, done];
    assert FlattenedStruct([flat, inner], 1) == Ok(done);
    assert FlattenedFrom([flat, done], 2) == Ok([flat, done]);
    assert FlattenedFrom([flat, inner], 1) == Ok([flat, done]);
  }

  lemma AddOne(structs: seq<StructDef>, name: string, a: Field)
    requires !a.ftype.Nested? && !a.isArray && !a.isVariable && a.offset == 0
    ensures AddFields(structs, name, Layout([], 0, false), [a]) == Ok(Layout([a], a.size, false))
  {
    var l := Layout([a], a.size, false);
    assert [] + [a] == [a] && a.(offset := 0) == a;
    assert AddField(structs, name, Layout([], 0, false), a) == Ok(l);
    assert AddFields(structs, name, l, [a][1..]) == Ok(l);
  }

  lemma ForwardReferenceStep(x: Field, y: Field, a: Field, xa: Field, outer: StructDef, inner: StructDef)
    requires x == Scalar("I.x", Nested, 0) && y == Scalar("y", Uint16, 2) && a == Scalar("a", Uint32, 4)
    requires xa == Scalar("x.a", Uint32, 4)
    requires outer == StructDef("O", [x, y], 0, false) && inner == StructDef("I", [a], 0, false)
    ensures AddFields([outer, inner], "O", Layout([], 0, false), [x, y]) == Ok(Layout([xa, y], 2, false))
  {
    var structs := [outer, inner];
    SplitJoined("I", "x");
    assert "I" + "." + "x" == "I.x" && "x" + "." + "a" == "x.a";
    assert FindStruct(structs[1..], "I") == Some(inner);
    assert Expanded([a][1..], "x", 0) == [];
    assert Elements(inner, x, "I", "x", 0, 1) == [];
    var l1 := Layout([xa], 0, false);
    assert [] + Elements(inner, x, "I", "x", 0, 0) == [xa];
    assert AddField(structs, "O", Layout([], 0, false), x) == Ok(l1);
    var l2 := Layout([xa, y], 2, false);
    assert y.(offset := 0) == y && l1.fields + [y] == [xa, y];
    assert AddField(structs, "O", l1, y) == Ok(l2);
    AddTwo(structs, "O", x, y, l1, l2);
  }

  lemma AddTwo(structs: seq<StructDef>, name: string, x: Field, y: Field, l1: Layout, l2: Layout)
    requires AddField(structs, name, Layout([], 0, false), x) == Ok(l1)
    requires AddField(structs, name, l1, y) == Ok(l2)
    ensures AddFields(structs, name, Layout([], 0, false), [x, y]) == Ok(l2)
  {
    hide AddField;
    assert [x, y][1..] == [y] && [y][1..] == [];
    assert AddFields(structs, name, l2, []) == Ok(l2);
    assert AddFields(structs, name, l1, [y]) == Ok(l2);
  }
}
