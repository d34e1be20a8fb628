/** When the flattened fields of a definition overlap: exactly when a struct that takes space is used in itself
    or before it is defined. */
module Overlap {
  import opened Pdef
  import opened Flatten
  import opened Layout

  /** Structs as the parser leaves them: nothing has been placed yet. */
  ghost predicate Unplaced(s: StructDef) { s.minSize == 0 && forall f :: f in s.fields ==> f.offset == 0 }

  ghost predicate AllUnplaced(structs: seq<StructDef>) { forall s :: s in structs ==> Unplaced(s) }

  ghost predicate TakesSpace(s: StructDef) { exists g :: g in s.fields && Space(g) > 0 }

  /** Field f of struct i uses struct i itself or a later one, which takes space. */
  ghost predicate UsesTooEarly(structs: seq<StructDef>, i: nat, f: Field) {
    f.ftype.Nested? && NestedNames(f.name).Ok? &&
    i <= IndexOf(structs, TypeOf(f)) < |structs| && TakesSpace(structs[IndexOf(structs, TypeOf(f))])
  }

  ghost predicate HasTooEarly(structs: seq<StructDef>, i: nat, fields: seq<Field>) {
    exists f :: f in fields && UsesTooEarly(structs, i, f)
  }

  ghost predicate StructTiles(s: StructDef) { Tiles(s.fields, 0, s.minSize) }

  // ---------- Tiles and the space they take ----------

  lemma {:induction false} TilesTotal(fields: seq<Field>, base: nat, end: nat)
    requires Tiles(fields, base, end)
    ensures end == base + TotalSpace(fields)
    decreases |fields|
  {
    if fields != [] {
      TilesTotal(fields[1..], base + Space(fields[0]), end);
    }
  }

  lemma {:induction false} TilesAppend(a: seq<Field>, b: seq<Field>, base: nat, mid: nat, end: nat)
    requires Tiles(a, base, mid) && Tiles(b, mid, end)
    ensures Tiles(a + b, base, end)
    decreases |a|
  {
    if a == [] {
      assert a + b == b;
    } else {
      TilesAppend(a[1..], b, base + Space(a[0]), mid, end);
      assert (a + b)[1..] == a[1..] + b;
    }
  }

  lemma {:induction false} ExpandedSpace(fields: seq<Field>, prefix: string, base: nat)
    ensures TotalSpace(Expanded(fields, prefix, base)) == TotalSpace(fields)
  {
    if fields != [] {
      ExpandedSpace(fields[1..], prefix, base);
    }
  }

  lemma {:induction false} ExpandedTiles(fields: seq<Field>, prefix: string, base: nat, inner: nat, end: nat)
    requires Tiles(fields, inner, end)
    ensures Tiles(Expanded(fields, prefix, base), base + inner, base + end)
    decreases |fields|
  {
    if fields != [] {
      ExpandedTiles(fields[1..], prefix, base, inner + Space(fields[0]), end);
    }
  }

  lemma {:induction false} ElementsSpace(nested: StructDef, f: Field, typeName: string, fieldName: string, base: nat, idx: nat)
    requires |typeName| <= NAME_ROOM && idx <= Repeat(f)
    ensures TotalSpace(Elements(nested, f, typeName, fieldName, base, idx)) == (Repeat(f) - idx) * TotalSpace(nested.fields)
    decreases Repeat(f) - idx
  {
    hide TotalSpace, Repeat, Expanded, ElementBase, ElementField;
    if idx < Repeat(f) {
      var prefix := ElementName(f, typeName, fieldName, idx);
      var at := ElementBase(base, idx, nested.minSize);
      ElementsSpace(nested, f, typeName, fieldName, base, idx + 1);
      ExpandedSpace(nested.fields, prefix, at);
      TotalAppend(Expanded(nested.fields, prefix, at), Elements(nested, f, typeName, fieldName, base, idx + 1));
      OneMore(Repeat(f) - idx, TotalSpace(nested.fields));
    } else {
      NoLeaves();
    }
  }

  lemma {:induction false} ElementsTile(nested: StructDef, f: Field, typeName: string, fieldName: string, base: nat, idx: nat)
    requires |typeName| <= NAME_ROOM && idx <= Repeat(f) && StructTiles(nested)
    ensures Tiles(Elements(nested, f, typeName, fieldName, base, idx),
                  ElementBase(base, idx, nested.minSize), ElementBase(base, Repeat(f), nested.minSize))
    decreases Repeat(f) - idx
  {
    hide Tiles, Repeat, Expanded, ElementBase, ElementField;
    var at := ElementBase(base, idx, nested.minSize);
    if idx < Repeat(f) {
      var prefix := ElementName(f, typeName, fieldName, idx);
      ElementsTile(nested, f, typeName, fieldName, base, idx + 1);
      ExpandedTiles(nested.fields, prefix, at, 0, nested.minSize);
      NextElement(base, idx, nested.minSize);
      TilesAppend(Expanded(nested.fields, prefix, at), Elements(nested, f, typeName, fieldName, base, idx + 1),
                  at, at + nested.minSize, ElementBase(base, Repeat(f), nested.minSize));
    } else {
      assert Tiles([], at, at) by { NothingTiles(at); }
    }
  }

  lemma NothingTiles(base: nat)
    ensures Tiles([], base, base)
  {
  }

  /** An unplaced struct tiles exactly when it takes no space. */
  lemma {:induction false} UnplacedTiles(fields: seq<Field>)
    requires forall f :: f in fields ==> f.offset == 0
    ensures Tiles(fields, 0, 0) <==> forall g :: g in fields ==> Space(g) == 0
    ensures TotalSpace(fields) == 0 <==> forall g :: g in fields ==> Space(g) == 0
  {
    if fields != [] {
      UnplacedTiles(fields[1..]);
      assert fields == [fields[0]] + fields[1..];
      if Space(fields[0]) > 0 {
        if Tiles(fields, 0, 0) {
          TilesTotal(fields, 0, 0);
        }
      }
    }
  }

  // ---------- One field, and all fields of a struct ----------

  /** The structs as flattening sees them at struct i: the names are those of the source, and the structs from
      i on are unplaced. */
  ghost predicate Seen(structs: seq<StructDef>, view: seq<StructDef>, i: nat) {
    |view| == |structs| && i < |structs| && AllUnplaced(structs) &&
    (forall k :: 0 <= k < |structs| ==> view[k].name == structs[k].name) &&
    (forall k :: i <= k < |structs| ==> view[k].fields == structs[k].fields && view[k].minSize == 0) &&
    forall k :: 0 <= k < |structs| ==> TotalSpace(view[k].fields) >= view[k].minSize
  }

  lemma FoundStruct(structs: seq<StructDef>, view: seq<StructDef>, i: nat, f: Field)
    requires Seen(structs, view, i)
    ensures var k := IndexOf(structs, TypeOf(f));
      FindStruct(view, TypeOf(f)) == if k < |structs| then Some(view[k]) else None
  {
    SameIndex(structs, view, TypeOf(f));
    FindStructIsIndexOf(view, TypeOf(f));
  }

  lemma AddFieldSpace(structs: seq<StructDef>, view: seq<StructDef>, i: nat, name: string, l: Flatten.Layout, f: Field)
    requires Seen(structs, view, i) && AddField(view, name, l, f).Ok?
    requires TotalSpace(l.fields) >= l.size
    ensures var l' := AddField(view, name, l, f).value;
      TotalSpace(l'.fields) >= l'.size &&
      (TotalSpace(l.fields) > l.size || UsesTooEarly(structs, i, f) ==> TotalSpace(l'.fields) > l'.size)
  {
    hide TotalSpace, Elements, IndexOf, FindStruct, NestedNames, ElementBase, FirstLong, Repeat;
    if f.ftype.Nested? {
      FoundStruct(structs, view, i, f);
      var k := IndexOf(structs, TypeOf(f));
      var nested := view[k];
      var own := Elements(nested, f, TypeOf(f), OwnName(f), l.size, 0);
      ElementsSpace(nested, f, TypeOf(f), OwnName(f), l.size, 0);
      TotalAppend(l.fields, own);
      Multiples(Repeat(f), TotalSpace(nested.fields), nested.minSize);
      if UsesTooEarly(structs, i, f) {
        assert structs[k] in structs;
        UnplacedTiles(structs[k].fields);
      }
    } else {
      TotalAppend(l.fields, [f.(offset := l.size)]);
      SingleLeaf(f.(offset := l.size), l.size);
    }
  }

  lemma Multiples(n: nat, a: nat, b: nat)
    requires n > 0 && a >= b
    ensures n * a >= b * n && (a > b ==> n * a > b * n)
  {
  }

  lemma {:induction false} AddFieldsSpace(structs: seq<StructDef>, view: seq<StructDef>, i: nat, name: string, l: Flatten.Layout, fields: seq<Field>)
    requires Seen(structs, view, i) && AddFields(view, name, l, fields).Ok?
    requires TotalSpace(l.fields) >= l.size
    ensures var l' := AddFields(view, name, l, fields).value;
      TotalSpace(l'.fields) >= l'.size &&
      (TotalSpace(l.fields) > l.size || HasTooEarly(structs, i, fields) ==> TotalSpace(l'.fields) > l'.size)
    decreases |fields|
  {
    hide TotalSpace, AddField, Seen, UsesTooEarly;
    if fields != [] {
      AddFieldSpace(structs, view, i, name, l, fields[0]);
      AddFieldsSpace(structs, view, i, name, AddField(view, name, l, fields[0]).value, fields[1..]);
      assert fields == [fields[0]] + fields[1..];
    }
  }

  lemma AddFieldTiles(structs: seq<StructDef>, view: seq<StructDef>, i: nat, name: string, l: Flatten.Layout, f: Field)
    requires Seen(structs, view, i) && AddField(view, name, l, f).Ok?
    requires forall k :: 0 <= k < i ==> StructTiles(view[k])
    requires Tiles(l.fields, 0, l.size) && !UsesTooEarly(structs, i, f)
    ensures var l' := AddField(view, name, l, f).value; Tiles(l'.fields, 0, l'.size)
  {
    hide Tiles, Elements, IndexOf, FindStruct, NestedNames, ElementBase, FirstLong, Repeat;
    var l' := AddField(view, name, l, f).value;
    if f.ftype.Nested? {
      FoundStruct(structs, view, i, f);
      var k := IndexOf(structs, TypeOf(f));
      if k >= i {
        assert structs[k] in structs;
        UnplacedTiles(structs[k].fields);
      }
      var nested := view[k];
      ElementsTile(nested, f, TypeOf(f), OwnName(f), l.size, 0);
      NextElement(l.size, 0, nested.minSize);
      LastElement(l.size, Repeat(f), nested.minSize);
      TilesAppend(l.fields, Elements(nested, f, TypeOf(f), OwnName(f), l.size, 0), 0, l.size, l'.size);
    } else {
      var g := f.(offset := l.size);
      assert Tiles([g], l.size, l'.size) by { OneTile(g, l.size); }
      TilesAppend(l.fields, [g], 0, l.size, l'.size);
    }
  }

  lemma LastElement(base: nat, n: nat, size: nat)
    ensures ElementBase(base, n, size) == base + size * n
  {
  }

  lemma OneTile(g: Field, base: nat)
    requires g.offset == base
    ensures Tiles([g], base, base + Space(g))
  {
    assert [g][1..] == [];
  }

  lemma {:induction false} AddFieldsTile(structs: seq<StructDef>, view: seq<StructDef>, i: nat, name: string, l: Flatten.Layout, fields: seq<Field>)
    requires Seen(structs, view, i) && AddFields(view, name, l, fields).Ok?
    requires forall k :: 0 <= k < i ==> StructTiles(view[k])
    requires Tiles(l.fields, 0, l.size) && !HasTooEarly(structs, i, fields)
    ensures var l' := AddFields(view, name, l, fields).value; Tiles(l'.fields, 0, l'.size)
    decreases |fields|
  {
    hide Tiles, AddField, Seen, UsesTooEarly, StructTiles;
    if fields != [] {
      AddFieldTiles(structs, view, i, name, l, fields[0]);
      AddFieldsTile(structs, view, i, name, AddField(view, name, l, fields[0]).value, fields[1..]);
    }
  }

  // ---------- All structs ----------

  /** Flattening has reached struct i. */
  ghost predicate Reached(structs: seq<StructDef>, cur: seq<StructDef>, i: nat) {
    |cur| == |structs| && i <= |structs| && AllUnplaced(structs) &&
    (forall k :: 0 <= k < |structs| ==> cur[k].name == structs[k].name) &&
    (forall k :: i <= k < |structs| ==> cur[k] == structs[k]) &&
    forall k :: 0 <= k < |structs| ==> TotalSpace(cur[k].fields) >= cur[k].minSize
  }

  ghost predicate TooEarlyAt(structs: seq<StructDef>, i: nat)
    requires i < |structs|
  {
    HasTooEarly(structs, i, structs[i].fields)
  }

  lemma StructStep(structs: seq<StructDef>, cur: seq<StructDef>, i: nat)
    requires Reached(structs, cur, i) && i < |structs| && FlattenedStruct(cur, i).Ok?
    ensures var flat := FlattenedStruct(cur, i).value;
      Reached(structs, cur[i := flat], i + 1) &&
      (TooEarlyAt(structs, i) ==> !StructTiles(flat)) &&
      (!TooEarlyAt(structs, i) && (forall k :: 0 <= k < i ==> StructTiles(cur[k])) ==> StructTiles(flat))
  {
    hide AddFields, TotalSpace, HasTooEarly, Tiles;
    var s := cur[i];
    var view := cur[i := s.(hasVariable := false)];
    assert forall k :: 0 <= k < |structs| ==> structs[k] in structs;
    assert Seen(structs, view, i);
    var l0 := Flatten.Layout([], 0, false);
    NoLeaves();
    AddFieldsSpace(structs, view, i, s.name, l0, s.fields);
    var flat := FlattenedStruct(cur, i).value;
    if StructTiles(flat) {
      TilesTotal(flat.fields, 0, flat.minSize);
    }
    if !TooEarlyAt(structs, i) && forall k :: 0 <= k < i ==> StructTiles(cur[k]) {
      NothingTiles(0);
      AddFieldsTile(structs, view, i, s.name, l0, s.fields);
    }
  }

  lemma {:induction false} FromTiles(structs: seq<StructDef>, cur: seq<StructDef>, i: nat)
    requires Reached(structs, cur, i) && FlattenedFrom(cur, i).Ok?
    ensures var flat := FlattenedFrom(cur, i).value;
      |flat| == |structs| && (forall k :: 0 <= k < i ==> flat[k] == cur[k]) &&
      (forall k :: i <= k < |structs| && TooEarlyAt(structs, k) ==> !StructTiles(flat[k])) &&
      ((forall k :: i <= k < |structs| ==> !TooEarlyAt(structs, k)) && (forall k :: 0 <= k < i ==> StructTiles(cur[k])) ==>
        forall k :: 0 <= k < |structs| ==> StructTiles(flat[k]))
    decreases |structs| - i
  {
    hide FlattenedStruct, Reached, StructTiles, TooEarlyAt;
    assert |cur| == |structs| && i <= |structs| by { ReachedSizes(structs, cur, i); }
    if i < |structs| {
      var s := FlattenedStruct(cur, i).value;
      StructStep(structs, cur, i);
      FromTiles(structs, cur[i := s], i + 1);
      assert cur[i := s][i] == s;
    }
  }

  lemma ReachedSizes(structs: seq<StructDef>, cur: seq<StructDef>, i: nat)
    requires Reached(structs, cur, i)
    ensures |cur| == |structs| && i <= |structs|
  {
  }

  /** The exact condition: the flattened structs all tile their space if and only if no struct that takes space
      is used in itself or before its definition; and each struct that does so fails to tile. */
  lemma TilesExactly(structs: seq<StructDef>)
    requires AllUnplaced(structs) && Flattened(structs).Ok?
    ensures |Flattened(structs).value| == |structs|
    ensures (forall i :: 0 <= i < |structs| ==> StructTiles(Flattened(structs).value[i])) <==>
            (forall i :: 0 <= i < |structs| ==> !TooEarlyAt(structs, i))
    ensures forall i :: 0 <= i < |structs| && TooEarlyAt(structs, i) ==> !StructTiles(Flattened(structs).value[i])
  {
    hide FlattenedFrom, StructTiles, TooEarlyAt;
    assert forall k :: 0 <= k < |structs| ==> structs[k] in structs;
    FromTiles(structs, structs, 0);
  }
}
