/** What an array of structs stands for: as many elements as it says, each under its number and in its place. */
module Arrays {
  import opened Pdef
  import opened Flatten
  import opened Layout
  import Source

  // ---------- The number of leaves, and the space they take ----------

  lemma {:induction false} CopiesCount(f: Field, leaves: seq<Field>, idx: nat)
    requires idx <= f.arraySize
    ensures |Copies(f, leaves, idx)| == (f.arraySize - idx) * |leaves|
    decreases f.arraySize - idx
  {
    hide ElementName, OwnName, TypeOf;
    if idx < f.arraySize {
      CopiesCount(f, leaves, idx + 1);
      OneMore(f.arraySize - idx, |leaves|);
    }
  }

  /** The number that an array field is declared with is the number of its elements. */
  lemma ArrayTakes(f: Field, leaves: seq<Field>)
    requires f.isArray
    ensures |Instances(f, leaves)| == f.arraySize * |leaves|
    ensures TotalSpace(Instances(f, leaves)) == f.arraySize * TotalSpace(leaves)
  {
    hide Copies, TotalSpace;
    CopiesCount(f, leaves, 0);
    CopiesSpace(f, leaves, 0);
  }

  /** A nested field that is no array stands for one struct. */
  lemma SingleTakes(f: Field, leaves: seq<Field>)
    requires !f.isArray
    ensures |Instances(f, leaves)| == |leaves| && TotalSpace(Instances(f, leaves)) == TotalSpace(leaves)
  {
    hide Under, TotalSpace;
    UnderKeepsSpace(OwnName(f), leaves);
  }

  // ---------- Each element ----------

  lemma {:induction false} ExpandedAt(fields: seq<Field>, prefix: string, base: nat, j: nat)
    requires j < |fields|
    ensures |Expanded(fields, prefix, base)| == |fields| && Expanded(fields, prefix, base)[j] == Moved(fields[j], prefix, base)
    decreases |fields|
  {
    hide Moved;
    if |fields| > 1 {
      ExpandedAt(fields[1..], prefix, base, if j == 0 then 0 else j - 1);
    } else {
      assert fields[1..] == [] && Expanded(fields[1..], prefix, base) == [];
    }
  }

  /** The place of element k, when each takes `size` and the first is at `start`. */
  function Stride(start: nat, k: nat, size: nat): nat { start + k * size }

  /** Element k of the copies from idx on, as the fields from place k * |leaves| on. */
  ghost predicate ElementAt(fields: seq<Field>, first: nat, inner: seq<Field>, prefix: string, base: nat) {
    first + |inner| <= |fields| && fields[first..first + |inner|] == Expanded(inner, prefix, base)
  }

  lemma {:induction false} CopyAt(f: Field, leaves: seq<Field>, idx: nat, at: nat, k: nat)
    requires idx + k < f.arraySize
    ensures ElementAt(Placed(Copies(f, leaves, idx), at), Stride(0, k, |leaves|), Placed(leaves, 0),
                      ElementName(f, TypeOf(f), OwnName(f), idx + k), Stride(at, k, TotalSpace(leaves)))
    decreases k
  {
    hide Placed, Under, ElementName, OwnName, TypeOf, TotalSpace, Expanded, ElementAt;
    var prefix := ElementName(f, TypeOf(f), OwnName(f), idx);
    var own, rest := Under(prefix, leaves), Copies(f, leaves, idx + 1);
    PlacedKeepsLeaves(own, at);
    PlacedAppend(own, rest, at);
    UnderKeepsSpace(prefix, leaves);
    var next := at + TotalSpace(leaves);
    if k == 0 {
      FirstElement(leaves, prefix, at, Placed(rest, next));
    } else {
      CopyAt(f, leaves, idx + 1, next, k - 1);
      OneMore(k, |leaves|);
      OneMore(k, TotalSpace(leaves));
      ElementBehind(Placed(own, at), Placed(rest, next), Stride(0, k - 1, |leaves|), Placed(leaves, 0),
                    ElementName(f, TypeOf(f), OwnName(f), idx + k), Stride(at, k, TotalSpace(leaves)));
    }
  }

  lemma FirstElement(leaves: seq<Field>, prefix: string, at: nat, rest: seq<Field>)
    ensures ElementAt(Placed(Under(prefix, leaves), at) + rest, 0, Placed(leaves, 0), prefix, at)
  {
    hide Placed, Under, Expanded;
    ExpandedPlaces(leaves, prefix, at, 0);
    PlacedKeepsLeaves(leaves, 0);
    PlacedKeepsLeaves(Under(prefix, leaves), at);
    var own := Placed(Under(prefix, leaves), at);
    assert (own + rest)[0..0 + |own|] == own;
  }

  lemma ElementBehind(a: seq<Field>, b: seq<Field>, first: nat, inner: seq<Field>, prefix: string, base: nat)
    requires ElementAt(b, first, inner, prefix, base)
    ensures ElementAt(a + b, |a| + first, inner, prefix, base)
  {
    hide Expanded;
    assert (a + b)[|a| + first..|a| + first + |inner|] == b[first..first + |inner|];
  }

  lemma ElementBefore(a: seq<Field>, b: seq<Field>, first: nat, inner: seq<Field>, prefix: string, base: nat)
    requires ElementAt(a, first, inner, prefix, base)
    ensures ElementAt(a + b, first, inner, prefix, base)
  {
    hide Expanded;
    assert (a + b)[first..first + |inner|] == a[first..first + |inner|];
  }

  // ---------- Inside a flattened struct ----------

  lemma {:induction false} LeavesAround(structs: seq<StructDef>, i: nat, fields: seq<Field>, n: nat)
    requires DefinedBeforeUse(structs) && i < |structs| && n < |fields|
    requires forall f :: f in fields ==> f in structs[i].fields
    ensures LeavesOf(structs, i, fields) ==
            LeavesOf(structs, i, fields[..n]) + (LeavesOfField(structs, i, fields[n]) + LeavesOf(structs, i, fields[n + 1..]))
    decreases n
  {
    hide LeavesOfField;
    if n == 0 {
      assert fields[..0] == [];
    } else {
      LeavesAround(structs, i, fields[1..], n - 1);
      assert fields[1..][..n - 1] == fields[..n][1..] && fields[1..][n..] == fields[n + 1..];
      assert fields[..n][0] == fields[0];
      var a, b, c := LeavesOfField(structs, i, fields[0]), LeavesOf(structs, i, fields[..n][1..]),
        LeavesOfField(structs, i, fields[n]) + LeavesOf(structs, i, fields[n + 1..]);
      assert a + (b + c) == (a + b) + c;
    }
  }

  ghost function Before(structs: seq<StructDef>, i: nat, n: nat): seq<Field>
    requires DefinedBeforeUse(structs) && i < |structs| && n <= |structs[i].fields|
  {
    LeavesOf(structs, i, structs[i].fields[..n])
  }

  ghost function Behind(structs: seq<StructDef>, i: nat, n: nat): seq<Field>
    requires DefinedBeforeUse(structs) && i < |structs| && n < |structs[i].fields|
  {
    LeavesOf(structs, i, structs[i].fields[n + 1..])
  }

  /** The struct of which field n of struct i is made. */
  function Inner(structs: seq<StructDef>, i: nat, n: nat): nat
    requires i < |structs| && n < |structs[i].fields|
  {
    IndexOf(structs, TypeOf(structs[i].fields[n]))
  }

  /** What comes before a field, the field, and what comes behind it, in a flattened struct. */
  lemma FieldsAround(structs: seq<StructDef>, i: nat, n: nat)
    requires DefinedBeforeUse(structs) && Flattened(structs).Ok? && i < |structs| && n < |structs[i].fields|
    ensures |Flattened(structs).value| == |structs|
    ensures
      var before, own, behind := Before(structs, i, n), LeavesOfField(structs, i, structs[i].fields[n]), Behind(structs, i, n);
      var s, at := Flattened(structs).value[i], TotalSpace(Before(structs, i, n));
      s.fields == Placed(before, 0) + (Placed(own, at) + Placed(behind, at + TotalSpace(own))) &&
      s.minSize == at + TotalSpace(own) + TotalSpace(behind)
  {
    hide Flattened, Placed, TotalSpace, LeavesOf, LeavesOfField;
    FlattenedIsLayout(structs);
    var before, own, behind := Before(structs, i, n), LeavesOfField(structs, i, structs[i].fields[n]), Behind(structs, i, n);
    LeavesAround(structs, i, structs[i].fields, n);
    LeavesAre(structs, i);
    TotalAppend(before, own + behind);
    TotalAppend(own, behind);
    PlacedAppend(before, own + behind, 0);
    PlacedAppend(own, behind, TotalSpace(before));
  }

  /** How many fields a flattened struct with an array field has, and how large it is: what comes before the array, as
      many times the inner struct as the array says, and what comes behind it. */
  lemma ArraySizes(structs: seq<StructDef>, i: nat, n: nat)
    requires DefinedBeforeUse(structs) && Flattened(structs).Ok? && i < |structs| && n < |structs[i].fields|
    requires structs[i].fields[n].ftype.Nested? && structs[i].fields[n].isArray
    ensures |Flattened(structs).value| == |structs| && Inner(structs, i, n) < i
    ensures
      var s, inner := Flattened(structs).value[i], Flattened(structs).value[Inner(structs, i, n)];
      var before, behind := Before(structs, i, n), Behind(structs, i, n);
      |s.fields| == |before| + structs[i].fields[n].arraySize * |inner.fields| + |behind| &&
      s.minSize == TotalSpace(before) + structs[i].fields[n].arraySize * inner.minSize + TotalSpace(behind)
  {
    hide Flattened, Placed, TotalSpace, LeavesOf, Leaves, Instances;
    FlattenedIsLayout(structs);
    FieldsAround(structs, i, n);
    var f, leaves := structs[i].fields[n], InnerLeaves(structs, i, n);
    ArrayTakes(f, leaves);
    PlacedKeepsLeaves(leaves, 0);
    var before, behind, at := Before(structs, i, n), Behind(structs, i, n), TotalSpace(Before(structs, i, n));
    PlacedKeepsLeaves(before, 0);
    PlacedKeepsLeaves(Instances(f, leaves), at);
    PlacedKeepsLeaves(behind, at + TotalSpace(Instances(f, leaves)));
  }

  ghost function InnerLeaves(structs: seq<StructDef>, i: nat, n: nat): (r: seq<Field>)
    requires DefinedBeforeUse(structs) && i < |structs| && n < |structs[i].fields| && structs[i].fields[n].ftype.Nested?
    ensures Inner(structs, i, n) < i && r == Leaves(structs, Inner(structs, i, n))
    ensures LeavesOfField(structs, i, structs[i].fields[n]) == Instances(structs[i].fields[n], r)
  {
    assert RefersBack(structs, i);
    Leaves(structs, Inner(structs, i, n))
  }

  lemma ElementPlaced(structs: seq<StructDef>, i: nat, n: nat, k: nat)
    requires DefinedBeforeUse(structs) && Flattened(structs).Ok? && i < |structs| && n < |structs[i].fields|
    requires structs[i].fields[n].ftype.Nested? && structs[i].fields[n].isArray && k < structs[i].fields[n].arraySize
    ensures |Flattened(structs).value| == |structs| && Inner(structs, i, n) < i
    ensures
      var f, s, inner := structs[i].fields[n], Flattened(structs).value[i], Flattened(structs).value[Inner(structs, i, n)];
      ElementAt(s.fields, Stride(|Before(structs, i, n)|, k, |inner.fields|), inner.fields, ElementName(f, TypeOf(f), OwnName(f), k),
                Stride(TotalSpace(Before(structs, i, n)), k, inner.minSize))
  {
    hide Flattened, Placed, TotalSpace, LeavesOf, Leaves, Instances, ElementName, OwnName, TypeOf, ElementAt;
    FlattenedIsLayout(structs);
    FieldsAround(structs, i, n);
    var f, leaves := structs[i].fields[n], InnerLeaves(structs, i, n);
    var before, at, prefix := Before(structs, i, n), TotalSpace(Before(structs, i, n)), ElementName(f, TypeOf(f), OwnName(f), k);
    var own, rest := Instances(f, leaves), Placed(Behind(structs, i, n), at + TotalSpace(Instances(f, leaves)));
    var inner, base := Placed(leaves, 0), Stride(at, k, TotalSpace(leaves));
    PlacedKeepsLeaves(leaves, 0);
    PlacedKeepsLeaves(before, 0);
    InstancesOfArray(f, leaves);
    CopyAt(f, leaves, 0, at, k);
    ElementBefore(Placed(own, at), rest, Stride(0, k, |leaves|), inner, prefix, base);
    ElementBehind(Placed(before, 0), Placed(own, at) + rest, Stride(0, k, |leaves|), inner, prefix, base);
    assert |before| + Stride(0, k, |leaves|) == Stride(|before|, k, |leaves|);
  }

  /** Element k of an array field, for each k below the number that the array says: a copy of the flattened inner struct
      with the element's name in front of its paths, k times its size behind the place where the array starts. */
  lemma ArrayElement(structs: seq<StructDef>, i: nat, n: nat, k: nat, j: nat)
    requires DefinedBeforeUse(structs) && Flattened(structs).Ok? && i < |structs| && n < |structs[i].fields|
    requires structs[i].fields[n].ftype.Nested? && structs[i].fields[n].isArray && k < structs[i].fields[n].arraySize
    ensures |Flattened(structs).value| == |structs| && Inner(structs, i, n) < i
    ensures
      var f, s, inner := structs[i].fields[n], Flattened(structs).value[i], Flattened(structs).value[Inner(structs, i, n)];
      var m := Stride(|Before(structs, i, n)|, k, |inner.fields|) + j;
      j < |inner.fields| ==>
        0 <= m < |s.fields| &&
        s.fields[m] == inner.fields[j].(
          name := Fit(ElementName(f, TypeOf(f), OwnName(f), k) + "." + inner.fields[j].name),
          offset := Stride(TotalSpace(Before(structs, i, n)), k, inner.minSize) + inner.fields[j].offset)
  {
    hide *;
    ElementPlaced(structs, i, n, k);
    var f, s, inner := structs[i].fields[n], Flattened(structs).value[i], Flattened(structs).value[Inner(structs, i, n)];
    if j < |inner.fields| {
      FieldOfElement(s.fields, Stride(|Before(structs, i, n)|, k, |inner.fields|), inner.fields, ElementName(f, TypeOf(f), OwnName(f), k),
                     Stride(TotalSpace(Before(structs, i, n)), k, inner.minSize), j);
    }
  }

  lemma FieldOfElement(fields: seq<Field>, first: nat, inner: seq<Field>, prefix: string, base: nat, j: nat)
    requires ElementAt(fields, first, inner, prefix, base) && j < |inner|
    ensures first + j < |fields| && fields[first + j] == inner[j].(name := Fit(prefix + "." + inner[j].name), offset := base + inner[j].offset)
  {
    ExpandedAt(inner, prefix, base, j);
    assert fields[first + j] == fields[first..first + |inner|][j];
  }

  lemma LeavesAre(structs: seq<StructDef>, i: nat)
    requires DefinedBeforeUse(structs) && i < |structs|
    ensures Leaves(structs, i) == LeavesOf(structs, i, structs[i].fields)
  {
  }

  lemma InstancesOfArray(f: Field, leaves: seq<Field>)
    requires f.isArray
    ensures Instances(f, leaves) == Copies(f, leaves, 0)
  {
  }

  // ---------- Their paths ----------

  /** The path under which element k of an array is addressed. */
  function Numbered(name: string, k: nat): string { name + "[" + Decimal(k) + "]" }

  lemma SameDecimal(a: nat, b: nat)
    requires Decimal(a) == Decimal(b)
    ensures a == b
  {
    Source.DecimalReads(a);
    Source.DecimalReads(b);
  }

  lemma DecimalPlain(n: nat)
    ensures ']' !in Decimal(n)
  {
    hide Decimal;
    Source.DecimalReads(n);
  }

  /** Two texts up to their first bracket. */
  lemma UpToBracket(a: string, b: string, rest: string)
    requires ']' !in a && ']' !in b && a + "]" <= b + "]" + rest
    ensures a == b
  {
    var long := b + "]" + rest;
    var short := a + "]";
    assert forall k :: 0 <= k < |a| ==> short[k] == a[k] && a[k] in a;
    assert forall k :: 0 <= k < |b| ==> long[k] == b[k] && b[k] in b;
    assert short[|a|] == ']' && long[|b|] == ']';
    assert forall k :: 0 <= k < |short| ==> short[k] == long[k];
    assert |a| >= |b|;
    assert |a| <= |b|;
  }

  lemma SameNumber(name: string, k: nat, m: nat, rest: string)
    requires Numbered(name, k) + "." <= Numbered(name, m) + "." + rest
    ensures k == m
  {
    hide Decimal;
    DecimalPlain(k);
    DecimalPlain(m);
    var p, q := Numbered(name, k) + ".", Numbered(name, m) + "." + rest;
    var start := name + "[";
    assert p == start + (Decimal(k) + "].") && q == start + (Decimal(m) + "]" + ("." + rest));
    assert p[|start|..] == Decimal(k) + "]." && q[|start|..] == Decimal(m) + "]" + ("." + rest);
    assert p[|start|..] <= q[|start|..];
    assert Decimal(k) + "]" <= Decimal(k) + "].";
    UpToBracket(Decimal(k), Decimal(m), "." + rest);
    SameDecimal(k, m);
  }

  /** Unless the type's name is the longest there is, the names of accepted elements are numbered in full. */
  lemma NumberedInFull(f: Field, typeName: string, fieldName: string, k: nat)
    requires f.isArray && |typeName| < NAME_ROOM && |ElementName(f, typeName, fieldName, k)| <= NAME_ROOM
    ensures ElementName(f, typeName, fieldName, k) == Numbered(fieldName, k)
  {
    hide ElementName, Decimal;
    ElementNameExactly(f, typeName, fieldName, k);
  }

  ghost predicate HasPath(fields: seq<Field>, start: string) { exists g :: g in fields && start <= g.name }

  lemma HasPathAppend(a: seq<Field>, b: seq<Field>, start: string)
    ensures HasPath(a + b, start) <==> HasPath(a, start) || HasPath(b, start)
  {
    assert forall g :: g in a + b <==> g in a || g in b;
  }

  /** The elements that can be addressed: a path starts with the array's name and [k] if and only if k is below the
      number that the array is declared with. */
  lemma PathsExactly(f: Field, leaves: seq<Field>, k: nat)
    requires f.isArray && |TypeOf(f)| < NAME_ROOM && leaves != []
    requires forall idx :: 0 <= idx < f.arraySize ==> |ElementName(f, TypeOf(f), OwnName(f), idx)| <= NAME_ROOM
    ensures HasPath(Instances(f, leaves), Numbered(OwnName(f), k) + ".") <==> k < f.arraySize
  {
    hide ElementName, TypeOf, OwnName, Numbered, Fit;
    CopiesPaths(f, leaves, 0, k);
  }

  lemma {:induction false} CopiesPaths(f: Field, leaves: seq<Field>, idx: nat, k: nat)
    requires f.isArray && |TypeOf(f)| < NAME_ROOM && leaves != [] && idx <= f.arraySize
    requires forall m :: 0 <= m < f.arraySize ==> |ElementName(f, TypeOf(f), OwnName(f), m)| <= NAME_ROOM
    ensures HasPath(Copies(f, leaves, idx), Numbered(OwnName(f), k) + ".") <==> idx <= k < f.arraySize
    decreases f.arraySize - idx
  {
    hide ElementName, TypeOf, OwnName, Numbered, Under, Decimal, HasPath;
    if idx == f.arraySize {
      assert !HasPath([], Numbered(OwnName(f), k) + ".") by { NoPath(Numbered(OwnName(f), k) + "."); }
    } else {
      var prefix := ElementName(f, TypeOf(f), OwnName(f), idx);
      NumberedInFull(f, TypeOf(f), OwnName(f), idx);
      var own, rest := Under(prefix, leaves), Copies(f, leaves, idx + 1);
      CopiesPaths(f, leaves, idx + 1, k);
      UnderPaths(OwnName(f), leaves, idx, k);
      HasPathAppend(own, rest, Numbered(OwnName(f), k) + ".");
    }
  }

  lemma NoPath(start: string)
    ensures !HasPath([], start)
  {
  }

  lemma UnderPaths(name: string, leaves: seq<Field>, idx: nat, k: nat)
    requires leaves != [] && |Numbered(name, idx)| <= NAME_ROOM
    ensures HasPath(Under(Numbered(name, idx), leaves), Numbered(name, k) + ".") <==> k == idx
  {
    hide Numbered;
    var u := Under(Numbered(name, idx), leaves);
    if k == idx {
      assert u[0] in u && Numbered(name, k) + "." <= u[0].name;
    }
    forall g | g in u && Numbered(name, k) + "." <= g.name
      ensures k == idx
    {
      var j :| 0 <= j < |u| && u[j] == g;
      assert g.name <= Numbered(name, idx) + "." + leaves[j].name;
      SameNumber(name, k, idx, leaves[j].name);
    }
  }

  /** Among the fields that a flattened struct has for an array field, there are paths that start with the array's name
      and [k] if and only if k is below the number that the array says. */
  lemma ElementsExactly(structs: seq<StructDef>, i: nat, n: nat, k: nat)
    requires DefinedBeforeUse(structs) && Flattened(structs).Ok? && i < |structs| && n < |structs[i].fields|
    requires structs[i].fields[n].ftype.Nested? && structs[i].fields[n].isArray && |TypeOf(structs[i].fields[n])| < NAME_ROOM
    ensures |Flattened(structs).value| == |structs| && Inner(structs, i, n) < i
    ensures
      var f, s, inner := structs[i].fields[n], Flattened(structs).value[i], Flattened(structs).value[Inner(structs, i, n)];
      var first := |Before(structs, i, n)|;
      0 <= first + f.arraySize * |inner.fields| <= |s.fields| &&
      (inner.fields != [] ==>
        (HasPath(s.fields[first..first + f.arraySize * |inner.fields|], Numbered(OwnName(f), k) + ".") <==> k < f.arraySize))
  {
    hide Flattened, Placed, TotalSpace, LeavesOf, Leaves, Instances, ElementName, OwnName, TypeOf, Numbered;
    FlattenedIsLayout(structs);
    FieldsAround(structs, i, n);
    ArraySizes(structs, i, n);
    var f, leaves := structs[i].fields[n], InnerLeaves(structs, i, n);
    var s, at, own := Flattened(structs).value[i], TotalSpace(Before(structs, i, n)), Instances(f, leaves);
    PlacedKeepsLeaves(Before(structs, i, n), 0);
    PlacedKeepsLeaves(leaves, 0);
    PlacedKeepsLeaves(own, at);
    ArrayTakes(f, leaves);
    var first := |Before(structs, i, n)|;
    assert s.fields[first..first + |own|] == Placed(own, at);
    if leaves != [] {
      AcceptedNames(structs, i, n);
      PathsExactly(f, leaves, k);
      SameNames(own, Placed(own, at), Numbered(OwnName(f), k) + ".");
    }
  }

  lemma AcceptedNames(structs: seq<StructDef>, i: nat, n: nat)
    requires DefinedBeforeUse(structs) && Flattened(structs).Ok? && i < |structs| && n < |structs[i].fields|
    requires structs[i].fields[n].isArray
    ensures var f := structs[i].fields[n];
      forall idx :: 0 <= idx < f.arraySize ==> |ElementName(f, TypeOf(f), OwnName(f), idx)| <= NAME_ROOM
  {
    hide Flattened, ElementName, OwnName, TypeOf, HasVariable;
    FlattenedIsLayout(structs);
    assert StructOk(structs, i) && FieldOk(structs, i, structs[i].fields[n]);
  }

  lemma SameNames(a: seq<Field>, b: seq<Field>, start: string)
    requires |a| == |b| && forall k :: 0 <= k < |a| ==> b[k] == a[k].(offset := b[k].offset)
    ensures HasPath(a, start) <==> HasPath(b, start)
  {
    if g :| g in a && start <= g.name {
      var k :| 0 <= k < |a| && a[k] == g;
      assert b[k] in b && b[k].name == g.name;
    }
    if g :| g in b && start <= g.name {
      var k :| 0 <= k < |b| && b[k] == g;
      assert a[k] in a && a[k].name == g.name;
    }
  }
}
