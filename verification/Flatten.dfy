/** Flattening nested structs and arrays to leaves at absolute offsets (pdef/parser.c, flatten_structs). */
module Flatten {
  import opened Pdef

  datatype FlattenError =
    | VariableNotLast(field: string, structName: string)
    | ZeroArraySize(field: string, structName: string)
    | InvalidNestedName(field: string)
    | NestedTypeTooLong(field: string)
    | NestedFieldTooLong(field: string)
    | NestedNotFound(typeName: string)
    | VariableArray(typeName: string, structName: string)
    | ScalarArray(field: string, structName: string)

  // ---------- Names ----------

  /** The position of the first '.', or the length when there is none. */
  function DotIndex(name: string): (i: nat)
    ensures i <= |name|
    ensures '.' !in name[..i]
    ensures i < |name| ==> name[i] == '.'
  {
    if name == [] || name[0] == '.' then 0
    else
      var i := DotIndex(name[1..]);
      assert name[..i + 1] == [name[0]] + name[1..][..i];
      i + 1
  }

  /** A nested field is named "Type.field": its type and field names, each of which must fit its buffer. */
  function NestedNames(name: string): (r: Result<(string, string), FlattenError>)
    ensures r.Ok? ==> '.' !in r.value.0 && name == r.value.0 + "." + r.value.1
    ensures r.Ok? ==> |r.value.0| <= NAME_ROOM && |r.value.1| <= NAME_ROOM
  {
    var dot := DotIndex(name);
    if dot == |name| then Err(InvalidNestedName(name))
    else if dot > NAME_ROOM then Err(NestedTypeTooLong(name))
    else if |name| - dot - 1 > NAME_ROOM then Err(NestedFieldTooLong(name))
    else Ok((name[..dot], name[dot + 1..]))
  }

  /** Splitting at the first dot undoes joining a dot-free type name and a field name, and fails exactly when
      one of them does not fit. */
  lemma {:induction false} SplitJoined(typeName: string, fieldName: string)
    requires '.' !in typeName
    ensures NestedNames(typeName + "." + fieldName) ==
            if |typeName| > NAME_ROOM then Err(NestedTypeTooLong(typeName + "." + fieldName))
            else if |fieldName| > NAME_ROOM then Err(NestedFieldTooLong(typeName + "." + fieldName))
            else Ok((typeName, fieldName))
  {
    var name := typeName + "." + fieldName;
    var dot := DotIndex(name);
    assert name[|typeName|] == '.';
    assert forall k :: 0 <= k < |typeName| ==> name[k] == typeName[k] && typeName[k] in typeName;
    assert forall k :: 0 <= k < dot ==> name[k] == name[..dot][k] && name[..dot][k] in name[..dot];
    assert dot == |typeName|;
    assert name[..|typeName|] == typeName && name[|typeName| + 1..] == fieldName;
  }

  function Decimal(n: nat): string {
    if n < 10 then ["0123456789"[n]] else Decimal(n / 10) + ["0123456789"[n % 10]]
  }

  /** Names in fields are cut to their room. */
  function Fit(name: string): (r: string)
    ensures r <= name && |r| == if |name| <= PATH_ROOM then |name| else PATH_ROOM
  {
    if |name| <= PATH_ROOM then name else name[..PATH_ROOM]
  }

  /** The "Type.field" name of element `idx` of a nested field; elements of arrays are numbered. */
  function ElementField(f: Field, typeName: string, fieldName: string, idx: nat): string {
    if f.isArray then Fit(typeName + "." + fieldName + "[" + Decimal(idx) + "]") else typeName + "." + fieldName
  }

  /** The name under which element `idx` of a nested field appears in paths. */
  function ElementName(f: Field, typeName: string, fieldName: string, idx: nat): (r: string)
    requires |typeName| <= NAME_ROOM
    ensures ElementField(f, typeName, fieldName, idx) == typeName + "." + r
  {
    var name := ElementField(f, typeName, fieldName, idx);
    assert name[..|typeName| + 1] == typeName + ".";
    name[|typeName| + 1..]
  }

  predicate LongName(f: Field, typeName: string, fieldName: string, idx: nat)
    requires |typeName| <= NAME_ROOM
  {
    |ElementName(f, typeName, fieldName, idx)| > NAME_ROOM
  }

  /** The first element from `idx` on whose name is too long to be expanded. */
  function FirstLong(f: Field, typeName: string, fieldName: string, idx: nat): (r: Option<string>)
    requires |typeName| <= NAME_ROOM && idx <= Repeat(f)
    ensures r.None? <==> forall k :: idx <= k < Repeat(f) ==> !LongName(f, typeName, fieldName, k)
    decreases Repeat(f) - idx
  {
    if idx == Repeat(f) then None
    else if LongName(f, typeName, fieldName, idx) then Some(ElementField(f, typeName, fieldName, idx))
    else FirstLong(f, typeName, fieldName, idx + 1)
  }

  function Repeat(f: Field): nat { if f.isArray then f.arraySize else 1 }

  // ---------- What the loops compute ----------

  function FindStruct(structs: seq<StructDef>, name: string): Option<StructDef> {
    if structs == [] then None
    else if structs[0].name == name then Some(structs[0])
    else FindStruct(structs[1..], name)
  }

  function Moved(f: Field, prefix: string, base: nat): Field {
    f.(name := Fit(prefix + "." + f.name), offset := base + f.offset)
  }

  /** The fields of a nested struct, renamed below `prefix` and moved to `base`. */
  function Expanded(fields: seq<Field>, prefix: string, base: nat): seq<Field> {
    if fields == [] then [] else [Moved(fields[0], prefix, base)] + Expanded(fields[1..], prefix, base)
  }

  /** Where element `idx` begins. */
  function ElementBase(base: nat, idx: nat, size: nat): nat { base + idx * size }

  /** Elements `idx` and on of a nested field whose first element is at `base`. */
  function Elements(nested: StructDef, f: Field, typeName: string, fieldName: string, base: nat, idx: nat): seq<Field>
    requires |typeName| <= NAME_ROOM && idx <= Repeat(f)
    decreases Repeat(f) - idx
  {
    if idx == Repeat(f) then []
    else Expanded(nested.fields, ElementName(f, typeName, fieldName, idx), ElementBase(base, idx, nested.minSize)) +
         Elements(nested, f, typeName, fieldName, base, idx + 1)
  }

  /** The fields with those of the struct named by `nestedName` ("Type.field") at `base`. */
  function NestedExpansion(structs: seq<StructDef>, nestedName: string, fields: seq<Field>, base: nat)
    : Result<seq<Field>, FlattenError>
  {
    match NestedNames(nestedName)
    case Err(e) => Err(e)
    case Ok((typeName, fieldName)) =>
      match FindStruct(structs, typeName)
      case None => Err(NestedNotFound(typeName))
      case Some(nested) => Ok(fields + Expanded(nested.fields, fieldName, base))
  }

  /** The fields with all elements of a nested field, unless the name of one is too long. */
  function ElementsExpansion(nested: StructDef, f: Field, typeName: string, fieldName: string, fields: seq<Field>, base: nat)
    : Result<seq<Field>, FlattenError>
    requires |typeName| <= NAME_ROOM
  {
    match FirstLong(f, typeName, fieldName, 0)
    case Some(name) => Err(NestedFieldTooLong(name))
    case None => Ok(fields + Elements(nested, f, typeName, fieldName, base, 0))
  }

  datatype Layout = Layout(fields: seq<Field>, size: nat, variable: bool)

  /** Laying out one source field after what has been laid out so far. */
  function AddField(structs: seq<StructDef>, structName: string, l: Layout, f: Field): Result<Layout, FlattenError> {
    if l.variable then Err(VariableNotLast(f.name, structName))
    else if Repeat(f) == 0 then Err(ZeroArraySize(f.name, structName))
    else if f.ftype.Nested? then
      var names := NestedNames(f.name);
      if names.Err? then Err(names.error) else
      var (typeName, fieldName) := names.value;
      var found := FindStruct(structs, typeName);
      if found.None? then Err(NestedNotFound(typeName)) else
      var nested := found.value;
      if nested.hasVariable && Repeat(f) > 1 then Err(VariableArray(typeName, structName)) else
      var long := FirstLong(f, typeName, fieldName, 0);
      if long.Some? then Err(NestedFieldTooLong(long.value)) else
      Ok(Layout(l.fields + Elements(nested, f, typeName, fieldName, l.size, 0),
                l.size + nested.minSize * Repeat(f), nested.hasVariable))
    else if f.isArray then Err(ScalarArray(f.name, structName))
    else Ok(Layout(l.fields + [f.(offset := l.size)], if f.isVariable then l.size else l.size + f.size, f.isVariable))
  }

  function AddFields(structs: seq<StructDef>, structName: string, l: Layout, fields: seq<Field>)
    : Result<Layout, FlattenError>
    decreases |fields|
  {
    if fields == [] then Ok(l) else
    var r := AddField(structs, structName, l, fields[0]);
    if r.Err? then r else AddFields(structs, structName, r.value, fields[1..])
  }

  /** Flattening struct i; lookups see the struct itself with its variable flag cleared. */
  function FlattenedStruct(structs: seq<StructDef>, i: nat): Result<StructDef, FlattenError>
    requires i < |structs|
  {
    var s := structs[i];
    var view := structs[i := s.(hasVariable := false)];
    var r := AddFields(view, s.name, Layout([], 0, false), s.fields);
    if r.Err? then Err(r.error) else Ok(StructDef(s.name, r.value.fields, r.value.size, r.value.variable))
  }

  function FlattenedFrom(structs: seq<StructDef>, i: nat): Result<seq<StructDef>, FlattenError>
    requires i <= |structs|
    decreases |structs| - i
  {
    if i == |structs| then Ok(structs) else
    var r := FlattenedStruct(structs, i);
    if r.Err? then Err(r.error) else FlattenedFrom(structs[i := r.value], i + 1)
  }

  function Flattened(structs: seq<StructDef>): Result<seq<StructDef>, FlattenError> {
    FlattenedFrom(structs, 0)
  }

  // ---------- The loops ----------

  class Flattener {
    var structs: seq<StructDef>

    constructor (structs: seq<StructDef>)
      ensures this.structs == structs
    {
      this.structs := structs;
    }

    method FindStructByName(name: string) returns (r: Option<StructDef>)
      ensures r == FindStruct(structs, name)
    {
      for i := 0 to |structs|
        invariant FindStruct(structs, name) == FindStruct(structs[i..], name)
      {
        if structs[i].name == name {
          return Some(structs[i]);
        }
        assert structs[i..][1..] == structs[i + 1..];
      }
      return None;
    }

    /** Appends the fields of the struct named by `nestedName` ("Type.field") at `base`. */
    method ExpandNestedField(nestedName: string, fields: seq<Field>, base: nat)
      returns (r: Result<seq<Field>, FlattenError>)
      ensures r == NestedExpansion(structs, nestedName, fields, base)
    {
      var names := NestedNames(nestedName);
      if names.Err? {
        return Err(names.error);
      }
      var (typeName, fieldName) := names.value;
      var found := FindStructByName(typeName);
      if found.None? {
        return Err(NestedNotFound(typeName));
      }
      var nested := found.value;
      var out := fields;
      for i := 0 to |nested.fields|
        invariant out + Expanded(nested.fields[i..], fieldName, base) == fields + Expanded(nested.fields, fieldName, base)
      {
        assert nested.fields[i..][1..] == nested.fields[i + 1..];
        out := out + [Moved(nested.fields[i], fieldName, base)];
      }
      assert out + [] == out;
      return Ok(out);
    }

    method ExpandElements(typeName: string, nested: StructDef, f: Field, fieldName: string,
                          fields: seq<Field>, base: nat)
      returns (r: Result<seq<Field>, FlattenError>)
      requires '.' !in typeName && |typeName| <= NAME_ROOM && FindStruct(structs, typeName) == Some(nested)
      ensures r == ElementsExpansion(nested, f, typeName, fieldName, fields, base)
    {
      hide NestedNames, Expanded, ElementField;
      var out := fields;
      for idx := 0 to Repeat(f)
        invariant out + Elements(nested, f, typeName, fieldName, base, idx) ==
                  fields + Elements(nested, f, typeName, fieldName, base, 0)
        invariant FirstLong(f, typeName, fieldName, idx) == FirstLong(f, typeName, fieldName, 0)
      {
        SplitJoined(typeName, ElementName(f, typeName, fieldName, idx));
        var more := ExpandNestedField(ElementField(f, typeName, fieldName, idx), out, ElementBase(base, idx, nested.minSize));
        if more.Err? {
          return Err(more.error);
        }
        out := more.value;
      }
      assert out + [] == out;
      return Ok(out);
    }

    method FlattenField(structName: string, l: Layout, f: Field) returns (r: Result<Layout, FlattenError>)
      ensures r == AddField(structs, structName, l, f)
    {
      hide Elements;
      if l.variable {
        return Err(VariableNotLast(f.name, structName));
      }
      var repeat := Repeat(f);
      if repeat == 0 {
        return Err(ZeroArraySize(f.name, structName));
      }
      if f.ftype.Nested? {
        var names := NestedNames(f.name);
        if names.Err? {
          return Err(names.error);
        }
        var (typeName, fieldName) := names.value;
        var found := FindStructByName(typeName);
        if found.None? {
          return Err(NestedNotFound(typeName));
        }
        var nested := found.value;
        if nested.hasVariable && repeat > 1 {
          return Err(VariableArray(typeName, structName));
        }
        var fields := ExpandElements(typeName, nested, f, fieldName, l.fields, l.size);
        if fields.Err? {
          return Err(fields.error);
        }
        return Ok(Layout(fields.value, l.size + nested.minSize * repeat, nested.hasVariable));
      }
      if f.isArray {
        return Err(ScalarArray(f.name, structName));
      }
      return Ok(Layout(l.fields + [f.(offset := l.size)], if f.isVariable then l.size else l.size + f.size, f.isVariable));
    }

    /** On success every struct is flattened in place; on failure the definition is rejected. */
    method FlattenStructs() returns (error: Option<FlattenError>)
      modifies this
      ensures match Flattened(old(structs))
              case Err(e) => error == Some(e)
              case Ok(flat) => error == None && structs == flat
    {
      hide AddField;
      for i := 0 to |structs|
        invariant |structs| == |old(structs)|
        invariant FlattenedFrom(structs, i) == Flattened(old(structs))
      {
        ghost var before := structs;
        var s := structs[i];
        structs := structs[i := s.(hasVariable := false)];
        var l := Layout([], 0, false);
        for j := 0 to |s.fields|
          invariant structs == before[i := s.(hasVariable := false)]
          invariant AddFields(structs, s.name, l, s.fields[j..]) ==
                    AddFields(structs, s.name, Layout([], 0, false), s.fields)
        {
          assert s.fields[j..][1..] == s.fields[j + 1..];
          var r := FlattenField(s.name, l, s.fields[j]);
          if r.Err? {
            return Some(r.error);
          }
          l := r.value;
        }
        structs := structs[i := StructDef(s.name, l.fields, l.size, l.variable)];
        assert structs == before[i := StructDef(s.name, l.fields, l.size, l.variable)];
      }
      return None;
    }
  }
}
