/** The emitting loops of compile_filter_rules: sizes, start labels, then instructions written in place
    into a zeroed buffer.  Each is proved against the code functions of `Compiler`. */
module Emitter {
  import opened Pdef
  import opened Compiler

  /** What remains to be written completes what has been written. */
  ghost predicate Completes(buffer: array<Instruction>, idx: nat, rest: seq<Instruction>, all: seq<Instruction>)
    reads buffer
  {
    idx <= buffer.Length && |all| <= buffer.Length && buffer[..idx] + rest == all
  }

  lemma CompletesStep(was: seq<Instruction>, now: seq<Instruction>, ins: Instruction,
      rest: seq<Instruction>, all: seq<Instruction>)
    requires was + ([ins] + rest) == all && now == was + [ins]
    ensures now + rest == all
  {
    assert was + ([ins] + rest) == (was + [ins]) + rest;
  }

  /** bytecode[idx++] = ins */
  method Emit(buffer: array<Instruction>, idx: nat, ins: Instruction, ghost rest: seq<Instruction>,
              ghost all: seq<Instruction>)
    returns (idx': nat)
    requires Completes(buffer, idx, [ins] + rest, all)
    modifies buffer
    ensures idx' == idx + 1 && Completes(buffer, idx', rest, all)
  {
    assert |buffer[..idx] + ([ins] + rest)| == |all|;
    ghost var was := buffer[..idx];
    buffer[idx] := ins;
    assert buffer[..idx + 1] == was + [ins];
    CompletesStep(was, buffer[..idx + 1], ins, rest, all);
    idx' := idx + 1;
  }

  method EmitIn(buffer: array<Instruction>, start: nat, values: seq<U64>, next: nat, fail: nat,
                ghost rest: seq<Instruction>, ghost all: seq<Instruction>)
    returns (idx: nat)
    requires values != []
    requires Completes(buffer, start, InChain(values, start, next, fail) + rest, all)
    modifies buffer
    ensures idx == start + 3 * |values| - 1
    ensures Completes(buffer, idx, rest, all)
  {
    hide Completes;
    idx := start;
    for v := 0 to |values|
      invariant idx == start + 3 * v - (if v == |values| then 1 else 0)
      invariant Completes(buffer, idx, InChain(values[v..], idx, next, fail) + rest, all)
    {
      var left := values[v..];
      ghost var rest1 := InChain(left, idx, next, fail)[1..] + rest;
      ghost var rest2 := InChain(left, idx, next, fail)[2..] + rest;
      assert InChain(left, idx, next, fail) + rest == [Compare(CmpEq, values[v], 0)] + rest1;
      var k := Emit(buffer, idx, Compare(CmpEq, values[v], 0), rest1, all);
      var target := if v + 1 < |values| then k + 2 else fail;
      assert rest1 == [JumpTo(JumpIfFalse, target)] + rest2;
      k := Emit(buffer, k, JumpTo(JumpIfFalse, target), rest2, all);
      assert left[1..] == values[v + 1..];
      if v + 1 < |values| {
        assert rest2 == [JumpTo(Jump, next)] + (InChain(values[v + 1..], idx + 3, next, fail) + rest);
        k := Emit(buffer, k, JumpTo(Jump, next), InChain(values[v + 1..], idx + 3, next, fail) + rest, all);
      } else {
        assert rest2 == InChain(values[v + 1..], k, next, fail) + rest;
      }
      idx := k;
    }
    assert InChain(values[|values|..], idx, next, fail) + rest == rest;
  }

  method EmitNotIn(buffer: array<Instruction>, start: nat, values: seq<U64>, next: nat, fail: nat,
                   ghost rest: seq<Instruction>, ghost all: seq<Instruction>)
    returns (idx: nat)
    requires Completes(buffer, start, NotInChain(values, start, next, fail) + rest, all)
    modifies buffer
    ensures idx == start + 3 * |values|
    ensures Completes(buffer, idx, rest, all)
  {
    hide Completes;
    idx := start;
    for v := 0 to |values|
      invariant idx == start + 3 * v
      invariant Completes(buffer, idx, NotInChain(values[v..], idx, next, fail) + rest, all)
    {
      var left := values[v..];
      assert left[1..] == values[v + 1..];
      ghost var rest3 := NotInChain(values[v + 1..], idx + 3, next, fail) + rest;
      var target := if v + 1 < |values| then idx + 3 else next;
      assert NotInChain(left, idx, next, fail) + rest ==
             [Compare(CmpEq, values[v], 0)] + ([JumpTo(JumpIfFalse, target)] + ([JumpTo(Jump, fail)] + rest3));
      var k := Emit(buffer, idx, Compare(CmpEq, values[v], 0),
                    [JumpTo(JumpIfFalse, target)] + ([JumpTo(Jump, fail)] + rest3), all);
      k := Emit(buffer, k, JumpTo(JumpIfFalse, if v + 1 < |values| then k + 2 else next),
                [JumpTo(Jump, fail)] + rest3, all);
      idx := Emit(buffer, k, JumpTo(Jump, fail), rest3, all);
    }
    assert NotInChain(values[|values|..], idx, next, fail) + rest == rest;
  }

  method EmitCondition(buffer: array<Instruction>, start: nat, cond: Condition, field: Field, next: nat, fail: nat,
                       ghost rest: seq<Instruction>, ghost all: seq<Instruction>)
    returns (idx: nat)
    requires (cond.op.In? || cond.op.NotIn?) ==> cond.values != []
    requires next == start + CondSize(cond)
    requires Completes(buffer, start, CondCode(cond, field, start, fail) + rest, all)
    modifies buffer
    ensures idx == next
    ensures Completes(buffer, idx, rest, all)
  {
    hide Completes;
    ghost var code := CondCode(cond, field, start, fail);
    assert code + rest == [Load(GetLoadOpcode(field), field.offset)] + (code[1..] + rest);
    idx := Emit(buffer, start, Load(GetLoadOpcode(field), field.offset), code[1..] + rest, all);
    match cond.op {
      case In =>
        assert code[1..] == InChain(cond.values, start + 1, next, fail);
        idx := EmitIn(buffer, idx, cond.values, next, fail, rest, all);
      case NotIn =>
        assert code[1..] == NotInChain(cond.values, start + 1, next, fail);
        idx := EmitNotIn(buffer, idx, cond.values, next, fail, rest, all);
      case _ =>
        var test := Compare(GetCmpOpcode(cond.op), cond.value, 0);
        if cond.op == Mask {
          test := test.(operand := cond.mask, operand2 := cond.value);
        }
        assert code[1..] + rest == [test] + ([JumpTo(JumpIfFalse, fail)] + rest);
        idx := Emit(buffer, idx, test, [JumpTo(JumpIfFalse, fail)] + rest, all);
        idx := Emit(buffer, idx, JumpTo(JumpIfFalse, fail), rest, all);
    }
  }

  // ---------- Labels ----------

  /** The instruction at which condition j starts. */
  function StartOf(conds: seq<Condition>, j: nat): nat
    requires j <= |conds|
  {
    TotalCondSize(conds[..j])
  }

  lemma {:induction false} TotalOfPrefix(conds: seq<Condition>, j: nat)
    requires j < |conds|
    ensures TotalCondSize(conds[..j + 1]) == TotalCondSize(conds[..j]) + CondSize(conds[j])
  {
    if j == 0 {
      assert conds[..1][1..] == [];
    } else {
      TotalOfPrefix(conds[1..], j - 1);
      assert conds[..j + 1][1..] == conds[1..][..j] && conds[..j][1..] == conds[1..][..j - 1];
    }
  }

  /** First pass: the size of every condition, the total, or the first empty value list. */
  method MeasureConditions(filter: string, conds: seq<Condition>)
    returns (sizes: array<nat>, total: nat, error: Option<CompileError>)
    ensures fresh(sizes) && sizes.Length == |conds|
    ensures error == FirstEmptyList(filter, conds)
    ensures error.None? ==> total == TotalCondSize(conds) + 2
    ensures error.None? ==> forall j :: 0 <= j < |conds| ==> sizes[j] == CondSize(conds[j])
  {
    sizes := new nat[|conds|](_ => 0);
    total := 2;
    for j := 0 to |conds|
      invariant total == 2 + TotalCondSize(conds[..j])
      invariant forall k :: 0 <= k < j ==> sizes[k] == CondSize(conds[k])
      invariant FirstEmptyList(filter, conds) == FirstEmptyList(filter, conds[j..])
    {
      TotalOfPrefix(conds, j);
      assert conds[j..][1..] == conds[j + 1..];
      match conds[j].op {
        case In =>
          if |conds[j].values| == 0 {
            return sizes, total, Some(EmptyInList(filter));
          }
          sizes[j] := 3 * |conds[j].values|;
        case NotIn =>
          if |conds[j].values| == 0 {
            return sizes, total, Some(EmptyNotInList(filter));
          }
          sizes[j] := 1 + 3 * |conds[j].values|;
        case _ =>
          sizes[j] := 3;
      }
      total := total + sizes[j];
    }
    assert conds[..|conds|] == conds;
    return sizes, total, None;
  }

  /** Second pass: the start label of every condition. */
  method LabelConditions(conds: seq<Condition>, sizes: array<nat>) returns (starts: array<nat>)
    requires sizes.Length == |conds| > 0
    requires forall j :: 0 <= j < |conds| ==> sizes[j] == CondSize(conds[j])
    ensures fresh(starts) && starts.Length == |conds|
    ensures forall j :: 0 <= j < |conds| ==> starts[j] == StartOf(conds, j)
  {
    starts := new nat[|conds|](_ => 0);
    starts[0] := 0;
    for j := 1 to |conds|
      invariant forall k :: 0 <= k < j ==> starts[k] == StartOf(conds, k)
    {
      TotalOfPrefix(conds, j - 1);
      starts[j] := starts[j - 1] + sizes[j - 1];
    }
  }

  lemma {:induction false} FirstUnresolvedSuffix(s: StructDef, conds: seq<Condition>, j: nat)
    requires j <= |conds|
    requires forall k :: 0 <= k < j ==> FindField(s.fields, conds[k].fieldName).Some?
    ensures FirstUnresolved(s, conds) == FirstUnresolved(s, conds[j..])
    ensures j == |conds| ==> FirstUnresolved(s, conds) == None
    ensures j < |conds| && FindField(s.fields, conds[j].fieldName).None? ==>
              FirstUnresolved(s, conds) == Some(FieldNotFound(conds[j].fieldName, s.name))
  {
    if j > 0 {
      FirstUnresolvedSuffix(s, conds[1..], j - 1);
      assert conds[1..][j - 1..] == conds[j..];
    } else {
      assert conds[0..] == conds;
    }
  }

  /** Third pass: the instructions of all conditions, or the first field that does not resolve. */
  method EmitConditions(s: StructDef, conds: seq<Condition>, starts: array<nat>, success: nat, fail: nat,
                        bytecode: array<Instruction>)
    returns (error: Option<CompileError>)
    requires starts.Length == |conds|
    requires forall j :: 0 <= j < |conds| ==> starts[j] == StartOf(conds, j)
    requires ListsNonEmpty(conds)
    requires success == TotalCondSize(conds) && fail == success + 1 && bytecode.Length == success + 2
    modifies bytecode
    ensures error == FirstUnresolved(s, conds)
    ensures error.None? ==> bytecode[..success] == CondsCode(s.fields, conds, 0, fail)
  {
    hide CondCode, CondSize, FirstUnresolved, FindField;
    ghost var all := CondsCode(s.fields, conds, 0, fail);
    CondsCodeLength(s.fields, conds, 0, fail);
    assert conds[0..] == conds && conds[..|conds|] == conds;
    for j := 0 to |conds|
      invariant forall k :: 0 <= k < j ==> FindField(s.fields, conds[k].fieldName).Some?
      invariant Completes(bytecode, StartOf(conds, j), CondsCode(s.fields, conds[j..], StartOf(conds, j), fail), all)
    {
      FirstUnresolvedSuffix(s, conds, j);
      TotalOfPrefix(conds, j);
      assert conds[j..][1..] == conds[j + 1..];
      var start := starts[j];
      var next := if j + 1 < |conds| then starts[j + 1] else success;
      var field := FindFieldByPath(s, conds[j].fieldName);
      if field.None? {
        return Some(FieldNotFound(conds[j].fieldName, s.name));
      }
      var idx := EmitCondition(bytecode, start, conds[j], field.value, next, fail,
                               CondsCode(s.fields, conds[j + 1..], next, fail), all);
    }
    FirstUnresolvedSuffix(s, conds, |conds|);
    return None;
  }

  // ---------- Whole rules ----------

  method FindTargetStruct(structs: seq<StructDef>, path: string) returns (r: Option<StructDef>)
    ensures r == FindTarget(structs, path)
  {
    for j := 0 to |structs|
      invariant FindTarget(structs, path) == FindTarget(structs[j..], path)
    {
      var field := FindFieldByPath(structs[j], path);
      if field.Some? {
        return Some(structs[j]);
      }
      assert structs[j..][1..] == structs[j + 1..];
    }
    return None;
  }

  /** The copy of a program with every load's byte order exchanged. */
  method SwappedProgram(bytecode: array<Instruction>) returns (le: array<Instruction>)
    ensures fresh(le) && le[..] == SwapCode(bytecode[..])
  {
    le := new Instruction[bytecode.Length](i requires 0 <= i < bytecode.Length reads bytecode => bytecode[i]);
    for k := 0 to bytecode.Length
      invariant forall i :: 0 <= i < k ==> le[i] == SwapInstruction(bytecode[i])
      invariant forall i :: k <= i < bytecode.Length ==> le[i] == bytecode[i]
    {
      le[k] := le[k].(opcode := SwapEndianOpcode(le[k].opcode));
    }
  }

  method CompileRule(structs: seq<StructDef>, rule: TempRule) returns (r: Result<FilterRule, CompileError>)
    ensures r == CompiledRule(structs, rule)
  {
    hide CondsCode, FindTarget, FirstUnresolved, FirstEmptyList, SwapCode, TotalCondSize;
    var conds := rule.conditions;
    var target: Option<StructDef> := None;
    if |conds| > 0 {
      target := FindTargetStruct(structs, conds[0].fieldName);
    }
    if target.None? {
      return Err(StructNotFound(rule.name));
    }
    var s := target.value;
    var sizes, total, empty := MeasureConditions(rule.name, conds);
    if empty.Some? {
      return Err(empty.value);
    }
    EmptyListsReported(rule.name, conds);
    var bytecode := new Instruction[total](_ => Plain(LoadU8));
    var success, fail := total - 2, total - 1;
    var starts := LabelConditions(conds, sizes);
    var missing := EmitConditions(s, conds, starts, success, fail, bytecode);
    if missing.Some? {
      return Err(missing.value);
    }
    ghost var body := bytecode[..success];
    bytecode[success] := Plain(ReturnTrue);
    bytecode[fail] := Plain(ReturnFalse);
    assert bytecode[..] == body + [Plain(ReturnTrue), Plain(ReturnFalse)];
    var le := SwappedProgram(bytecode);
    r := Ok(FilterRule(rule.name, s.name, bytecode[..], le[..], s.minSize,
                       rule.slidingWindow, rule.slidingMaxOffset));
  }

  /** The outcome for all rules, given the filters compiled so far and the outcome for the rest. */
  function Prepended(filters: seq<FilterRule>, rest: Result<seq<FilterRule>, CompileError>)
    : Result<seq<FilterRule>, CompileError>
  {
    if rest.Err? then rest else Ok(filters + rest.value)
  }

  method CompileFilterRules(structs: seq<StructDef>, rules: seq<TempRule>)
    returns (r: Result<seq<FilterRule>, CompileError>)
    ensures r == CompiledRules(structs, rules)
  {
    hide CompiledRule;
    var filters := [];
    assert rules[0..] == rules;
    assert Prepended([], CompiledRules(structs, rules)) == CompiledRules(structs, rules) by {
      if CompiledRules(structs, rules).Ok? {
        assert [] + CompiledRules(structs, rules).value == CompiledRules(structs, rules).value;
      }
    }
    for i := 0 to |rules|
      invariant CompiledRules(structs, rules) == Prepended(filters, CompiledRules(structs, rules[i..]))
    {
      var left := rules[i..];
      assert left[0] == rules[i] && left[1..] == rules[i + 1..];
      var one := CompileRule(structs, rules[i]);
      if one.Err? {
        return Err(one.error);
      }
      ghost var rest := CompiledRules(structs, rules[i + 1..]);
      assert rest.Ok? ==> filters + ([one.value] + rest.value) == (filters + [one.value]) + rest.value;
      filters := filters + [one.value];
    }
    assert filters + [] == filters;
    return Ok(filters);
  }
}
