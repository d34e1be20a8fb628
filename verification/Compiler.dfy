/** Compiling filter rules to bytecode (pdef/parser.c, compile_filter_rules). */
module Compiler {
  import opened Pdef

  datatype CompileError =
    | StructNotFound(filter: string)
    | EmptyInList(filter: string)
    | EmptyNotInList(filter: string)
    | FieldNotFound(field: string, structName: string)

  // ---------- Choosing opcodes ----------

  function GetLoadOpcode(f: Field): OpCode {
    match f.ftype
    case Uint8 => LoadU8
    case Uint16 => if f.endian == Big then LoadU16BE else LoadU16LE
    case Uint32 => if f.endian == Big then LoadU32BE else LoadU32LE
    case Uint64 => if f.endian == Big then LoadU64BE else LoadU64LE
    case Int8 => LoadI8
    case Int16 => if f.endian == Big then LoadI16BE else LoadI16LE
    case Int32 => if f.endian == Big then LoadI32BE else LoadI32LE
    case Int64 => if f.endian == Big then LoadI64BE else LoadI64LE
    case _ => LoadU8
  }

  function SwapEndianOpcode(op: OpCode): OpCode {
    match op
    case LoadU16BE => LoadU16LE
    case LoadU16LE => LoadU16BE
    case LoadU32BE => LoadU32LE
    case LoadU32LE => LoadU32BE
    case LoadU64BE => LoadU64LE
    case LoadU64LE => LoadU64BE
    case LoadI16BE => LoadI16LE
    case LoadI16LE => LoadI16BE
    case LoadI32BE => LoadI32LE
    case LoadI32LE => LoadI32BE
    case LoadI64BE => LoadI64LE
    case LoadI64LE => LoadI64BE
    case _ => op
  }

  function GetCmpOpcode(op: CondOp): OpCode {
    match op
    case Eq => CmpEq
    case Ne => CmpNe
    case Gt => CmpGt
    case Ge => CmpGe
    case Lt => CmpLt
    case Le => CmpLe
    case Mask => CmpMask
    case _ => CmpEq
  }

  // ---------- Looking up fields and structs: the first match wins ----------

  function FindField(fields: seq<Field>, path: string): Option<Field> {
    if fields == [] then None
    else if fields[0].name == path then Some(fields[0])
    else FindField(fields[1..], path)
  }

  /** The first struct that has the field. */
  function FindTarget(structs: seq<StructDef>, path: string): Option<StructDef> {
    if structs == [] then None
    else if FindField(structs[0].fields, path).Some? then Some(structs[0])
    else FindTarget(structs[1..], path)
  }

  method FindFieldByPath(s: StructDef, path: string) returns (r: Option<Field>)
    ensures r == FindField(s.fields, path)
  {
    for i := 0 to |s.fields|
      invariant FindField(s.fields, path) == FindField(s.fields[i..], path)
    {
      if s.fields[i].name == path {
        return Some(s.fields[i]);
      }
      assert s.fields[i..][1..] == s.fields[i + 1..];
    }
    return None;
  }

  // ---------- The code of one condition ----------

  /** How many instructions a condition takes. */
  function CondSize(c: Condition): nat {
    match c.op
    case In => 3 * |c.values|
    case NotIn => 1 + 3 * |c.values|
    case _ => 3
  }

  /** Any match jumps to `next`; the last mismatch jumps to `fail`. */
  function InChain(values: seq<U64>, idx: nat, next: nat, fail: nat): seq<Instruction> {
    if values == [] then []
    else if |values| == 1 then [Compare(CmpEq, values[0], 0), JumpTo(JumpIfFalse, fail)]
    else [Compare(CmpEq, values[0], 0), JumpTo(JumpIfFalse, idx + 3), JumpTo(Jump, next)] +
         InChain(values[1..], idx + 3, next, fail)
  }

  /** Any match jumps to `fail`; the last mismatch jumps to `next`. */
  function NotInChain(values: seq<U64>, idx: nat, next: nat, fail: nat): seq<Instruction> {
    if values == [] then []
    else [Compare(CmpEq, values[0], 0),
          JumpTo(JumpIfFalse, if |values| > 1 then idx + 3 else next),
          JumpTo(Jump, fail)] +
         NotInChain(values[1..], idx + 3, next, fail)
  }

  function SingleTest(c: Condition, fail: nat): seq<Instruction> {
    [if c.op == Mask then Compare(CmpMask, c.mask, c.value) else Compare(GetCmpOpcode(c.op), c.value, 0),
     JumpTo(JumpIfFalse, fail)]
  }

  /** The code of a condition that starts at instruction `start`. */
  function CondCode(c: Condition, f: Field, start: nat, fail: nat): seq<Instruction> {
    var next := start + CondSize(c);
    [Load(GetLoadOpcode(f), f.offset)] +
    match c.op
    case In => InChain(c.values, start + 1, next, fail)
    case NotIn => NotInChain(c.values, start + 1, next, fail)
    case _ => SingleTest(c, fail)
  }

  // ---------- The code of a rule ----------

  function TotalCondSize(conds: seq<Condition>): nat {
    if conds == [] then 0 else CondSize(conds[0]) + TotalCondSize(conds[1..])
  }

  /** Every condition names a field of the struct. */
  ghost predicate Resolved(fields: seq<Field>, conds: seq<Condition>) {
    forall c :: c in conds ==> FindField(fields, c.fieldName).Some?
  }

  ghost predicate ListsNonEmpty(conds: seq<Condition>) {
    forall c :: c in conds && (c.op.In? || c.op.NotIn?) ==> c.values != []
  }

  /** The field a condition names; the zeroed field when there is none. */
  function FieldOf(fields: seq<Field>, c: Condition): Field {
    var f := FindField(fields, c.fieldName);
    if f.Some? then f.value else Field("", Uint8, 0, 0, Big, false, false, 0)
  }

  function CondsCode(fields: seq<Field>, conds: seq<Condition>, start: nat, fail: nat): seq<Instruction> {
    if conds == [] then []
    else
      CondCode(conds[0], FieldOf(fields, conds[0]), start, fail) +
      CondsCode(fields, conds[1..], start + CondSize(conds[0]), fail)
  }

  /** The whole program: the conditions, then the success and the failure exits. */
  function RuleCode(fields: seq<Field>, conds: seq<Condition>): seq<Instruction> {
    CondsCode(fields, conds, 0, TotalCondSize(conds) + 1) + [Plain(ReturnTrue), Plain(ReturnFalse)]
  }

  function SwapInstruction(ins: Instruction): Instruction {
    ins.(opcode := SwapEndianOpcode(ins.opcode))
  }

  /** The same program with every multi-byte load reading the other byte order. */
  function SwapCode(code: seq<Instruction>): (r: seq<Instruction>)
    ensures |r| == |code|
    ensures forall i :: 0 <= i < |r| ==> r[i] == SwapInstruction(code[i])
  {
    seq(|code|, i requires 0 <= i < |code| => SwapInstruction(code[i]))
  }

  function FirstEmptyList(filter: string, conds: seq<Condition>): Option<CompileError> {
    if conds == [] then None
    else if conds[0].op.In? && conds[0].values == [] then Some(EmptyInList(filter))
    else if conds[0].op.NotIn? && conds[0].values == [] then Some(EmptyNotInList(filter))
    else FirstEmptyList(filter, conds[1..])
  }

  function FirstUnresolved(s: StructDef, conds: seq<Condition>): (r: Option<CompileError>)
    ensures r.None? <==> Resolved(s.fields, conds)
  {
    if conds == [] then None
    else if FindField(s.fields, conds[0].fieldName).None? then Some(FieldNotFound(conds[0].fieldName, s.name))
    else
      var r := FirstUnresolved(s, conds[1..]);
      assert conds == [conds[0]] + conds[1..];
      r
  }

  function CompiledRule(structs: seq<StructDef>, rule: TempRule): Result<FilterRule, CompileError> {
    var target := if rule.conditions == [] then None else FindTarget(structs, rule.conditions[0].fieldName);
    if target.None? then Err(StructNotFound(rule.name)) else
    var s := target.value;
    var empty := FirstEmptyList(rule.name, rule.conditions);
    if empty.Some? then Err(empty.value) else
    var missing := FirstUnresolved(s, rule.conditions);
    if missing.Some? then Err(missing.value) else
    var code := RuleCode(s.fields, rule.conditions);
    Ok(FilterRule(rule.name, s.name, code, SwapCode(code), s.minSize,
                  rule.slidingWindow, rule.slidingMaxOffset))
  }

  function CompiledRules(structs: seq<StructDef>, rules: seq<TempRule>): Result<seq<FilterRule>, CompileError> {
    if rules == [] then Ok([]) else
    var first := CompiledRule(structs, rules[0]);
    if first.Err? then Err(first.error) else
    var rest := CompiledRules(structs, rules[1..]);
    if rest.Err? then Err(rest.error) else Ok([first.value] + rest.value)
  }

  lemma {:induction false} InChainLength(values: seq<U64>, idx: nat, next: nat, fail: nat)
    requires values != []
    ensures |InChain(values, idx, next, fail)| == 3 * |values| - 1
  {
    if |values| > 1 {
      InChainLength(values[1..], idx + 3, next, fail);
    }
  }

  lemma {:induction false} NotInChainLength(values: seq<U64>, idx: nat, next: nat, fail: nat)
    ensures |NotInChain(values, idx, next, fail)| == 3 * |values|
  {
    if values != [] {
      NotInChainLength(values[1..], idx + 3, next, fail);
    }
  }

  lemma CondCodeLength(c: Condition, f: Field, start: nat, fail: nat)
    requires (c.op.In? || c.op.NotIn?) ==> c.values != []
    ensures |CondCode(c, f, start, fail)| == CondSize(c)
  {
    var next := start + CondSize(c);
    if c.op.In? {
      InChainLength(c.values, start + 1, next, fail);
    } else if c.op.NotIn? {
      NotInChainLength(c.values, start + 1, next, fail);
    }
  }

  /** The labels computed from the sizes are the places where the code ends up. */
  lemma {:induction false} CondsCodeLength(fields: seq<Field>, conds: seq<Condition>, start: nat, fail: nat)
    requires ListsNonEmpty(conds)
    ensures |CondsCode(fields, conds, start, fail)| == TotalCondSize(conds)
  {
    hide CondCode;
    if conds != [] {
      CondCodeLength(conds[0], FieldOf(fields, conds[0]), start, fail);
      CondsCodeLength(fields, conds[1..], start + CondSize(conds[0]), fail);
    }
  }

  lemma {:induction false} EmptyListsReported(filter: string, conds: seq<Condition>)
    ensures FirstEmptyList(filter, conds).None? <==> ListsNonEmpty(conds)
  {
    if conds != [] {
      EmptyListsReported(filter, conds[1..]);
      assert conds == [conds[0]] + conds[1..];
    }
  }
}
