/** The compiled program of a rule decides exactly what the rule means. */
module CompilerCorrect {
  import opened Pdef
  import opened ByteOrder
  import opened Executor
  import opened Compiler
  import opened Meaning

  // ---------- Loads ----------

  /** The chosen load opcode reads the value of the field, and fails exactly when the field is cut off. */
  lemma {:induction false} LoadReadsField(packet: Packet, f: Field)
    ensures IsLoad(GetLoadOpcode(f))
    ensures LoadValue(packet, GetLoadOpcode(f), f.offset) == FieldValue(packet, f)
  {
    hide Number, Pow256, ReadU16BE, ReadU16LE, ReadU32BE, ReadU32LE, ReadU64BE, ReadU64LE;
    var w := Width(f.ftype);
    if f.offset + w <= |packet| {
      if w == 2 {
        Reads16(packet, f.offset);
      } else if w == 4 {
        Reads32(packet, f.offset);
      } else if w == 8 {
        Reads64(packet, f.offset);
      } else {
        ReadsByte(packet, f.offset, f.endian);
      }
      Pow256Values();
    }
  }

  lemma {:induction false} ReadsByte(packet: Packet, offset: nat, order: Endian)
    requires offset + 1 <= |packet|
    ensures Number(packet[offset..offset + 1], order) == packet[offset]
  {
    var b := packet[offset..offset + 1];
    assert Reversed(b) == b && Positional(b[..0]) == 0;
  }

  // ---------- Code placed inside a program ----------

  /** `part` occupies the program from instruction `idx`. */
  ghost predicate Embedded(code: seq<Instruction>, idx: nat, part: seq<Instruction>) {
    idx + |part| <= |code| && code[idx..idx + |part|] == part
  }

  lemma EmbeddedSplit(code: seq<Instruction>, idx: nat, a: seq<Instruction>, b: seq<Instruction>)
    requires Embedded(code, idx, a + b)
    ensures Embedded(code, idx, a) && Embedded(code, idx + |a|, b)
  {
    assert code[idx..idx + |a|] == (a + b)[..|a|];
    assert code[idx + |a|..idx + |a| + |b|] == (a + b)[|a|..];
  }

  lemma EmbeddedAt(code: seq<Instruction>, idx: nat, part: seq<Instruction>, k: nat)
    requires Embedded(code, idx, part) && k < |part|
    ensures code[idx + k] == part[k]
  {
    assert code[idx..idx + |part|][k] == part[k];
  }

  /** From instruction `ip` on, the program answers `answer` whatever the registers hold. */
  ghost predicate Answers(packet: Packet, code: seq<Instruction>, ip: nat, answer: bool)
    requires ForwardOnly(code)
  {
    forall acc: U64, cmp: bool :: Run(packet, code, Machine(ip, acc, cmp)) == answer
  }

  // ---------- Conditions ----------

  lemma EqualThenBranch(packet: Packet, code: seq<Instruction>, idx: nat, v: U64, target: nat, acc: U64, cmp: bool)
    requires ForwardOnly(code) && idx + 1 < |code| && target < |code|
    requires code[idx] == Compare(CmpEq, v, 0) && code[idx + 1] == JumpTo(JumpIfFalse, target)
    ensures Run(packet, code, Machine(idx, acc, cmp)) ==
            Run(packet, code, Machine(if acc == v then idx + 2 else target, acc, acc == v))
  {
    assert Run(packet, code, Machine(idx, acc, cmp)) == Run(packet, code, Machine(idx + 1, acc, acc == v));
  }

  lemma JumpRuns(packet: Packet, code: seq<Instruction>, idx: nat, target: nat, acc: U64, cmp: bool)
    requires ForwardOnly(code) && idx < |code| && target < |code|
    requires code[idx] == JumpTo(Jump, target)
    ensures Run(packet, code, Machine(idx, acc, cmp)) == Run(packet, code, Machine(target, acc, cmp))
  {
  }

  lemma {:induction false} InChainRuns(packet: Packet, code: seq<Instruction>, values: seq<U64>,
      idx: nat, next: nat, fail: nat, acc: U64, cmp: bool, rest: bool)
    requires ForwardOnly(code)
    requires values != [] && Embedded(code, idx, InChain(values, idx, next, fail))
    requires next == idx + 3 * |values| - 1 <= fail < |code|
    requires Answers(packet, code, next, rest) && Answers(packet, code, fail, false)
    ensures Run(packet, code, Machine(idx, acc, cmp)) == (acc in values && rest)
    decreases |values|
  {
    hide Run, ForwardOnly;
    var chain := InChain(values, idx, next, fail);
    EmbeddedAt(code, idx, chain, 0);
    EmbeddedAt(code, idx, chain, 1);
    var hit := acc == values[0];
    if |values| == 1 {
      EqualThenBranch(packet, code, idx, values[0], fail, acc, cmp);
    } else {
      EmbeddedAt(code, idx, chain, 2);
      EqualThenBranch(packet, code, idx, values[0], idx + 3, acc, cmp);
      if hit {
        JumpRuns(packet, code, idx + 2, next, acc, hit);
      } else {
        EmbeddedSplit(code, idx, chain[..3], InChain(values[1..], idx + 3, next, fail));
        InChainRuns(packet, code, values[1..], idx + 3, next, fail, acc, hit, rest);
        assert values == [values[0]] + values[1..];
      }
    }
  }

  lemma {:induction false} NotInChainRuns(packet: Packet, code: seq<Instruction>, values: seq<U64>,
      idx: nat, next: nat, fail: nat, acc: U64, cmp: bool, rest: bool)
    requires ForwardOnly(code)
    requires values != [] && Embedded(code, idx, NotInChain(values, idx, next, fail))
    requires next == idx + 3 * |values| <= fail < |code|
    requires Answers(packet, code, next, rest) && Answers(packet, code, fail, false)
    ensures Run(packet, code, Machine(idx, acc, cmp)) == (acc !in values && rest)
    decreases |values|
  {
    hide Run, ForwardOnly;
    var chain := NotInChain(values, idx, next, fail);
    EmbeddedAt(code, idx, chain, 0);
    EmbeddedAt(code, idx, chain, 1);
    EmbeddedAt(code, idx, chain, 2);
    var hit := acc == values[0];
    EqualThenBranch(packet, code, idx, values[0], if |values| > 1 then idx + 3 else next, acc, cmp);
    if hit {
      JumpRuns(packet, code, idx + 2, fail, acc, hit);
    } else if |values| > 1 {
      EmbeddedSplit(code, idx, chain[..3], NotInChain(values[1..], idx + 3, next, fail));
      NotInChainRuns(packet, code, values[1..], idx + 3, next, fail, acc, hit, rest);
      assert values == [values[0]] + values[1..];
    }
  }

  lemma SingleTestRuns(packet: Packet, code: seq<Instruction>, c: Condition,
      idx: nat, fail: nat, acc: U64, cmp: bool, rest: bool)
    requires ForwardOnly(code)
    requires !c.op.In? && !c.op.NotIn? && Embedded(code, idx, SingleTest(c, fail))
    requires idx + 2 <= fail < |code|
    requires Answers(packet, code, idx + 2, rest) && Answers(packet, code, fail, false)
    ensures Run(packet, code, Machine(idx, acc, cmp)) == (Satisfies(acc, c) && rest)
  {
    var test := SingleTest(c, fail);
    EmbeddedAt(code, idx, test, 0);
    EmbeddedAt(code, idx, test, 1);
    var hit := Satisfies(acc, c);
    assert Step(packet, code, Machine(idx, acc, cmp)) == Go(Machine(idx + 1, acc, hit));
    assert Run(packet, code, Machine(idx + 1, acc, hit)) ==
           Run(packet, code, Machine(if hit then idx + 2 else fail, acc, hit));
  }

  lemma LoadRuns(packet: Packet, code: seq<Instruction>, f: Field, idx: nat, acc: U64, cmp: bool)
    requires ForwardOnly(code) && idx < |code|
    requires code[idx] == Load(GetLoadOpcode(f), f.offset)
    ensures FieldValue(packet, f).None? ==> !Run(packet, code, Machine(idx, acc, cmp))
    ensures FieldValue(packet, f).Some? ==>
              FieldValue(packet, f).value < TWO_TO_64 &&
              Run(packet, code, Machine(idx, acc, cmp)) ==
              Run(packet, code, Machine(idx + 1, FieldValue(packet, f).value, cmp))
  {
    hide FieldValue, GetLoadOpcode, LoadValue;
    LoadReadsField(packet, f);
  }

  /** The code of a condition after its load. */
  lemma TestRuns(packet: Packet, code: seq<Instruction>, c: Condition, f: Field,
      start: nat, fail: nat, acc: U64, cmp: bool, rest: bool)
    requires ForwardOnly(code)
    requires (c.op.In? || c.op.NotIn?) ==> c.values != []
    requires Embedded(code, start + 1, CondCode(c, f, start, fail)[1..])
    requires start + CondSize(c) <= fail < |code|
    requires Answers(packet, code, start + CondSize(c), rest) && Answers(packet, code, fail, false)
    ensures Run(packet, code, Machine(start + 1, acc, cmp)) == (Satisfies(acc, c) && rest)
  {
    hide Run, ForwardOnly, Embedded, Answers;
    var next := start + CondSize(c);
    match c.op
    case In =>
      assert CondCode(c, f, start, fail)[1..] == InChain(c.values, start + 1, next, fail);
      InChainRuns(packet, code, c.values, start + 1, next, fail, acc, cmp, rest);
    case NotIn =>
      assert CondCode(c, f, start, fail)[1..] == NotInChain(c.values, start + 1, next, fail);
      NotInChainRuns(packet, code, c.values, start + 1, next, fail, acc, cmp, rest);
    case _ =>
      assert CondCode(c, f, start, fail)[1..] == SingleTest(c, fail);
      SingleTestRuns(packet, code, c, start + 1, fail, acc, cmp, rest);
  }

  /** The code of one condition continues with the next condition exactly when it holds. */
  lemma CondRuns(packet: Packet, code: seq<Instruction>, c: Condition, f: Field,
      start: nat, fail: nat, rest: bool)
    requires ForwardOnly(code)
    requires (c.op.In? || c.op.NotIn?) ==> c.values != []
    requires Embedded(code, start, CondCode(c, f, start, fail))
    requires start + CondSize(c) <= fail < |code|
    requires Answers(packet, code, start + CondSize(c), rest) && Answers(packet, code, fail, false)
    ensures Answers(packet, code, start,
                    FieldValue(packet, f).Some? && Satisfies(FieldValue(packet, f).value, c) && rest)
  {
    hide Run, ForwardOnly, FieldValue, Satisfies, GetLoadOpcode;
    var block := CondCode(c, f, start, fail);
    var next := start + CondSize(c);
    EmbeddedAt(code, start, block, 0);
    EmbeddedSplit(code, start, block[..1], block[1..]);
    assert block == block[..1] + block[1..];
    forall acc: U64, cmp: bool
      ensures Run(packet, code, Machine(start, acc, cmp)) ==
              (FieldValue(packet, f).Some? && Satisfies(FieldValue(packet, f).value, c) && rest)
    {
      LoadRuns(packet, code, f, start, acc, cmp);
      if FieldValue(packet, f).Some? {
        TestRuns(packet, code, c, f, start, fail, FieldValue(packet, f).value, cmp, rest);
      }
    }
  }

  // ---------- Rules ----------

  /** The code of a list of conditions reaches the success exit exactly when all of them hold. */
  lemma {:induction false} CondsRun(packet: Packet, code: seq<Instruction>, fields: seq<Field>,
      conds: seq<Condition>, start: nat, fail: nat)
    requires ForwardOnly(code)
    requires Resolved(fields, conds) && ListsNonEmpty(conds)
    requires Embedded(code, start, CondsCode(fields, conds, start, fail))
    requires start + TotalCondSize(conds) + 1 == fail < |code|
    requires Answers(packet, code, fail - 1, true) && Answers(packet, code, fail, false)
    ensures Answers(packet, code, start, RuleHolds(packet, fields, conds))
    decreases |conds|
  {
    hide CondCode, Run, ForwardOnly, FieldValue, Satisfies;
    if conds != [] {
      var c := conds[0];
      var f := FieldOf(fields, c);
      var next := start + CondSize(c);
      assert conds == [c] + conds[1..];
      CondCodeLength(c, f, start, fail);
      EmbeddedSplit(code, start, CondCode(c, f, start, fail), CondsCode(fields, conds[1..], next, fail));
      CondsRun(packet, code, fields, conds[1..], next, fail);
      var rest := RuleHolds(packet, fields, conds[1..]);
      CondRuns(packet, code, c, f, start, fail, rest);
      assert RuleHolds(packet, fields, conds) <==> CondHolds(packet, fields, c) && rest;
    }
  }

  // ---------- Jumps ----------

  /** Embedded at `idx`, the part jumps strictly forward and never past `limit`. */
  ghost predicate JumpsForward(part: seq<Instruction>, idx: nat, limit: nat) {
    forall k :: 0 <= k < |part| && IsJump(part[k].opcode) ==> idx + k < part[k].jumpTarget <= limit
  }

  lemma {:induction false} InChainForward(values: seq<U64>, idx: nat, next: nat, fail: nat)
    requires values != [] && next == idx + 3 * |values| - 1 <= fail
    ensures JumpsForward(InChain(values, idx, next, fail), idx, fail)
    decreases |values|
  {
    if |values| > 1 {
      InChainForward(values[1..], idx + 3, next, fail);
    }
  }

  lemma {:induction false} NotInChainForward(values: seq<U64>, idx: nat, next: nat, fail: nat)
    requires next == idx + 3 * |values| <= fail
    ensures JumpsForward(NotInChain(values, idx, next, fail), idx, fail)
    decreases |values|
  {
    if values != [] {
      NotInChainForward(values[1..], idx + 3, next, fail);
    }
  }

  lemma CondForward(c: Condition, f: Field, start: nat, fail: nat)
    requires (c.op.In? || c.op.NotIn?) ==> c.values != []
    requires start + CondSize(c) <= fail
    ensures JumpsForward(CondCode(c, f, start, fail), start, fail)
  {
    if c.op.In? {
      InChainForward(c.values, start + 1, start + CondSize(c), fail);
    } else if c.op.NotIn? {
      NotInChainForward(c.values, start + 1, start + CondSize(c), fail);
    }
  }

  lemma {:induction false} CondsForward(fields: seq<Field>, conds: seq<Condition>, start: nat, fail: nat)
    requires ListsNonEmpty(conds)
    requires start + TotalCondSize(conds) <= fail
    ensures JumpsForward(CondsCode(fields, conds, start, fail), start, fail)
    decreases |conds|
  {
    hide CondCode;
    if conds != [] {
      var f := FieldOf(fields, conds[0]);
      CondCodeLength(conds[0], f, start, fail);
      CondForward(conds[0], f, start, fail);
      CondsForward(fields, conds[1..], start + CondSize(conds[0]), fail);
    }
  }

  /** Every jump of a compiled rule goes strictly forward and stays inside the program. */
  lemma RuleCodeForward(fields: seq<Field>, conds: seq<Condition>)
    requires ListsNonEmpty(conds)
    ensures |RuleCode(fields, conds)| == TotalCondSize(conds) + 2
    ensures JumpsForward(RuleCode(fields, conds), 0, |RuleCode(fields, conds)| - 1)
    ensures ForwardOnly(RuleCode(fields, conds))
  {
    hide CondsCode;
    var fail := TotalCondSize(conds) + 1;
    CondsCodeLength(fields, conds, 0, fail);
    CondsForward(fields, conds, 0, fail);
  }

  lemma ExitsAnswer(packet: Packet, code: seq<Instruction>, fail: nat)
    requires ForwardOnly(code) && 0 < fail < |code|
    requires code[fail - 1] == Plain(ReturnTrue) && code[fail] == Plain(ReturnFalse)
    ensures Answers(packet, code, fail - 1, true) && Answers(packet, code, fail, false)
  {
  }

  /** Compiler correctness: the program of a rule answers true exactly when the rule holds of the packet,
      and it does so within as many steps as it has instructions. */
  lemma RuleCodeCorrect(packet: Packet, fields: seq<Field>, conds: seq<Condition>)
    requires Resolved(fields, conds) && ListsNonEmpty(conds)
    ensures ForwardOnly(RuleCode(fields, conds))
    ensures Verdict(packet, RuleCode(fields, conds)) <==> RuleHolds(packet, fields, conds)
    ensures RunFor(packet, RuleCode(fields, conds), START, |RuleCode(fields, conds)|) ==
            Some(RuleHolds(packet, fields, conds))
  {
    hide Run, ForwardOnly, RuleHolds, RunFor, CondsCode;
    var code := RuleCode(fields, conds);
    var fail := TotalCondSize(conds) + 1;
    RuleCodeForward(fields, conds);
    CondsCodeLength(fields, conds, 0, fail);
    ExitsAnswer(packet, code, fail);
    assert Embedded(code, 0, CondsCode(fields, conds, 0, fail));
    CondsRun(packet, code, fields, conds, 0, fail);
    HaltsWithinLength(packet, code, START, |code|);
  }
}
