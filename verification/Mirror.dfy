/** The two programs of a rule: one is the other with the byte order of every load exchanged, and running
    it is the same as mirroring the packet. */
module Mirror {
  import opened Pdef
  import opened ByteOrder
  import opened Executor
  import opened Compiler
  import opened Meaning
  import opened CompilerCorrect

  function Other(e: Endian): Endian { if e == Big then Little else Big }

  function SwapField(f: Field): Field { f.(endian := Other(f.endian)) }

  /** The fields read in the other byte order. */
  function SwapFields(fields: seq<Field>): seq<Field> {
    if fields == [] then [] else [SwapField(fields[0])] + SwapFields(fields[1..])
  }

  // ---------- Swapping opcodes is compiling for the other byte order ----------

  /** Swapping is an involution that touches nothing but the byte order of loads. */
  lemma SwapTwice(code: seq<Instruction>)
    ensures SwapCode(SwapCode(code)) == code
    ensures forall i :: 0 <= i < |code| ==>
              SwapCode(code)[i].(opcode := code[i].opcode) == code[i] &&
              (!IsLoad(code[i].opcode) ==> SwapCode(code)[i] == code[i])
    ensures ForwardOnly(code) <==> ForwardOnly(SwapCode(code))
  {
    var twice := SwapCode(SwapCode(code));
    assert forall i :: 0 <= i < |code| ==> twice[i] == code[i];
  }

  lemma SwapConcat(a: seq<Instruction>, b: seq<Instruction>)
    ensures SwapCode(a + b) == SwapCode(a) + SwapCode(b)
  {
  }

  lemma SwapKeepsTests(code: seq<Instruction>)
    requires forall i :: 0 <= i < |code| ==> !IsLoad(code[i].opcode)
    ensures SwapCode(code) == code
  {
  }

  lemma {:induction false} InChainHasNoLoads(values: seq<U64>, idx: nat, next: nat, fail: nat)
    ensures forall i :: 0 <= i < |InChain(values, idx, next, fail)| ==> !IsLoad(InChain(values, idx, next, fail)[i].opcode)
    decreases |values|
  {
    if |values| > 1 {
      InChainHasNoLoads(values[1..], idx + 3, next, fail);
    }
  }

  lemma {:induction false} NotInChainHasNoLoads(values: seq<U64>, idx: nat, next: nat, fail: nat)
    ensures forall i :: 0 <= i < |NotInChain(values, idx, next, fail)| ==> !IsLoad(NotInChain(values, idx, next, fail)[i].opcode)
    decreases |values|
  {
    if values != [] {
      NotInChainHasNoLoads(values[1..], idx + 3, next, fail);
    }
  }

  lemma SwapAfterLoad(f: Field, tests: seq<Instruction>)
    requires forall i :: 0 <= i < |tests| ==> !IsLoad(tests[i].opcode)
    ensures SwapCode([Load(GetLoadOpcode(f), f.offset)] + tests) ==
            [Load(GetLoadOpcode(SwapField(f)), f.offset)] + tests
  {
  }

  lemma SwapCondCode(c: Condition, f: Field, start: nat, fail: nat)
    ensures SwapCode(CondCode(c, f, start, fail)) == CondCode(c, SwapField(f), start, fail)
  {
    hide SwapCode, InChain, NotInChain, GetLoadOpcode;
    var next := start + CondSize(c);
    match c.op {
      case In =>
        InChainHasNoLoads(c.values, start + 1, next, fail);
        SwapAfterLoad(f, InChain(c.values, start + 1, next, fail));
      case NotIn =>
        NotInChainHasNoLoads(c.values, start + 1, next, fail);
        SwapAfterLoad(f, NotInChain(c.values, start + 1, next, fail));
      case _ =>
        SwapAfterLoad(f, SingleTest(c, fail));
    }
  }

  lemma {:induction false} FindSwapped(fields: seq<Field>, path: string)
    ensures FindField(SwapFields(fields), path) ==
            if FindField(fields, path).None? then None else Some(SwapField(FindField(fields, path).value))
  {
    if fields != [] {
      FindSwapped(fields[1..], path);
    }
  }

  lemma {:induction false} SwapCondsCode(fields: seq<Field>, conds: seq<Condition>, start: nat, fail: nat)
    requires Resolved(fields, conds)
    ensures SwapCode(CondsCode(fields, conds, start, fail)) == CondsCode(SwapFields(fields), conds, start, fail)
    decreases |conds|
  {
    hide CondCode;
    if conds != [] {
      var c := conds[0];
      var next := start + CondSize(c);
      FindSwapped(fields, c.fieldName);
      SwapCondCode(c, FieldOf(fields, c), start, fail);
      SwapCondsCode(fields, conds[1..], next, fail);
      SwapConcat(CondCode(c, FieldOf(fields, c), start, fail), CondsCode(fields, conds[1..], next, fail));
    }
  }

  /** The little-endian program is the compilation of the rule over the swapped fields. */
  lemma SwapRuleCode(fields: seq<Field>, conds: seq<Condition>)
    requires Resolved(fields, conds)
    ensures SwapCode(RuleCode(fields, conds)) == RuleCode(SwapFields(fields), conds)
    ensures Resolved(SwapFields(fields), conds)
  {
    hide CondsCode;
    var fail := TotalCondSize(conds) + 1;
    var exits := [Plain(ReturnTrue), Plain(ReturnFalse)];
    SwapCondsCode(fields, conds, 0, fail);
    SwapConcat(CondsCode(fields, conds, 0, fail), exits);
    SwapKeepsTests(exits);
    forall c | c in conds
      ensures FindField(SwapFields(fields), c.fieldName).Some?
    {
      FindSwapped(fields, c.fieldName);
    }
  }

  /** What both programs of a rule decide: the rule read as the fields say, and read in the other order. */
  lemma BothProgramsCorrect(packet: Packet, fields: seq<Field>, conds: seq<Condition>)
    requires Resolved(fields, conds) && ListsNonEmpty(conds)
    ensures var be, le := RuleCode(fields, conds), SwapCode(RuleCode(fields, conds));
      ForwardOnly(be) && ForwardOnly(le) &&
      (Verdict(packet, be) <==> RuleHolds(packet, fields, conds)) &&
      (Verdict(packet, le) <==> RuleHolds(packet, SwapFields(fields), conds))
  {
    SwapRuleCode(fields, conds);
    RuleCodeCorrect(packet, fields, conds);
    RuleCodeCorrect(packet, SwapFields(fields), conds);
  }

  // ---------- Mirroring packets ----------

  /** The packet with the bytes of one multi-byte integer field reversed, if the packet holds all of them. */
  function MirrorField(packet: Packet, f: Field): (r: Packet)
    ensures |r| == |packet|
  {
    var w := Width(f.ftype);
    if MultiByte(f.ftype) && f.offset + w <= |packet| then
      packet[..f.offset] + Reversed(packet[f.offset..f.offset + w]) + packet[f.offset + w..]
    else packet
  }

  /** The packet with the bytes of every multi-byte integer field reversed. */
  function MirrorPacket(packet: Packet, fields: seq<Field>): (r: Packet)
    ensures |r| == |packet|
    decreases |fields|
  {
    if fields == [] then packet else MirrorPacket(MirrorField(packet, fields[0]), fields[1..])
  }

  /** A comparison of the field does not look at any byte of multi-byte field g. */
  predicate Apart(f: Field, g: Field) {
    f.offset + Width(f.ftype) <= g.offset || g.offset + Width(g.ftype) <= f.offset
  }

  /** What a comparison of field k looks at shares no byte with the other multi-byte fields. */
  ghost predicate Isolated(fields: seq<Field>, k: nat)
    requires k < |fields|
  {
    forall j :: 0 <= j < |fields| && j != k && MultiByte(fields[j].ftype) ==> Apart(fields[k], fields[j])
  }

  lemma MirrorElsewhere(packet: Packet, f: Field, g: Field)
    requires MultiByte(g.ftype) ==> Apart(f, g)
    requires f.offset + Width(f.ftype) <= |packet|
    ensures MirrorField(packet, g)[f.offset..f.offset + Width(f.ftype)] == packet[f.offset..f.offset + Width(f.ftype)]
  {
    var m := MirrorField(packet, g);
    assert forall p :: f.offset <= p < f.offset + Width(f.ftype) ==> m[p] == packet[p];
  }

  lemma {:induction false} MirrorAway(packet: Packet, fields: seq<Field>, f: Field)
    requires forall j :: 0 <= j < |fields| && MultiByte(fields[j].ftype) ==> Apart(f, fields[j])
    requires f.offset + Width(f.ftype) <= |packet|
    ensures MirrorPacket(packet, fields)[f.offset..f.offset + Width(f.ftype)] ==
            packet[f.offset..f.offset + Width(f.ftype)]
    decreases |fields|
  {
    hide Apart, MirrorField;
    if fields != [] {
      MirrorElsewhere(packet, f, fields[0]);
      MirrorAway(MirrorField(packet, fields[0]), fields[1..], f);
    }
  }

  lemma {:induction false} MirrorReverses(packet: Packet, fields: seq<Field>, k: nat)
    requires k < |fields| && Isolated(fields, k)
    requires fields[k].offset + Width(fields[k].ftype) <= |packet|
    ensures var o, w := fields[k].offset, Width(fields[k].ftype);
      MirrorPacket(packet, fields)[o..o + w] ==
        if w > 1 then Reversed(packet[o..o + w]) else packet[o..o + w]
    decreases |fields|
  {
    hide Apart, MirrorField;
    var f, first, rest := fields[k], fields[0], fields[1..];
    var next := MirrorField(packet, first);
    if k == 0 {
      forall j | 0 <= j < |rest| && MultiByte(rest[j].ftype)
        ensures Apart(f, rest[j])
      {
        assert fields[j + 1] == rest[j];
      }
      MirrorAway(next, rest, f);
      MirrorOwn(packet, f);
    } else {
      assert rest[k - 1] == f;
      forall j | 0 <= j < |rest| && j != k - 1 && MultiByte(rest[j].ftype)
        ensures Apart(rest[k - 1], rest[j])
      {
        assert fields[j + 1] == rest[j];
      }
      MirrorElsewhere(packet, f, first);
      MirrorReverses(next, rest, k - 1);
    }
  }

  lemma MirrorOwn(packet: Packet, f: Field)
    requires f.offset + Width(f.ftype) <= |packet|
    ensures var o, w := f.offset, Width(f.ftype);
      MirrorField(packet, f)[o..o + w] == if w > 1 then Reversed(packet[o..o + w]) else packet[o..o + w]
  {
  }

  lemma {:induction false} NumberOfReversed(bytes: Packet, order: Endian)
    ensures Number(Reversed(bytes), order) == Number(bytes, Other(order))
  {
    ReversedTwice(bytes);
  }

  lemma {:induction false} NumberOfByte(bytes: Packet, order: Endian)
    requires |bytes| == 1
    ensures Number(bytes, order) == Number(bytes, Other(order))
  {
    assert Reversed(bytes) == bytes;
  }

  /** A field reads the same in the mirrored packet as it reads in the other byte order in the packet. */
  lemma MirrorValue(packet: Packet, fields: seq<Field>, k: nat)
    requires k < |fields| && Isolated(fields, k)
    ensures FieldValue(MirrorPacket(packet, fields), fields[k]) == FieldValue(packet, SwapField(fields[k]))
  {
    hide Number, MirrorPacket, Widened, Isolated, Reversed;
    var f := fields[k];
    var o, w := f.offset, Width(f.ftype);
    if o + w <= |packet| {
      MirrorReverses(packet, fields, k);
      var bytes := packet[o..o + w];
      if w > 1 {
        NumberOfReversed(bytes, f.endian);
      } else {
        NumberOfByte(bytes, f.endian);
      }
    }
  }

  /** The index of the field a path names. */
  function FieldIndex(fields: seq<Field>, path: string): (k: nat)
    ensures k < |fields| <==> FindField(fields, path).Some?
    ensures k < |fields| ==> FindField(fields, path) == Some(fields[k])
    ensures k <= |fields|
  {
    if fields == [] || fields[0].name == path then 0 else 1 + FieldIndex(fields[1..], path)
  }

  /** Every field a condition compares is isolated from the other multi-byte fields. */
  ghost predicate ComparesIsolated(fields: seq<Field>, conds: seq<Condition>)
    requires Resolved(fields, conds)
  {
    forall c :: c in conds ==> Isolated(fields, FieldIndex(fields, c.fieldName))
  }

  lemma MirrorRule(packet: Packet, fields: seq<Field>, conds: seq<Condition>)
    requires Resolved(fields, conds) && ComparesIsolated(fields, conds)
    ensures RuleHolds(MirrorPacket(packet, fields), fields, conds) <==> RuleHolds(packet, SwapFields(fields), conds)
  {
    hide FieldValue, Satisfies, MirrorPacket, Isolated;
    forall c | c in conds
      ensures CondHolds(MirrorPacket(packet, fields), fields, c) <==> CondHolds(packet, SwapFields(fields), c)
    {
      FindSwapped(fields, c.fieldName);
      MirrorValue(packet, fields, FieldIndex(fields, c.fieldName));
    }
  }

  /** The byte-order mirror: the little-endian program accepts a packet exactly when the big-endian program
      accepts the packet with the bytes of every multi-byte integer field reversed. */
  lemma MirrorTheorem(packet: Packet, fields: seq<Field>, conds: seq<Condition>)
    requires Resolved(fields, conds) && ListsNonEmpty(conds) && ComparesIsolated(fields, conds)
    ensures var be, le := RuleCode(fields, conds), SwapCode(RuleCode(fields, conds));
      ForwardOnly(be) && ForwardOnly(le) &&
      (Verdict(packet, le) <==> Verdict(MirrorPacket(packet, fields), be))
  {
    BothProgramsCorrect(packet, fields, conds);
    BothProgramsCorrect(MirrorPacket(packet, fields), fields, conds);
    MirrorRule(packet, fields, conds);
  }
}
