/** From a definition to verdicts: building the protocol (the end of pdef_parse_string) and what its
    matcher decides in terms of the definition alone. */
module Protocol {
  import opened Pdef
  import opened Executor
  import opened Compiler
  import opened Meaning
  import opened Flatten
  import opened Mirror
  import opened Definition
  import opened Emitter
  import opened Matcher

  datatype BuildError = FlattenFailed(flattenError: FlattenError) | CompileFailed(compileError: CompileError)

  function Built(structs: seq<StructDef>, rules: seq<TempRule>): Result<seq<FilterRule>, BuildError> {
    match Flattened(structs)
    case Err(e) => Err(FlattenFailed(e))
    case Ok(flat) =>
      match CompiledRules(flat, rules)
      case Err(e) => Err(CompileFailed(e))
      case Ok(filters) => Ok(filters)
  }

  method Build(structs: seq<StructDef>, rules: seq<TempRule>) returns (r: Result<seq<FilterRule>, BuildError>)
    ensures r == Built(structs, rules)
  {
    var flattener := new Flattener(structs);
    var error := flattener.FlattenStructs();
    if error.Some? {
      return Err(FlattenFailed(error.value));
    }
    var filters := CompileFilterRules(flattener.structs, rules);
    match filters {
      case Err(e) => return Err(CompileFailed(e));
      case Ok(f) => return Ok(f);
    }
  }

  lemma {:induction false} CompiledEach(flat: seq<StructDef>, rules: seq<TempRule>)
    requires CompiledRules(flat, rules).Ok?
    ensures |CompiledRules(flat, rules).value| == |rules|
    ensures forall k :: 0 <= k < |rules| ==> CompiledRule(flat, rules[k]) == Ok(CompiledRules(flat, rules).value[k])
    decreases |rules|
  {
    hide CompiledRule;
    if rules != [] {
      CompiledEach(flat, rules[1..]);
      assert forall k :: 1 <= k < |rules| ==> rules[k] == rules[1..][k - 1];
    }
  }

  // ---------- The meaning of a definition ----------

  /** The struct a rule is about: the first with the field of the rule's first condition. */
  function TargetOf(flat: seq<StructDef>, rule: TempRule): Option<StructDef> {
    if rule.conditions == [] then None else FindTarget(flat, rule.conditions[0].fieldName)
  }

  /** The fields as the program labelled `order` reads them: codeBE in the orders they were parsed with, codeLE
      in the opposite ones. */
  function Labelled(fields: seq<Field>, order: Endian): seq<Field> {
    if order == Big then fields else SwapFields(fields)
  }

  /** A rule holds of a packet over some fields: its conditions hold at the start or, when it slides, at some
      offset inside the packet, below its limit if that is not zero, that leaves at least the size of its struct. */
  ghost predicate RuleAcceptsOver(fields: seq<Field>, minSize: nat, rule: TempRule, packet: Packet) {
    if rule.slidingWindow then
      exists o: nat :: o < |packet| && (rule.slidingMaxOffset == 0 || o < rule.slidingMaxOffset) &&
        |packet| - o >= minSize && RuleHolds(packet[o..], fields, rule.conditions)
    else RuleHolds(packet, fields, rule.conditions)
  }

  ghost predicate RuleAccepts(flat: seq<StructDef>, rule: TempRule, order: Endian, packet: Packet) {
    var target := TargetOf(flat, rule);
    target.Some? && RuleAcceptsOver(Labelled(target.value.fields, order), target.value.minSize, rule, packet)
  }

  ghost predicate DefinitionAccepts(structs: seq<StructDef>, rules: seq<TempRule>, order: Endian, packet: Packet)
    requires Flattened(structs).Ok?
  {
    exists k :: 0 <= k < |rules| && RuleAccepts(Flattened(structs).value, rules[k], order, packet)
  }

  lemma AcceptsMeans(flat: seq<StructDef>, rule: TempRule, r: FilterRule, order: Endian, packet: Packet)
    requires CompiledRule(flat, rule) == Ok(r)
    ensures Runnable(r) && TargetOf(flat, rule).Some? && r.minPacketSize == TargetOf(flat, rule).value.minSize
    ensures Accepts(order, packet, r) <==>
            RuleHolds(packet, Labelled(TargetOf(flat, rule).value.fields, order), rule.conditions)
  {
    hide RuleHolds, RuleCode, FirstEmptyList, FirstUnresolved, Verdict, ForwardOnly, FindTarget;
    CompiledRuleIff(flat, rule);
    BothProgramsCorrect(packet, TargetOf(flat, rule).value.fields, rule.conditions);
  }

  lemma RuleMatchesMeans(flat: seq<StructDef>, rule: TempRule, r: FilterRule, order: Endian, packet: Packet)
    requires CompiledRule(flat, rule) == Ok(r)
    ensures Runnable(r)
    ensures RuleMatches(order, packet, r) <==> RuleAccepts(flat, rule, order, packet)
  {
    hide RuleHolds, Accepts, Runnable, RuleCode, FirstEmptyList, FirstUnresolved, FindTarget, Labelled;
    forall p: Packet
      ensures Runnable(r) && (Accepts(order, p, r) <==>
              RuleHolds(p, Labelled(TargetOf(flat, rule).value.fields, order), rule.conditions))
    {
      AcceptsMeans(flat, rule, r, order, p);
    }
    AcceptsMeans(flat, rule, r, order, packet);
    assert r.slidingWindow == rule.slidingWindow && r.slidingMaxOffset == rule.slidingMaxOffset;
  }

  /** The compiled rules match in an order exactly when the definition accepts the packet in it. */
  lemma BuiltMatches(structs: seq<StructDef>, rules: seq<TempRule>, order: Endian, packet: Packet)
    requires Built(structs, rules).Ok?
    ensures AllRunnable(Built(structs, rules).value)
    ensures Matches(order, packet, Built(structs, rules).value) <==> DefinitionAccepts(structs, rules, order, packet)
  {
    hide Flattened, CompiledRule, RuleMatches, RuleAccepts, Runnable;
    var flat := Flattened(structs).value;
    var filters := Built(structs, rules).value;
    CompiledEach(flat, rules);
    forall k | 0 <= k < |rules|
      ensures Runnable(filters[k])
      ensures RuleMatches(order, packet, filters[k]) <==> RuleAccepts(flat, rules[k], order, packet)
    {
      RuleMatchesMeans(flat, rules[k], filters[k], order, packet);
    }
    assert AllRunnable(filters);
    if Matches(order, packet, filters) {
      var r :| r in filters && RuleMatches(order, packet, r);
      var k :| 0 <= k < |filters| && filters[k] == r;
      assert RuleAccepts(flat, rules[k], order, packet);
    }
    if DefinitionAccepts(structs, rules, order, packet) {
      var k :| 0 <= k < |rules| && RuleAccepts(flat, rules[k], order, packet);
      assert filters[k] in filters;
    }
  }

  /** End to end: with the byte order known, the matcher built from a definition accepts exactly the packets the
      definition describes, for every definition that can be built. */
  lemma MatcherMeaning(structs: seq<StructDef>, rules: seq<TempRule>, mode: EndianMode, detected: Detected,
      order: Endian, packet: Packet)
    requires Built(structs, rules).Ok? && Known(mode, detected) == Some(order)
    ensures AllRunnable(Built(structs, rules).value)
    ensures Match(mode, detected, packet, Built(structs, rules).value) ==
            (DefinitionAccepts(structs, rules, order, packet), detected)
  {
    hide Built, DefinitionAccepts, Matches, Match, Runnable;
    BuiltMatches(structs, rules, order, packet);
    MatchFixed(mode, detected, packet, Built(structs, rules).value, order);
  }

  /** While the byte order is unknown, exactly the packets are accepted that the definition describes in one of the
      two orders, and what is learned is an order in which it describes the packet. */
  lemma UnknownMeaning(structs: seq<StructDef>, rules: seq<TempRule>, packet: Packet) returns (order: Endian)
    requires Built(structs, rules).Ok?
    ensures AllRunnable(Built(structs, rules).value)
    ensures var (hit, learned) := Match(ModeAuto, Unknown, packet, Built(structs, rules).value);
      (hit <==> DefinitionAccepts(structs, rules, Big, packet) || DefinitionAccepts(structs, rules, Little, packet)) &&
      learned == (if hit then Learned(order) else Unknown) && (hit ==> DefinitionAccepts(structs, rules, order, packet))
  {
    hide Built, DefinitionAccepts, Matches, Match, Runnable, FirstAccepted, Attempts, Accepts;
    var filters := Built(structs, rules).value;
    BuiltMatches(structs, rules, Big, packet);
    BuiltMatches(structs, rules, Little, packet);
    MatchUnknown(packet, filters);
    order := if Match(ModeAuto, Unknown, packet, filters).1 == DetectedBig then Big else Little;
  }

  // ---------- Definitions whose structs were parsed under one default ----------

  /** The same over fields that are all read in one byte order. */
  ghost predicate DefinitionHolds(structs: seq<StructDef>, rules: seq<TempRule>, order: Endian, packet: Packet)
    requires Flattened(structs).Ok?
  {
    exists k :: 0 <= k < |rules| && RuleHoldsIn(Flattened(structs).value, rules[k], order, packet)
  }

  ghost predicate RuleHoldsIn(flat: seq<StructDef>, rule: TempRule, order: Endian, packet: Packet) {
    var target := TargetOf(flat, rule);
    target.Some? && RuleAcceptsOver(WithOrder(target.value.fields, order), target.value.minSize, rule, packet)
  }

  /** The order in which the program for `order` reads, when `parsed` was the default while the structs were parsed. */
  function Reads(parsed: Endian, order: Endian): Endian { if parsed == Big then order else Other(order) }

  /** When all structs were parsed under the default big, the matcher reads in the order it was told; under the
      default little it reads in the other one. */
  lemma UniformMeaning(structs: seq<StructDef>, rules: seq<TempRule>, parsed: Endian, order: Endian, packet: Packet)
    requires AllInOrder(structs, parsed) && Flattened(structs).Ok?
    ensures DefinitionAccepts(structs, rules, order, packet) <==>
            DefinitionHolds(structs, rules, Reads(parsed, order), packet)
  {
    hide FlattenedFrom, RuleAcceptsOver, FindTarget;
    var flat := Flattened(structs).value;
    FlattenedFromOrder(structs, 0, parsed);
    forall k | 0 <= k < |rules|
      ensures RuleAccepts(flat, rules[k], order, packet) <==> RuleHoldsIn(flat, rules[k], Reads(parsed, order), packet)
    {
      var target := TargetOf(flat, rules[k]);
      if target.Some? {
        var i := TargetIsFirst(flat, rules[k].conditions[0].fieldName);
        assert flat[i] in flat;
        OrdersOf(target.value.fields, parsed);
      }
    }
  }
}
