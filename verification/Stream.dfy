/** Filtering the packets of a capture file (rxfilterthread.cpp, the packet loop of handle_raw_file). */
module Stream {
  import opened Pdef
  import opened Matcher
  import opened Protocol
  import PdefString
  import Flatten

  /** A captured packet with the outcome of parsing its headers. */
  datatype Parsed = Parsed(id: nat, valid: bool, appData: Packet)

  predicate Eligible(p: Parsed) { p.valid && p.appData != [] }

  // ---------- What the loop computes ----------

  ghost function FilterAll(mode: EndianMode, detected: Detected, packets: seq<Parsed>, rules: seq<FilterRule>)
    : (seq<Parsed>, Detected)
    requires AllRunnable(rules)
    decreases |packets|
  {
    if packets == [] then ([], detected)
    else if !Eligible(packets[0]) then FilterAll(mode, detected, packets[1..], rules)
    else
      var (hit, learned) := Match(mode, detected, packets[0].appData, rules);
      var rest := FilterAll(mode, learned, packets[1..], rules);
      if hit then ([packets[0]] + rest.0, rest.1) else rest
  }

  /** The packets a fixed byte order keeps: of those that are valid and have application data. */
  ghost function Kept(order: Endian, packets: seq<Parsed>, rules: seq<FilterRule>): seq<Parsed>
    requires AllRunnable(rules)
  {
    if packets == [] then []
    else if packets[0].valid && packets[0].appData != [] && Matches(order, packets[0].appData, rules) then
      [packets[0]] + Kept(order, packets[1..], rules)
    else Kept(order, packets[1..], rules)
  }

  // ---------- Auto-detection amounts to one fixed byte order ----------

  lemma {:induction false} FixedKeeps(mode: EndianMode, detected: Detected, packets: seq<Parsed>,
      rules: seq<FilterRule>, order: Endian)
    requires AllRunnable(rules) && Known(mode, detected) == Some(order)
    ensures FilterAll(mode, detected, packets, rules) == (Kept(order, packets, rules), detected)
    decreases |packets|
  {
    hide Match, Matches;
    if packets != [] {
      MatchFixed(mode, detected, packets[0].appData, rules, order);
      FixedKeeps(mode, detected, packets[1..], rules, order);
    }
  }

  /** Detecting the byte order on the way keeps exactly the packets that one fixed byte order keeps of the
      whole file.  The cell ends with that order, or is still unknown when nothing was kept. */
  lemma {:induction false} AutoIsFixed(packets: seq<Parsed>, rules: seq<FilterRule>) returns (order: Endian)
    requires AllRunnable(rules)
    ensures var (kept, detected) := FilterAll(ModeAuto, Unknown, packets, rules);
      kept == Kept(order, packets, rules) &&
      detected == if kept == [] then Unknown else Learned(order)
    decreases |packets|
  {
    hide Match, Matches;
    order := Big;
    if packets != [] {
      var p, rest := packets[0], packets[1..];
      MatchUnknown(p.appData, rules);
      var (hit, learned) := Match(ModeAuto, Unknown, p.appData, rules);
      if Eligible(p) && hit {
        order := if learned == DetectedBig then Big else Little;
        FixedKeeps(ModeAuto, learned, rest, rules, order);
      } else {
        order := AutoIsFixed(rest, rules);
        assert order == Big || order == Little;
      }
    }
  }

  /** The cell moves at most once along a file: split anywhere, it changes in at most one of the parts. */
  lemma {:induction false} DetectionMovesOnce(mode: EndianMode, detected: Detected, a: seq<Parsed>, b: seq<Parsed>,
      rules: seq<FilterRule>)
    requires AllRunnable(rules)
    ensures var (keptA, midway) := FilterAll(mode, detected, a, rules);
      var (keptB, final) := FilterAll(mode, midway, b, rules);
      FilterAll(mode, detected, a + b, rules) == (keptA + keptB, final) &&
      (detected != Unknown ==> midway == detected) && (midway != Unknown ==> final == midway) &&
      (midway != detected ==> keptA != [])
    decreases |a|
  {
    hide Match, Matches;
    if a == [] {
      assert a + b == b;
      assert [] + FilterAll(mode, detected, b, rules).0 == FilterAll(mode, detected, b, rules).0;
      CellKept(mode, detected, b, rules);
    } else {
      var (hit, learned) := Match(mode, detected, a[0].appData, rules);
      CellOfMatch(mode, detected, a[0].appData, rules);
      assert (a + b)[1..] == a[1..] + b;
      var next := if Eligible(a[0]) then learned else detected;
      DetectionMovesOnce(mode, next, a[1..], b, rules);
      var keptA := FilterAll(mode, next, a[1..], rules).0;
      var keptB := FilterAll(mode, FilterAll(mode, next, a[1..], rules).1, b, rules).0;
      assert [a[0]] + (keptA + keptB) == ([a[0]] + keptA) + keptB;
    }
  }

  lemma CellOfMatch(mode: EndianMode, detected: Detected, packet: Packet, rules: seq<FilterRule>)
    requires AllRunnable(rules)
    ensures var (hit, learned) := Match(mode, detected, packet, rules);
      (detected != Unknown || !hit ==> learned == detected)
  {
    hide Match, Matches;
    match Known(mode, detected)
    case Some(order) => MatchFixed(mode, detected, packet, rules, order);
    case None => MatchUnknown(packet, rules);
  }

  lemma {:induction false} CellKept(mode: EndianMode, detected: Detected, packets: seq<Parsed>, rules: seq<FilterRule>)
    requires AllRunnable(rules)
    ensures detected != Unknown ==> FilterAll(mode, detected, packets, rules).1 == detected
    decreases |packets|
  {
    hide Match;
    if packets != [] {
      var (hit, learned) := Match(mode, detected, packets[0].appData, rules);
      CellOfMatch(mode, detected, packets[0].appData, rules);
      CellKept(mode, if Eligible(packets[0]) then learned else detected, packets[1..], rules);
    }
  }

  /** Trying a rejected packet a second time rejects it again and leaves the cell alone. */
  lemma RetryChangesNothing(mode: EndianMode, detected: Detected, packet: Packet, rules: seq<FilterRule>)
    requires AllRunnable(rules)
    requires !Match(mode, detected, packet, rules).0
    ensures Match(mode, detected, packet, rules) == (false, detected)
    ensures Match(mode, Match(mode, detected, packet, rules).1, packet, rules) == (false, detected)
  {
    hide Match;
    CellOfMatch(mode, detected, packet, rules);
  }

  // ---------- From a text and a file to the kept packets ----------

  /** The packets that a definition describes in a byte order: valid ones with application data, and no others. */
  ghost function Described(structs: seq<StructDef>, rules: seq<TempRule>, order: Endian, packets: seq<Parsed>): seq<Parsed>
    requires Flatten.Flattened(structs).Ok?
  {
    if packets == [] then []
    else if packets[0].valid && packets[0].appData != [] && DefinitionAccepts(structs, rules, order, packets[0].appData) then
      [packets[0]] + Described(structs, rules, order, packets[1..])
    else Described(structs, rules, order, packets[1..])
  }

  lemma {:induction false} KeptIsDescribed(structs: seq<StructDef>, rules: seq<TempRule>, order: Endian, packets: seq<Parsed>)
    requires Built(structs, rules).Ok?
    ensures AllRunnable(Built(structs, rules).value)
    ensures Kept(order, packets, Built(structs, rules).value) == Described(structs, rules, order, packets)
    decreases |packets|
  {
    hide DefinitionAccepts, Matches, Runnable;
    if packets == [] {
      BuiltMatches(structs, rules, order, []);
    } else {
      BuiltMatches(structs, rules, order, packets[0].appData);
      KeptIsDescribed(structs, rules, order, packets[1..]);
    }
  }

  /** End to end, in mode auto: whatever text was loaded, of every file exactly the packets are kept that the parsed
      definition describes in one order; this order is learned, or none when nothing is kept. */
  lemma LoadedKeeps(source: string, packets: seq<Parsed>) returns (order: Endian)
    requires PdefString.Loaded(source).Ok? && PdefString.Loaded(source).value.draft.mode == ModeAuto
    ensures var c := PdefString.Loaded(source).value;
      AllRunnable(c.filters) &&
      (var (kept, detected) := FilterAll(ModeAuto, Unknown, packets, c.filters);
        kept == Described(c.draft.structs, c.draft.rules, order, packets) &&
        detected == if kept == [] then Unknown else Learned(order))
  {
    hide FilterAll, Kept, Described, Built, Runnable;
    var c := PdefString.Loaded(source).value;
    KeptIsDescribed(c.draft.structs, c.draft.rules, Big, packets);
    order := AutoIsFixed(packets, c.filters);
    KeptIsDescribed(c.draft.structs, c.draft.rules, order, packets);
  }

  /** With the order known, by the mode or by an earlier file, it is the known order. */
  lemma LoadedKeepsKnown(source: string, detected: Detected, order: Endian, packets: seq<Parsed>)
    requires PdefString.Loaded(source).Ok? && Known(PdefString.Loaded(source).value.draft.mode, detected) == Some(order)
    ensures var c := PdefString.Loaded(source).value;
      AllRunnable(c.filters) &&
      FilterAll(c.draft.mode, detected, packets, c.filters) ==
        (Described(c.draft.structs, c.draft.rules, order, packets), detected)
  {
    hide FilterAll, Kept, Described, Built, Runnable;
    var c := PdefString.Loaded(source).value;
    KeptIsDescribed(c.draft.structs, c.draft.rules, order, packets);
    FixedKeeps(c.draft.mode, detected, packets, c.filters, order);
  }

  // ---------- The loop ----------

  /** A packet is tried with its destination port and, when rejected, again with its source port; the
      matcher ignores both. */
  method FilterPackets(pdef: ProtocolDef, packets: seq<Parsed>) returns (kept: seq<Parsed>, total: nat, matched: nat)
    requires AllRunnable(pdef.filters)
    modifies pdef`detectedEndian
    ensures (kept, pdef.detectedEndian) ==
            FilterAll(pdef.endianMode, old(pdef.detectedEndian), packets, pdef.filters)
    ensures total == |packets| && matched == |kept|
  {
    hide Match;
    kept, total, matched := [], 0, 0;
    ghost var all := FilterAll(pdef.endianMode, pdef.detectedEndian, packets, pdef.filters);
    assert packets[0..] == packets && [] + all.0 == all.0;
    while total < |packets|
      invariant total <= |packets| && matched == |kept|
      invariant var rest := FilterAll(pdef.endianMode, pdef.detectedEndian, packets[total..], pdef.filters);
        (kept + rest.0, rest.1) == all
    {
      var parsed := packets[total];
      assert packets[total..][0] == parsed && packets[total..][1..] == packets[total + 1..];
      ghost var before := pdef.detectedEndian;
      ghost var was := kept;
      ghost var left := FilterAll(pdef.endianMode, before, packets[total..], pdef.filters);
      total := total + 1;
      if !parsed.valid || |parsed.appData| == 0 {
        assert left == FilterAll(pdef.endianMode, before, packets[total..], pdef.filters);
        continue;
      }
      var hit := pdef.PacketFilterMatch(parsed.appData);
      if !hit {
        RetryChangesNothing(pdef.endianMode, before, parsed.appData, pdef.filters);
        hit := pdef.PacketFilterMatch(parsed.appData);
      }
      assert (hit, pdef.detectedEndian) == Match(pdef.endianMode, before, parsed.appData, pdef.filters);
      ghost var later := FilterAll(pdef.endianMode, pdef.detectedEndian, packets[total..], pdef.filters);
      assert left == if hit then ([parsed] + later.0, later.1) else later;
      if hit {
        kept := kept + [parsed];
        matched := matched + 1;
        assert was + ([parsed] + later.0) == kept + later.0;
      }
    }
    assert kept + [] == kept;
  }
}
