/** Matching a packet against the rules of a protocol, and learning its byte order (runtime/protocol.c). */
module Matcher {
  import opened Pdef
  import opened Executor

  datatype EndianMode = ModeBig | ModeLittle | ModeAuto

  datatype Detected = Unknown | DetectedBig | DetectedLittle

  ghost predicate Runnable(rule: FilterRule) { ForwardOnly(rule.codeBE) && ForwardOnly(rule.codeLE) }

  ghost predicate AllRunnable(rules: seq<FilterRule>) { forall r :: r in rules ==> Runnable(r) }

  /** One attempt with a fixed byte order. */
  ghost predicate Accepts(order: Endian, packet: Packet, rule: FilterRule)
    requires Runnable(rule)
  {
    Verdict(packet, if order == Big then rule.codeBE else rule.codeLE)
  }

  function Known(mode: EndianMode, detected: Detected): Option<Endian> {
    match mode
    case ModeBig => Some(Big)
    case ModeLittle => Some(Little)
    case ModeAuto =>
      match detected
      case DetectedBig => Some(Big)
      case DetectedLittle => Some(Little)
      case Unknown => None
  }

  function Learned(order: Endian): Detected { if order == Big then DetectedBig else DetectedLittle }

  // ---------- Windows: the parts of a packet a rule is tried on ----------

  /** A limit of zero, or one beyond the packet, is no limit. */
  function SearchLimit(packet: Packet, maxOffset: nat): nat {
    if 0 < maxOffset < |packet| then maxOffset else |packet|
  }

  /** The windows from `offset` on; the search stops at the first one that is too short. */
  function WindowsFrom(packet: Packet, rule: FilterRule, offset: nat): seq<Packet>
    decreases SearchLimit(packet, rule.slidingMaxOffset) - offset
  {
    if offset >= SearchLimit(packet, rule.slidingMaxOffset) || |packet| - offset < rule.minPacketSize then []
    else [packet[offset..]] + WindowsFrom(packet, rule, offset + 1)
  }

  function Windows(packet: Packet, rule: FilterRule): seq<Packet> {
    if rule.slidingWindow then WindowsFrom(packet, rule, 0) else [packet]
  }

  /** Stopping early loses nothing: the windows are exactly those inside the packet, below the rule's limit if that
      is not zero, that leave at least the minimum size. */
  lemma {:induction false} WindowsFromExact(packet: Packet, rule: FilterRule, offset: nat, w: Packet)
    ensures w in WindowsFrom(packet, rule, offset) <==>
            exists o: nat :: offset <= o < |packet| && (rule.slidingMaxOffset == 0 || o < rule.slidingMaxOffset) &&
              |packet| - o >= rule.minPacketSize && w == packet[o..]
    decreases SearchLimit(packet, rule.slidingMaxOffset) - offset
  {
    if offset < SearchLimit(packet, rule.slidingMaxOffset) && |packet| - offset >= rule.minPacketSize {
      WindowsFromExact(packet, rule, offset + 1, w);
    }
  }

  /** The attempts for a packet, in the order in which they are made. */
  function Attempts(packet: Packet, rules: seq<FilterRule>): seq<(Packet, FilterRule)> {
    if rules == [] then [] else Paired(Windows(packet, rules[0]), rules[0]) + Attempts(packet, rules[1..])
  }

  function Paired(windows: seq<Packet>, rule: FilterRule): seq<(Packet, FilterRule)> {
    if windows == [] then [] else [(windows[0], rule)] + Paired(windows[1..], rule)
  }

  ghost predicate Attemptable(attempts: seq<(Packet, FilterRule)>) {
    forall k :: 0 <= k < |attempts| ==> Runnable(attempts[k].1)
  }

  // ---------- What the matcher computes ----------

  /** One attempt under a mode and a detection cell: the verdict and the new cell. */
  ghost function TryOnce(mode: EndianMode, detected: Detected, packet: Packet, rule: FilterRule): (bool, Detected)
    requires Runnable(rule)
  {
    match Known(mode, detected)
    case Some(order) => (Accepts(order, packet, rule), detected)
    case None =>
      if Accepts(Big, packet, rule) then (true, DetectedBig)
      else if Accepts(Little, packet, rule) then (true, DetectedLittle)
      else (false, detected)
  }

  ghost function TryAll(mode: EndianMode, detected: Detected, attempts: seq<(Packet, FilterRule)>): (bool, Detected)
    requires Attemptable(attempts)
  {
    if attempts == [] then (false, detected) else
    var r := TryOnce(mode, detected, attempts[0].0, attempts[0].1);
    if r.0 then r else TryAll(mode, r.1, attempts[1..])
  }

  lemma {:induction false} PairedRunnable(windows: seq<Packet>, rule: FilterRule)
    requires Runnable(rule)
    ensures Attemptable(Paired(windows, rule))
  {
    if windows != [] {
      PairedRunnable(windows[1..], rule);
    }
  }

  lemma {:induction false} AttemptsRunnable(packet: Packet, rules: seq<FilterRule>)
    requires AllRunnable(rules)
    ensures Attemptable(Attempts(packet, rules))
  {
    if rules != [] {
      PairedRunnable(Windows(packet, rules[0]), rules[0]);
      AttemptsRunnable(packet, rules[1..]);
    }
  }

  ghost function Match(mode: EndianMode, detected: Detected, packet: Packet, rules: seq<FilterRule>): (bool, Detected)
    requires AllRunnable(rules)
  {
    AttemptsRunnable(packet, rules);
    TryAll(mode, detected, Attempts(packet, rules))
  }

  lemma {:induction false} TryAllAppend(mode: EndianMode, detected: Detected,
      a: seq<(Packet, FilterRule)>, b: seq<(Packet, FilterRule)>)
    requires Attemptable(a) && Attemptable(b)
    ensures Attemptable(a + b)
    ensures var r := TryAll(mode, detected, a);
      TryAll(mode, detected, a + b) == if r.0 then r else TryAll(mode, r.1, b)
    decreases |a|
  {
    if a == [] {
      assert a + b == b;
    } else {
      var r := TryOnce(mode, detected, a[0].0, a[0].1);
      TryAllAppend(mode, r.1, a[1..], b);
      assert (a + b)[1..] == a[1..] + b;
    }
  }

  // ---------- What a match means ----------

  /** With a fixed byte order: the rule accepts the packet, or, for a sliding rule, the rest of the packet
      from some offset inside it, below the rule's limit if that is not zero, that leaves at least the minimum size. */
  ghost predicate RuleMatches(order: Endian, packet: Packet, rule: FilterRule)
    requires Runnable(rule)
  {
    if rule.slidingWindow then
      exists o: nat :: o < |packet| && (rule.slidingMaxOffset == 0 || o < rule.slidingMaxOffset) &&
        |packet| - o >= rule.minPacketSize && Accepts(order, packet[o..], rule)
    else Accepts(order, packet, rule)
  }

  ghost predicate Matches(order: Endian, packet: Packet, rules: seq<FilterRule>)
    requires AllRunnable(rules)
  {
    exists r :: r in rules && RuleMatches(order, packet, r)
  }

  ghost predicate SomeAttempt(order: Endian, attempts: seq<(Packet, FilterRule)>)
    requires Attemptable(attempts)
  {
    exists k :: 0 <= k < |attempts| && Accepts(order, attempts[k].0, attempts[k].1)
  }

  lemma {:induction false} PairedMeaning(order: Endian, windows: seq<Packet>, rule: FilterRule)
    requires Runnable(rule) && Attemptable(Paired(windows, rule))
    ensures SomeAttempt(order, Paired(windows, rule)) <==> exists w :: w in windows && Accepts(order, w, rule)
  {
    var p := Paired(windows, rule);
    PairedElements(windows, rule);
    if SomeAttempt(order, p) {
      var k :| 0 <= k < |p| && Accepts(order, p[k].0, p[k].1);
      assert windows[k] in windows;
    }
    if exists w :: w in windows && Accepts(order, w, rule) {
      var w :| w in windows && Accepts(order, w, rule);
      var k :| 0 <= k < |windows| && windows[k] == w;
      assert Accepts(order, p[k].0, p[k].1);
    }
  }

  lemma {:induction false} PairedElements(windows: seq<Packet>, rule: FilterRule)
    ensures |Paired(windows, rule)| == |windows|
    ensures forall k :: 0 <= k < |windows| ==> Paired(windows, rule)[k] == (windows[k], rule)
  {
    if windows != [] {
      PairedElements(windows[1..], rule);
    }
  }

  lemma WindowsMeaning(order: Endian, packet: Packet, rule: FilterRule)
    requires Runnable(rule)
    ensures RuleMatches(order, packet, rule) <==> exists w :: w in Windows(packet, rule) && Accepts(order, w, rule)
  {
    if rule.slidingWindow {
      forall w
        ensures w in Windows(packet, rule) <==>
                exists o: nat :: o < |packet| && (rule.slidingMaxOffset == 0 || o < rule.slidingMaxOffset) &&
                  |packet| - o >= rule.minPacketSize && w == packet[o..]
      {
        WindowsFromExact(packet, rule, 0, w);
      }
    } else {
      assert packet in Windows(packet, rule);
    }
  }

  lemma {:induction false} AttemptsMeaning(order: Endian, packet: Packet, rules: seq<FilterRule>)
    requires AllRunnable(rules)
    ensures Attemptable(Attempts(packet, rules))
    ensures SomeAttempt(order, Attempts(packet, rules)) <==> Matches(order, packet, rules)
  {
    AttemptsRunnable(packet, rules);
    if rules != [] {
      var a, b := Paired(Windows(packet, rules[0]), rules[0]), Attempts(packet, rules[1..]);
      PairedRunnable(Windows(packet, rules[0]), rules[0]);
      AttemptsMeaning(order, packet, rules[1..]);
      PairedMeaning(order, Windows(packet, rules[0]), rules[0]);
      WindowsMeaning(order, packet, rules[0]);
      SomeAttemptAppend(order, a, b);
      assert rules == [rules[0]] + rules[1..];
    }
  }

  lemma SomeAttemptAppend(order: Endian, a: seq<(Packet, FilterRule)>, b: seq<(Packet, FilterRule)>)
    requires Attemptable(a) && Attemptable(b) && Attemptable(a + b)
    ensures SomeAttempt(order, a + b) <==> SomeAttempt(order, a) || SomeAttempt(order, b)
  {
    if SomeAttempt(order, a) {
      var k :| 0 <= k < |a| && Accepts(order, a[k].0, a[k].1);
      assert Accepts(order, (a + b)[k].0, (a + b)[k].1);
    }
    if SomeAttempt(order, b) {
      var k :| 0 <= k < |b| && Accepts(order, b[k].0, b[k].1);
      assert Accepts(order, (a + b)[|a| + k].0, (a + b)[|a| + k].1);
    }
  }

  // ---------- The meaning of the matcher ----------

  lemma {:induction false} TryAllKnown(mode: EndianMode, detected: Detected, attempts: seq<(Packet, FilterRule)>, order: Endian)
    requires Attemptable(attempts) && Known(mode, detected) == Some(order)
    ensures TryAll(mode, detected, attempts) == (SomeAttempt(order, attempts), detected)
    decreases |attempts|
  {
    if attempts != [] {
      var rest := attempts[1..];
      TryAllKnown(mode, detected, rest, order);
      assert attempts == [attempts[0]] + rest;
      SomeAttemptAppend(order, [attempts[0]], rest);
      assert [attempts[0]][0] == attempts[0];
    }
  }

  /** Attempt k is the first that either program accepts. */
  ghost predicate FirstAccepted(attempts: seq<(Packet, FilterRule)>, k: nat)
    requires Attemptable(attempts)
  {
    k < |attempts| &&
    (Accepts(Big, attempts[k].0, attempts[k].1) || Accepts(Little, attempts[k].0, attempts[k].1)) &&
    forall j :: 0 <= j < k ==>
      !Accepts(Big, attempts[j].0, attempts[j].1) && !Accepts(Little, attempts[j].0, attempts[j].1)
  }

  lemma {:induction false} TryAllUnknown(attempts: seq<(Packet, FilterRule)>) returns (k: nat)
    requires Attemptable(attempts)
    ensures var r := TryAll(ModeAuto, Unknown, attempts);
      if r.0 then
        FirstAccepted(attempts, k) &&
        r.1 == Learned(if Accepts(Big, attempts[k].0, attempts[k].1) then Big else Little)
      else
        r.1 == Unknown && !SomeAttempt(Big, attempts) && !SomeAttempt(Little, attempts)
    decreases |attempts|
  {
    hide Accepts;
    k := 0;
    if attempts != [] && !TryOnce(ModeAuto, Unknown, attempts[0].0, attempts[0].1).0 {
      k := TryAllUnknown(attempts[1..]);
      k := k + 1;
      assert forall j :: 1 <= j < |attempts| ==> attempts[j] == attempts[1..][j - 1];
    }
  }

  /** With the byte order fixed, by the mode or by an earlier detection, a packet matches exactly when some
      rule matches it, and the detection cell keeps its value. */
  lemma MatchFixed(mode: EndianMode, detected: Detected, packet: Packet, rules: seq<FilterRule>, order: Endian)
    requires AllRunnable(rules) && Known(mode, detected) == Some(order)
    ensures Match(mode, detected, packet, rules) == (Matches(order, packet, rules), detected)
  {
    AttemptsMeaning(order, packet, rules);
    TryAllKnown(mode, detected, Attempts(packet, rules), order);
  }

  /** While the byte order is unknown, a packet matches exactly when it does so in one of the two orders; a
      match teaches an order in which the packet matches, preferring big at the first accepted attempt;
      a rejected packet teaches nothing. */
  lemma MatchUnknown(packet: Packet, rules: seq<FilterRule>)
    requires AllRunnable(rules)
    ensures Attemptable(Attempts(packet, rules))
    ensures var (hit, learned) := Match(ModeAuto, Unknown, packet, rules);
      (hit <==> Matches(Big, packet, rules) || Matches(Little, packet, rules)) &&
      (!hit ==> learned == Unknown) &&
      (hit ==> exists k: nat, order: Endian ::
        FirstAccepted(Attempts(packet, rules), k) && learned == Learned(order) && Matches(order, packet, rules) &&
        (order == Big <==> Accepts(Big, Attempts(packet, rules)[k].0, Attempts(packet, rules)[k].1)))
  {
    hide Accepts, Attempts, Matches, TryAll;
    AttemptsMeaning(Big, packet, rules);
    AttemptsMeaning(Little, packet, rules);
    var attempts := Attempts(packet, rules);
    var k := TryAllUnknown(attempts);
    if Match(ModeAuto, Unknown, packet, rules).0 {
      var order := if Accepts(Big, attempts[k].0, attempts[k].1) then Big else Little;
      assert Accepts(order, attempts[k].0, attempts[k].1);
      assert SomeAttempt(order, attempts);
    }
  }

  // ---------- The matcher ----------

  class ProtocolDef {
    const filters: seq<FilterRule>
    const endianMode: EndianMode
    var detectedEndian: Detected

    constructor (filters: seq<FilterRule>, mode: EndianMode)
      ensures this.filters == filters && endianMode == mode && detectedEndian == Unknown
    {
      this.filters, this.endianMode, this.detectedEndian := filters, mode, Unknown;
    }

    method TryMatchWithEndian(packet: Packet, rule: FilterRule) returns (hit: bool)
      requires Runnable(rule)
      modifies this`detectedEndian
      ensures (hit, detectedEndian) == TryOnce(endianMode, old(detectedEndian), packet, rule)
    {
      ForwardHalts(packet, rule.codeBE);
      ForwardHalts(packet, rule.codeLE);
      match endianMode {
        case ModeBig =>
          hit := ExecuteBytecode(packet, rule.codeBE);
        case ModeLittle =>
          hit := ExecuteBytecode(packet, rule.codeLE);
        case ModeAuto =>
          var detected := detectedEndian;
          if detected == DetectedBig {
            hit := ExecuteBytecode(packet, rule.codeBE);
            return;
          }
          if detected == DetectedLittle {
            hit := ExecuteBytecode(packet, rule.codeLE);
            return;
          }
          hit := ExecuteBytecode(packet, rule.codeBE);
          if hit {
            CompareAndSwap(DetectedBig);
            return;
          }
          hit := ExecuteBytecode(packet, rule.codeLE);
          if hit {
            CompareAndSwap(DetectedLittle);
          }
      }
    }

    method CompareAndSwap(value: Detected)
      modifies this`detectedEndian
      ensures detectedEndian == if old(detectedEndian) == Unknown then value else old(detectedEndian)
    {
      if detectedEndian == Unknown {
        detectedEndian := value;
      }
    }

    /** The windows of a sliding rule, one after the other. */
    method SlideMatch(packet: Packet, rule: FilterRule) returns (hit: bool)
      requires Runnable(rule) && rule.slidingWindow
      requires Attemptable(Paired(Windows(packet, rule), rule))
      modifies this`detectedEndian
      ensures (hit, detectedEndian) ==
              TryAll(endianMode, old(detectedEndian), Paired(Windows(packet, rule), rule))
    {
      hide TryOnce;
      var searchLimit := |packet|;
      if rule.slidingMaxOffset > 0 && rule.slidingMaxOffset < |packet| {
        searchLimit := rule.slidingMaxOffset;
      }
      var offset := 0;
      while offset < searchLimit
        invariant Attemptable(Paired(WindowsFrom(packet, rule, offset), rule))
        invariant TryAll(endianMode, detectedEndian, Paired(WindowsFrom(packet, rule, offset), rule)) ==
                  TryAll(endianMode, old(detectedEndian), Paired(Windows(packet, rule), rule))
      {
        var remaining := |packet| - offset;
        if remaining < rule.minPacketSize {
          break;
        }
        var all := Paired(WindowsFrom(packet, rule, offset), rule);
        assert all[1..] == Paired(WindowsFrom(packet, rule, offset + 1), rule);
        hit := TryMatchWithEndian(packet[offset..], rule);
        if hit {
          return;
        }
        forall k | 0 <= k < |all[1..]|
          ensures Runnable(all[1..][k].1)
        {
          assert all[1..][k] == all[k + 1];
        }
        offset := offset + 1;
      }
      return false;
    }

    method PacketFilterMatch(packet: Packet) returns (hit: bool)
      requires AllRunnable(filters)
      modifies this`detectedEndian
      ensures (hit, detectedEndian) == Match(endianMode, old(detectedEndian), packet, filters)
    {
      hide TryAll, TryOnce, Windows;
      AttemptsRunnable(packet, filters);
      for i := 0 to |filters|
        invariant Attemptable(Attempts(packet, filters[i..]))
        invariant TryAll(endianMode, detectedEndian, Attempts(packet, filters[i..])) ==
                  TryAll(endianMode, old(detectedEndian), Attempts(packet, filters))
      {
        var rule := filters[i];
        assert filters[i..][0] == rule && filters[i..][1..] == filters[i + 1..];
        assert rule in filters && forall r :: r in filters[i + 1..] ==> r in filters;
        AttemptsRunnable(packet, filters[i + 1..]);
        PairedRunnable(Windows(packet, rule), rule);
        TryAllAppend(endianMode, detectedEndian, Paired(Windows(packet, rule), rule), Attempts(packet, filters[i + 1..]));
        if rule.slidingWindow {
          hit := SlideMatch(packet, rule);
        } else {
          SingleWindow(endianMode, detectedEndian, packet, rule);
          hit := TryMatchWithEndian(packet, rule);
        }
        if hit {
          return;
        }
      }
      NoAttempts(endianMode, detectedEndian);
      return false;
    }
  }

  lemma NoAttempts(mode: EndianMode, detected: Detected)
    ensures TryAll(mode, detected, []) == (false, detected)
  {
  }

  lemma SingleWindow(mode: EndianMode, detected: Detected, packet: Packet, rule: FilterRule)
    requires Runnable(rule) && !rule.slidingWindow && Attemptable(Paired(Windows(packet, rule), rule))
    ensures TryAll(mode, detected, Paired(Windows(packet, rule), rule)) == TryOnce(mode, detected, packet, rule)
  {
    var windows := Windows(packet, rule);
    assert windows == [packet] && windows[1..] == [];
    var all := Paired(windows, rule);
    assert all == [(packet, rule)] && all[1..] == [];
    hide Accepts;
    assert TryAll(mode, TryOnce(mode, detected, packet, rule).1, all[1..]) ==
           (false, TryOnce(mode, detected, packet, rule).1);
  }
}
