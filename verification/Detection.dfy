/** Learning the byte order from several matcher threads at once: every load, program run and
    compare-and-swap of try_match_with_endian is one step, in any interleaving. */
module Detection {
  import opened Pdef
  import opened Matcher

  datatype Pc =
    | Idle
    | Loading
    | RunningKnown(order: Endian)
    | RunningBig
    | SwappingBig
    | RunningLittle
    | SwappingLittle
    | Done(hit: bool)

  /** A matcher thread: where it is in its attempt, and the value the attempt loaded from the cell. */
  datatype Thread = Thread(packet: Packet, rule: FilterRule, pc: Pc, loaded: Detected)

  /** `writes` counts the successful swaps. */
  datatype State = State(cell: Detected, threads: seq<Thread>, writes: nat)

  ghost predicate Init(s: State) {
    s.cell == Unknown && s.writes == 0 && forall t :: t in s.threads ==> t.pc == Idle
  }

  ghost predicate Begins(t: Thread, t': Thread) {
    (t.pc.Idle? || t.pc.Done?) && t'.pc == Loading && Runnable(t'.rule)
  }

  /** One step of a thread's attempt in automatic mode: its new state and the new cell. */
  ghost function Advance(cell: Detected, t: Thread): (Thread, Detected)
    requires Runnable(t.rule)
  {
    match t.pc
    case Loading =>
      (t.(loaded := cell, pc := match Known(ModeAuto, cell) case Some(order) => RunningKnown(order) case None => RunningBig),
       cell)
    case RunningKnown(order) => (t.(pc := Done(Accepts(order, t.packet, t.rule))), cell)
    case RunningBig => (t.(pc := if Accepts(Big, t.packet, t.rule) then SwappingBig else RunningLittle), cell)
    case SwappingBig => (t.(pc := Done(true)), if cell == Unknown then DetectedBig else cell)
    case RunningLittle => (t.(pc := if Accepts(Little, t.packet, t.rule) then SwappingLittle else Done(false)), cell)
    case SwappingLittle => (t.(pc := Done(true)), if cell == Unknown then DetectedLittle else cell)
    case Idle => (t, cell)
    case Done(_) => (t, cell)
  }

  ghost predicate StepOf(s: State, s': State, i: nat) {
    i < |s.threads| && |s'.threads| == |s.threads| &&
    (forall j :: 0 <= j < |s.threads| && j != i ==> s'.threads[j] == s.threads[j]) &&
    var t, t' := s.threads[i], s'.threads[i];
    if t.pc.Idle? || t.pc.Done? then Begins(t, t') && s'.cell == s.cell && s'.writes == s.writes
    else
      Runnable(t.rule) && (t', s'.cell) == Advance(s.cell, t) &&
      s'.writes == s.writes + (if s'.cell != s.cell then 1 else 0)
  }

  ghost predicate Next(s: State, s': State) { exists i: nat :: StepOf(s, s', i) }

  ghost predicate Execution(run: seq<State>) {
    run != [] && Init(run[0]) && forall n :: 0 <= n < |run| - 1 ==> Next(run[n], run[n + 1])
  }

  /** What a thread knows at each point of its attempt. */
  ghost predicate ThreadOk(cell: Detected, t: Thread) {
    match t.pc
    case Idle => true
    case Loading => Runnable(t.rule)
    case RunningKnown(order) => Runnable(t.rule) && cell == t.loaded == Learned(order)
    case RunningBig => Runnable(t.rule) && t.loaded == Unknown
    case SwappingBig => Runnable(t.rule) && t.loaded == Unknown && Accepts(Big, t.packet, t.rule)
    case RunningLittle => Runnable(t.rule) && t.loaded == Unknown && !Accepts(Big, t.packet, t.rule)
    case SwappingLittle =>
      Runnable(t.rule) && t.loaded == Unknown && !Accepts(Big, t.packet, t.rule) && Accepts(Little, t.packet, t.rule)
    case Done(hit) => Runnable(t.rule) && Justified(cell, t, hit)
  }

  /** A finished attempt agrees with the order in the cell if it loaded a known order; if it loaded Unknown
      it was accepted exactly when one of the programs accepts, and the cell is no longer Unknown. */
  ghost predicate Justified(cell: Detected, t: Thread, hit: bool)
    requires Runnable(t.rule)
  {
    match t.loaded
    case DetectedBig => cell == DetectedBig && (hit <==> Accepts(Big, t.packet, t.rule))
    case DetectedLittle => cell == DetectedLittle && (hit <==> Accepts(Little, t.packet, t.rule))
    case Unknown =>
      (hit <==> Accepts(Big, t.packet, t.rule) || Accepts(Little, t.packet, t.rule)) && (hit ==> cell != Unknown)
  }

  ghost predicate Inv(s: State) {
    (forall i :: 0 <= i < |s.threads| ==> ThreadOk(s.cell, s.threads[i])) &&
    s.writes == (if s.cell == Unknown then 0 else 1)
  }

  lemma StepKeepsInv(s: State, s': State)
    requires Inv(s) && Next(s, s')
    ensures Inv(s')
    ensures s.cell != Unknown ==> s'.cell == s.cell
  {
    hide Accepts, Runnable;
    var i: nat :| StepOf(s, s', i);
    forall j | 0 <= j < |s'.threads|
      ensures ThreadOk(s'.cell, s'.threads[j])
    {
      assert ThreadOk(s.cell, s.threads[j]) && ThreadOk(s.cell, s.threads[i]);
    }
  }

  /** In every interleaving: the cell is written at most once and every finished attempt is justified. */
  lemma {:induction false} DetectionSafe(run: seq<State>, n: nat)
    requires Execution(run) && n < |run|
    ensures Inv(run[n])
    ensures run[n].writes <= 1
    ensures forall i :: 0 <= i < |run[n].threads| && run[n].threads[i].pc.Done? ==>
              Runnable(run[n].threads[i].rule) &&
              Justified(run[n].cell, run[n].threads[i], run[n].threads[i].pc.hit)
  {
    hide Accepts, Justified, Runnable;
    if n > 0 {
      DetectionSafe(run, n - 1);
      StepKeepsInv(run[n - 1], run[n - 1 + 1]);
    }
    assert forall i :: 0 <= i < |run[n].threads| ==> ThreadOk(run[n].cell, run[n].threads[i]);
  }

  /** A detected order is never overwritten. */
  lemma {:induction false} DetectedForGood(run: seq<State>, m: nat, n: nat)
    requires Execution(run) && m <= n < |run| && run[m].cell != Unknown
    ensures run[n].cell == run[m].cell
  {
    if m < n {
      DetectedForGood(run, m, n - 1);
      DetectionSafe(run, n - 1);
      StepKeepsInv(run[n - 1], run[n - 1 + 1]);
    }
  }

  /** The cell is only written by a thread whose attempt was accepted in the order it writes, and little only when it
      was not accepted in big. */
  lemma WriteJustified(run: seq<State>, n: nat) returns (i: nat)
    requires Execution(run) && n + 1 < |run| && run[n + 1].cell != run[n].cell
    ensures run[n].cell == Unknown && i < |run[n].threads| == |run[n + 1].threads| && Runnable(run[n].threads[i].rule)
    ensures var t := run[n].threads[i];
      run[n + 1].threads[i].pc == Done(true) &&
      ((run[n + 1].cell == DetectedBig && Accepts(Big, t.packet, t.rule)) ||
       (run[n + 1].cell == DetectedLittle && Accepts(Little, t.packet, t.rule) && !Accepts(Big, t.packet, t.rule)))
  {
    hide Accepts, Runnable;
    DetectionSafe(run, n);
    assert Next(run[n], run[n + 1]);
    i :| StepOf(run[n], run[n + 1], i);
    assert ThreadOk(run[n].cell, run[n].threads[i]);
  }
}
