/** Runs of the timers, by the requests that were made: which timer fires when, for whom, and in which order. */
module TimerRuns {
  import opened Timers

  // ---------- Runs and their requests ----------

  /** A run with its steps. */
  ghost predicate Run(run: seq<State>, steps: seq<Step>) {
    |run| == |steps| + 1 && run[0] == INITIAL &&
    forall n :: 0 <= n < |steps| ==> Enabled(run[n], steps[n]) && run[n + 1] == Apply(run[n], steps[n])
  }

  /** The requests among these that are accepted: those with a length and a target. */
  function Taken(adds: seq<Add>): seq<Add> {
    if adds == [] then []
    else (if adds[0].length > 0 && adds[0].objId > 0 then [adds[0]] else []) + Taken(adds[1..])
  }

  function RequestsOf(step: Step): seq<Add> {
    match step
    case AddTimer(a, _) => Taken([a])
    case Check(_, adds, _) => Taken(adds)
  }

  /** All accepted requests of a run, in the order in which they were made. */
  function Requests(steps: seq<Step>): seq<Add> {
    if steps == [] then [] else Requests(steps[..|steps| - 1]) + RequestsOf(steps[|steps| - 1])
  }

  // ---------- Every timer is that of its request ----------

  /** The timer that request k made: due its length after the clock, for its target. */
  predicate MadeBy(e: Entry, a: Add) { e.reach == a.clock + a.length && e.objId == a.objId }

  ghost predicate AllMadeBy(m: multiset<Entry>, requests: seq<Add>) {
    forall e :: e in m ==> e.serial < |requests| && MadeBy(e, requests[e.serial])
  }

  ghost predicate Honest(s: State, requests: seq<Add>) {
    s.accepted == |requests| && AllMadeBy(Pending(s) + multiset(s.fired), requests)
  }

  lemma AddedHonest(s: State, a: Add, id: nat, requests: seq<Add>)
    requires Honest(s, requests) && s.current < 2
    ensures Honest(Added(s, a, id), requests + Taken([a]))
  {
    hide Insert;
    assert Taken([a][1..]) == [];
    var s' := Added(s, a, id);
    if a.length > 0 && a.objId > 0 {
      var were := Pending(s) + multiset(s.fired);
      var e := Entry(a.clock + a.length, id, a.objId, s.accepted);
      var l := List(s, s.current);
      assert multiset(Insert(l, e)) == multiset(l) + multiset{e};
      assert Pending(s') + multiset(s'.fired) == were + multiset{e};
      assert Taken([a]) == [a];
    } else {
      assert requests + Taken([a]) == requests;
    }
  }

  lemma {:induction false} AddedAllHonest(s: State, adds: seq<Add>, ids: seq<nat>, requests: seq<Add>)
    requires |adds| == |ids| && Honest(s, requests) && s.current < 2
    ensures Honest(AddedAll(s, adds, ids), requests + Taken(adds)) && AddedAll(s, adds, ids).current == s.current
    decreases |adds|
  {
    hide Honest, Insert;
    if adds == [] {
      assert requests + [] == requests;
    } else {
      AddedHonest(s, adds[0], ids[0], requests);
      AddedAllHonest(Added(s, adds[0], ids[0]), adds[1..], ids[1..], requests + Taken([adds[0]]));
      assert [adds[0]][1..] == [] && Taken([]) == [];
      assert requests + Taken([adds[0]]) + Taken(adds[1..]) == requests + Taken(adds);
    }
  }

  lemma CheckedHonest(s: State, now: nat, adds: seq<Add>, ids: seq<nat>, requests: seq<Add>)
    requires |adds| == |ids| && Honest(s, requests) && s.current < 2 && Inv(s) && AllFresh(Flip(s), adds, ids)
    ensures Honest(Checked(s, now, adds, ids), requests + Taken(adds))
  {
    hide Due, Inv, AllFresh, AddedAll, AllMadeBy;
    var s1 := AddedAll(Flip(s), adds, ids);
    assert Pending(Flip(s)) == Pending(s);
    AddedAllHonest(Flip(s), adds, ids, requests);
    AddedAllKeepsOther(s, adds, ids);
    DroppedTotal(s1, Checked(s, now, adds, ids), s.current, Due(List(s, s.current), now));
  }

  /** Firing moves timers and loses none. */
  lemma DroppedTotal(s1: State, s': State, k: nat, due: seq<Entry>)
    requires k < 2 && due <= List(s1, k) && s'.accepted == s1.accepted && s'.fired == s1.fired + due
    requires List(s', k) == List(s1, k)[|due|..] && List(s', 1 - k) == List(s1, 1 - k)
    ensures Pending(s') + multiset(s'.fired) == Pending(s1) + multiset(s1.fired)
  {
    var l := List(s1, k);
    assert l == due + l[|due|..];
    assert multiset(l) == multiset(due) + multiset(l[|due|..]);
    assert multiset(s'.fired) == multiset(s1.fired) + multiset(due);
  }

  lemma AddedAllKeepsOther(s: State, adds: seq<Add>, ids: seq<nat>)
    requires |adds| == |ids| && Inv(s) && AllFresh(Flip(s), adds, ids)
    ensures List(AddedAll(Flip(s), adds, ids), s.current) == List(s, s.current)
  {
    hide AllFresh;
    FlipKeeps(s);
    AddedAllKeeps(Flip(s), adds, ids);
  }

  lemma {:induction false} RunIs(run: seq<State>, steps: seq<Step>, n: nat)
    requires Run(run, steps) && n < |run|
    ensures Inv(run[n]) && run[n].current < 2 && Honest(run[n], Requests(steps[..n]))
    ensures n > 0 ==> run[n - 1].fired <= run[n].fired && Requests(steps[..n - 1]) <= Requests(steps[..n])
    decreases n
  {
    hide Added, Checked, OnceById, OnceBySerial, Sorted, AllFresh, Honest, Taken;
    if n == 0 {
      InitialInv();
      assert steps[..0] == [];
      assert Honest(INITIAL, []) by { NothingMade(); }
    } else {
      RunIs(run, steps, n - 1);
      assert Enabled(run[n - 1], steps[n - 1]) && run[n - 1 + 1] == Apply(run[n - 1], steps[n - 1]);
      assert steps[..n][..n - 1] == steps[..n - 1];
      StepHonest(run[n - 1], steps[n - 1], Requests(steps[..n - 1]));
    }
  }

  lemma NothingMade()
    ensures Honest(INITIAL, [])
  {
  }

  lemma StepHonest(s: State, step: Step, requests: seq<Add>)
    requires Inv(s) && s.current < 2 && Honest(s, requests) && Enabled(s, step)
    ensures Inv(Apply(s, step)) && Apply(s, step).current < 2 && Honest(Apply(s, step), requests + RequestsOf(step))
    ensures s.fired <= Apply(s, step).fired
  {
    hide Added, Checked, Inv, Honest, Taken;
    match step {
      case AddTimer(a, id) =>
        AddedKeeps(s, a, id);
        AddedHonest(s, a, id, requests);
      case Check(now, adds, ids) =>
        CheckedKeeps(s, now, adds, ids);
        CheckedHonest(s, now, adds, ids, requests);
    }
  }

  /** Every accepted request has exactly one timer, pending or fired, at every point of every run: due at the clock of
      the request plus its length, and for its target. */
  lemma RequestHasTimer(run: seq<State>, steps: seq<Step>, n: nat, k: nat) returns (e: Entry)
    requires Run(run, steps) && n < |run| && k < |Requests(steps[..n])|
    ensures var a := Requests(steps[..n])[k];
      e.serial == k && e.reach == a.clock + a.length && e.objId == a.objId && a.length > 0
    ensures (Pending(run[n]) + multiset(run[n].fired))[e] == 1
    ensures forall f :: f in Pending(run[n]) + multiset(run[n].fired) && f.serial == k ==> f == e
  {
    RunIs(run, steps, n);
    assert HasSerial(Pending(run[n]) + multiset(run[n].fired), k);
    e :| e in Pending(run[n]) + multiset(run[n].fired) && e.serial == k;
    RequestsTaken(steps[..n]);
  }

  lemma {:induction false} AllTaken(adds: seq<Add>)
    ensures forall a :: a in Taken(adds) ==> a.length > 0 && a.objId > 0
  {
    if adds != [] {
      AllTaken(adds[1..]);
    }
  }

  lemma {:induction false} RequestsTaken(steps: seq<Step>)
    ensures forall k :: 0 <= k < |Requests(steps)| ==> Requests(steps)[k].length > 0 && Requests(steps)[k].objId > 0
    decreases |steps|
  {
    if steps != [] {
      var last := steps[|steps| - 1];
      RequestsTaken(steps[..|steps| - 1]);
      AllTaken(if last.AddTimer? then [last.a] else last.adds);
      assert forall a :: a in RequestsOf(last) ==> a.length > 0 && a.objId > 0;
    }
  }

  // ---------- When it fires ----------

  /** No check fires a timer before its request's clock plus its length. */
  lemma FiresNotBefore(run: seq<State>, steps: seq<Step>, m: nat, e: Entry)
    requires Run(run, steps) && m < |steps| && steps[m].Check? && e !in run[m].fired && e in run[m + 1].fired
    ensures e.serial < |Requests(steps[..m])|
    ensures var a := Requests(steps[..m])[e.serial]; steps[m].now >= a.clock + a.length && e.objId == a.objId
  {
    hide OnceById, OnceBySerial, Sorted, AllFresh, Requests;
    RunIs(run, steps, m);
    assert Enabled(run[m], steps[m]) && run[m + 1] == Apply(run[m], steps[m]);
    var c := steps[m];
    var l := List(run[m], run[m].current);
    CheckedKeeps(run[m], c.now, c.adds, c.ids);
    DueExact(l, c.now);
    assert e in Due(l, c.now);
    assert e in Pending(run[m]);
  }

  /** The steps between two consecutive checks only add timers. */
  ghost predicate Consecutive(steps: seq<Step>, m: nat, n: nat) {
    m < n < |steps| && steps[m].Check? && steps[n].Check? && forall i :: m < i < n ==> steps[i].AddTimer?
  }

  /** Two consecutive checks made at or after its request's clock plus its length fire a timer, whatever is requested
      before, between and by handlers. */
  lemma FiresByTheSecond(run: seq<State>, steps: seq<Step>, m: nat, n: nat, k: nat) returns (e: Entry)
    requires Run(run, steps) && Consecutive(steps, m, n) && k < |Requests(steps[..m])|
    requires var a := Requests(steps[..m])[k];
      steps[m].now >= a.clock + a.length && steps[n].now >= a.clock + a.length
    ensures e.serial == k && e.objId == Requests(steps[..m])[k].objId && e in run[n + 1].fired
  {
    hide Inv, AllFresh, Checked, Requests;
    e := RequestHasTimer(run, steps, m, k);
    RunIs(run, steps, m);
    assert Enabled(run[m], steps[m]) && run[m + 1] == Apply(run[m], steps[m]);
    var c := steps[m];
    if e in run[m].fired {
      FiredStays(run[m], e, c.now, c.adds, c.ids);
    } else {
      FiredOrNext(run[m], e, c.now, c.adds, c.ids);
    }
    WaitsForCheck(run, steps, m, n, e);
    RunIs(run, steps, n);
    assert Enabled(run[n], steps[n]) && run[n + 1] == Apply(run[n], steps[n]);
    var d := steps[n];
    if e in run[n].fired {
      FiredStays(run[n], e, d.now, d.adds, d.ids);
    } else {
      FiresNow(run[n], e, d.now, d.adds, d.ids);
    }
  }

  lemma {:induction false} WaitsForCheck(run: seq<State>, steps: seq<Step>, m: nat, n: nat, e: Entry)
    requires Run(run, steps) && m < n < |run| && forall i :: m < i < n ==> steps[i].AddTimer?
    requires e in run[m + 1].fired || e in List(run[m + 1], run[m + 1].current)
    ensures e in run[n].fired || e in List(run[n], run[n].current)
    decreases n
  {
    hide Inv, Requests, Checked;
    if m + 1 < n {
      WaitsForCheck(run, steps, m, n - 1, e);
      RunIs(run, steps, n - 1);
      assert run[n - 1 + 1] == Apply(run[n - 1], steps[n - 1]);
      AddedList(run[n - 1], steps[n - 1].a, steps[n - 1].id, e);
    }
  }

  lemma AddedList(s: State, a: Add, id: nat, e: Entry)
    requires s.current < 2
    ensures var s' := Added(s, a, id);
      s'.fired == s.fired && s'.current == s.current && (e in List(s, s.current) ==> e in List(s', s.current))
  {
    hide Insert;
    var x := Entry(a.clock + a.length, id, a.objId, s.accepted);
    var l := List(s, s.current);
    assert multiset(Insert(l, x)) == multiset(l) + multiset{x};
    if e in l {
      assert e in multiset(Insert(l, x));
    }
  }

  // ---------- In which order ----------

  /** By time, and by request among equal times. */
  predicate Before(e: Entry, f: Entry) { e.reach < f.reach || (e.reach == f.reach && e.serial < f.serial) }

  ghost predicate InOrder(l: seq<Entry>) { forall i, j :: 0 <= i < j < |l| ==> Before(l[i], l[j]) }

  ghost predicate ListsInOrder(s: State) { InOrder(s.list0) && InOrder(s.list1) }

  lemma InOrderCons(e: Entry, l: seq<Entry>)
    ensures InOrder([e] + l) <==> (forall f :: f in l ==> Before(e, f)) && InOrder(l)
  {
    var all := [e] + l;
    if InOrder(all) {
      forall f | f in l
        ensures Before(e, f)
      {
        var i :| 0 <= i < |l| && l[i] == f;
        assert all[i + 1] == f && Before(all[0], all[i + 1]);
      }
      forall i, j | 0 <= i < j < |l|
        ensures Before(l[i], l[j])
      {
        assert Before(all[i + 1], all[j + 1]);
      }
    }
  }

  lemma {:induction false} InsertInOrder(l: seq<Entry>, e: Entry)
    requires InOrder(l) && forall f :: f in l ==> f.serial < e.serial
    ensures InOrder(Insert(l, e))
  {
    hide InOrder;
    if l == [] {
      assert [e] == [e] + [];
      InOrderCons(e, []);
      assert InOrder([]) by { NoneInOrder(); }
    } else {
      assert l == [l[0]] + l[1..];
      InOrderCons(l[0], l[1..]);
      if l[0].reach <= e.reach {
        InsertInOrder(l[1..], e);
        var r := Insert(l[1..], e);
        assert forall f :: f in r ==> f in multiset(r);
        InOrderCons(l[0], r);
      } else {
        InOrderCons(e, l);
      }
    }
  }

  lemma NoneInOrder()
    ensures InOrder([])
  {
  }

  lemma AddedInOrder(s: State, a: Add, id: nat)
    requires Inv(s) && ListsInOrder(s)
    ensures ListsInOrder(Added(s, a, id))
  {
    hide Insert, InOrder, OnceById, Sorted;
    var l := List(s, s.current);
    forall f | f in l
      ensures f.serial < s.accepted
    {
      assert f in Pending(s) + multiset(s.fired);
    }
    InsertInOrder(l, Entry(a.clock + a.length, id, a.objId, s.accepted));
  }

  lemma {:induction false} AddedAllInOrder(s: State, adds: seq<Add>, ids: seq<nat>)
    requires |adds| == |ids| && Inv(s) && AllFresh(s, adds, ids) && ListsInOrder(s)
    ensures ListsInOrder(AddedAll(s, adds, ids))
    decreases |adds|
  {
    hide Inv, Added, ListsInOrder;
    if adds != [] {
      AddedKeeps(s, adds[0], ids[0]);
      AddedInOrder(s, adds[0], ids[0]);
      AddedAllInOrder(Added(s, adds[0], ids[0]), adds[1..], ids[1..]);
    }
  }

  lemma PartInOrder(l: seq<Entry>, n: nat)
    requires InOrder(l) && n <= |l|
    ensures InOrder(l[..n]) && InOrder(l[n..])
  {
  }

  lemma CheckedInOrder(s: State, now: nat, adds: seq<Add>, ids: seq<nat>)
    requires |adds| == |ids| && Inv(s) && AllFresh(Flip(s), adds, ids) && ListsInOrder(s)
    ensures ListsInOrder(Checked(s, now, adds, ids)) && InOrder(Due(List(s, s.current), now))
  {
    hide Inv, AllFresh, InOrder, Due;
    assert s.current < 2 by { ListsSorted(s); }
    FlipKeeps(s);
    AddedAllInOrder(Flip(s), adds, ids);
    AddedAllKeepsOther(s, adds, ids);
    var l := List(s, s.current);
    PartInOrder(l, |Due(l, now)|);
    assert l[..|Due(l, now)|] == Due(l, now);
  }

  /** What a check fires, it fires in the order of time, and of the requests among equal times. */
  lemma {:induction false} FiresInOrder(run: seq<State>, steps: seq<Step>, n: nat)
    requires Run(run, steps) && n < |run|
    ensures ListsInOrder(run[n])
    ensures n < |steps| && steps[n].Check? ==>
      run[n].fired <= run[n + 1].fired && InOrder(run[n + 1].fired[|run[n].fired|..])
    decreases n
  {
    hide Inv, Added, Checked, InOrder, AllFresh, Requests, Honest, Due, Taken;
    RunIs(run, steps, n);
    if n == 0 {
      assert InOrder([]) by { NoneInOrder(); }
    } else {
      FiresInOrder(run, steps, n - 1);
      RunIs(run, steps, n - 1);
      assert Enabled(run[n - 1], steps[n - 1]) && run[n - 1 + 1] == Apply(run[n - 1], steps[n - 1]);
      match steps[n - 1] {
        case AddTimer(a, id) => AddedInOrder(run[n - 1], a, id);
        case Check(now, adds, ids) => CheckedInOrder(run[n - 1], now, adds, ids);
      }
    }
    if n < |steps| && steps[n].Check? {
      assert Enabled(run[n], steps[n]) && run[n + 1] == Apply(run[n], steps[n]);
      CheckedInOrder(run[n], steps[n].now, steps[n].adds, steps[n].ids);
      CheckedKeeps(run[n], steps[n].now, steps[n].adds, steps[n].ids);
    }
  }
}
