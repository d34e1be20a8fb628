/** Timers in two alternating lists (core/legacy_core_net.cpp, class base_timer): what every operation computes,
    and exactly-once firing over every run. */
module Timers {

  const TIMER_ID_BEGIN: nat := 1000
  const ID_LIMIT: nat := 0x1_0000_0000

  /** A pending timer.  `serial` numbers the accepted timers; ids may be used again, serials never are. */
  datatype Entry = Entry(reach: nat, id: nat, objId: nat, serial: nat)

  /** Lists are ordered by time, first come first among equal times; `fired` lists what has been handled. */
  datatype State = State(
    list0: seq<Entry>,
    list1: seq<Entry>,
    current: nat,
    ids: set<nat>,
    accepted: nat,
    fired: seq<Entry>)

  function List(s: State, k: nat): seq<Entry> { if k == 0 then s.list0 else s.list1 }

  function WithList(s: State, k: nat, l: seq<Entry>): State {
    if k == 0 then s.(list0 := l) else s.(list1 := l)
  }

  function Flip(s: State): State { s.(current := if s.current == 0 then 1 else 0) }

  const INITIAL := State([], [], 0, {}, 0, [])

  // ---------- Lists ----------

  ghost predicate Sorted(l: seq<Entry>) { forall i, j :: 0 <= i < j < |l| ==> l[i].reach <= l[j].reach }

  /** multimap insert: after the entries with the same time. */
  function Insert(l: seq<Entry>, e: Entry): (r: seq<Entry>)
    ensures multiset(r) == multiset(l) + multiset{e}
  {
    if l == [] then [e]
    else if l[0].reach <= e.reach then
      assert l == [l[0]] + l[1..];
      [l[0]] + Insert(l[1..], e)
    else [e] + l
  }

  /** The entries whose time has come: the leading ones. */
  function Due(l: seq<Entry>, now: nat): (r: seq<Entry>)
    ensures r <= l
  {
    if l == [] || l[0].reach > now then [] else [l[0]] + Due(l[1..], now)
  }

  function Ids(l: seq<Entry>): set<nat> { set e | e in l :: e.id }

  // ---------- Operations ----------

  /** A request to add a timer: the clock when it is made, its length and its target. */
  datatype Add = Add(clock: nat, length: nat, objId: nat)

  predicate Accepts(a: Add) { a.length > 0 && a.objId > 0 }

  predicate Fresh(s: State, id: nat) { TIMER_ID_BEGIN <= id < ID_LIMIT && id !in s.ids }

  /** add_timer, with the id that gen_timerid found; a refused request changes nothing. */
  function Added(s: State, a: Add, id: nat): State {
    if !Accepts(a) then s
    else
      var e := Entry(a.clock + a.length, id, a.objId, s.accepted);
      WithList(s, s.current, Insert(List(s, s.current), e)).(ids := s.ids + {id}, accepted := s.accepted + 1)
  }

  function AddedAll(s: State, adds: seq<Add>, ids: seq<nat>): State
    requires |adds| == |ids|
    decreases |adds|
  {
    if adds == [] then s else AddedAll(Added(s, adds[0], ids[0]), adds[1..], ids[1..])
  }

  /** The ids the handlers were given were free when they were given. */
  ghost predicate AllFresh(s: State, adds: seq<Add>, ids: seq<nat>)
    requires |adds| == |ids|
    decreases |adds|
  {
    adds == [] ||
    ((Accepts(adds[0]) ==> Fresh(s, ids[0])) && AllFresh(Added(s, adds[0], ids[0]), adds[1..], ids[1..]))
  }

  /** check_timer: switch lists, fire what is due in the old one while the handlers add to the new one, then
      drop what was fired and release its ids. */
  function Checked(s: State, now: nat, adds: seq<Add>, ids: seq<nat>): State
    requires |adds| == |ids|
  {
    var k := if s.current == 0 then 0 else 1;
    var l := List(s, k);
    var s1 := AddedAll(Flip(s), adds, ids);
    WithList(s1, k, l[|Due(l, now)|..]).(ids := s1.ids - Ids(Due(l, now)), fired := s1.fired + Due(l, now))
  }

  // ---------- The invariant ----------

  function Pending(s: State): multiset<Entry> { multiset(s.list0) + multiset(s.list1) }

  function IdsOf(m: multiset<Entry>): set<nat> { set e | e in m :: e.id }

  /** Every entry occurs once, and no two have the same id. */
  ghost predicate OnceById(m: multiset<Entry>) {
    (forall e :: e in m ==> m[e] == 1) && forall e, f :: e in m && f in m && e.id == f.id ==> e == f
  }

  /** Every accepted timer is there exactly once. */
  ghost predicate OnceBySerial(m: multiset<Entry>, accepted: nat) {
    (forall e :: e in m ==> m[e] == 1 && e.serial < accepted) &&
    (forall e, f :: e in m && f in m && e.serial == f.serial ==> e == f) &&
    forall k :: 0 <= k < accepted ==> HasSerial(m, k)
  }

  ghost predicate HasSerial(m: multiset<Entry>, k: nat) { exists e :: e in m && e.serial == k }

  ghost predicate Inv(s: State) {
    s.current < 2 && Sorted(s.list0) && Sorted(s.list1) &&
    OnceById(Pending(s)) && s.ids == IdsOf(Pending(s)) &&
    OnceBySerial(Pending(s) + multiset(s.fired), s.accepted)
  }

  ghost predicate NotBefore(l: seq<Entry>, time: nat) { forall e :: e in l ==> time <= e.reach }

  lemma SortedCons(e: Entry, l: seq<Entry>)
    ensures Sorted([e] + l) <==> NotBefore(l, e.reach) && Sorted(l)
  {
    var all := [e] + l;
    if Sorted(all) {
      assert forall i :: 0 <= i < |l| ==> l[i] == all[i + 1] && all[0].reach <= all[i + 1].reach;
    }
  }

  lemma {:induction false} InsertSorted(l: seq<Entry>, e: Entry)
    requires Sorted(l)
    ensures Sorted(Insert(l, e))
  {
    hide Sorted;
    if l != [] {
      assert l == [l[0]] + l[1..];
      SortedCons(l[0], l[1..]);
      if l[0].reach <= e.reach {
        InsertSorted(l[1..], e);
        var r := Insert(l[1..], e);
        assert forall f :: f in r ==> f in multiset(r);
        SortedCons(l[0], r);
      } else {
        SortedCons(e, l);
      }
    } else {
      assert [e] == [e] + [];
      SortedCons(e, []);
      assert Sorted([]) by { NothingSorted(); }
    }
  }

  lemma NothingSorted()
    ensures Sorted([])
  {
  }

  lemma JoinsOnce(m: multiset<Entry>, e: Entry, accepted: nat)
    requires OnceBySerial(m, accepted) && e.serial == accepted
    ensures OnceBySerial(m + multiset{e}, accepted + 1)
  {
    var m' := m + multiset{e};
    assert e !in m;
    forall k | 0 <= k < accepted + 1
      ensures HasSerial(m', k)
    {
      if k < accepted {
        assert HasSerial(m, k);
        var f :| f in m && f.serial == k;
        assert f in m';
      } else {
        assert e in m';
      }
    }
  }

  lemma AddedKeeps(s: State, a: Add, id: nat)
    requires Inv(s) && (Accepts(a) ==> Fresh(s, id))
    ensures Inv(Added(s, a, id))
    ensures Added(s, a, id).current == s.current && Added(s, a, id).fired == s.fired
    ensures s.current == 0 ==> Added(s, a, id).list1 == s.list1
    ensures s.current == 1 ==> Added(s, a, id).list0 == s.list0
    ensures forall e :: e in Pending(s) ==> e in Pending(Added(s, a, id))
  {
    hide OnceById, OnceBySerial, Sorted, Insert, IdsOf;
    if Accepts(a) {
      var e := Entry(a.clock + a.length, id, a.objId, s.accepted);
      var s' := Added(s, a, id);
      InsertSorted(List(s, s.current), e);
      assert Pending(s') == Pending(s) + multiset{e};
      IdsJoin(Pending(s), e);
      JoinsOnce(Pending(s) + multiset(s.fired), e, s.accepted);
      assert Pending(s') + multiset(s'.fired) == Pending(s) + multiset(s.fired) + multiset{e};
    }
  }

  lemma IdsJoin(m: multiset<Entry>, e: Entry)
    requires OnceById(m) && e.id !in IdsOf(m)
    ensures OnceById(m + multiset{e}) && IdsOf(m + multiset{e}) == IdsOf(m) + {e.id}
  {
    var m' := m + multiset{e};
    assert e !in m;
    assert forall f :: f in m ==> f.id in IdsOf(m);
    assert forall f :: f in m' <==> f in m || f == e;
    assert forall f :: f in m ==> f in m';
    forall x | x in IdsOf(m)
      ensures x in IdsOf(m')
    {
      var f :| f in m && f.id == x;
      assert f in m';
    }
    assert e in m';
  }

  lemma {:induction false} AddedAllKeeps(s: State, adds: seq<Add>, ids: seq<nat>)
    requires |adds| == |ids| && Inv(s) && AllFresh(s, adds, ids)
    ensures var s' := AddedAll(s, adds, ids);
      Inv(s') && s'.current == s.current && s'.fired == s.fired &&
      (s.current == 0 ==> s'.list1 == s.list1) && (s.current == 1 ==> s'.list0 == s.list0) &&
      forall e :: e in Pending(s) ==> e in Pending(s')
    decreases |adds|
  {
    hide Inv, Added, Pending;
    if adds != [] {
      AddedKeeps(s, adds[0], ids[0]);
      AddedAllKeeps(Added(s, adds[0], ids[0]), adds[1..], ids[1..]);
    }
  }

  /** The due entries are exactly those whose time has come. */
  lemma {:induction false} DueExact(l: seq<Entry>, now: nat)
    requires Sorted(l)
    ensures forall e :: e in Due(l, now) <==> e in l && e.reach <= now
    ensures multiset(l) == multiset(Due(l, now)) + multiset(l[|Due(l, now)|..])
    ensures Sorted(l[|Due(l, now)|..])
  {
    if l != [] && l[0].reach <= now {
      DueExact(l[1..], now);
      assert l == [l[0]] + l[1..];
      assert forall e :: e in l ==> e == l[0] || e in l[1..];
    } else {
      assert forall i :: 0 <= i < |l| ==> l[0].reach <= l[i].reach;
    }
    assert l == Due(l, now) + l[|Due(l, now)|..];
  }

  lemma IdsLeave(m: multiset<Entry>, gone: multiset<Entry>)
    requires OnceById(m) && gone <= m
    ensures OnceById(m - gone) && IdsOf(m - gone) == IdsOf(m) - IdsOf(gone)
  {
    assert forall e :: e in gone ==> e in m && gone[e] == 1;
    assert forall e :: e in m - gone <==> e in m && e !in gone;
    forall x | x in IdsOf(m) - IdsOf(gone)
      ensures x in IdsOf(m - gone)
    {
      var e :| e in m && e.id == x;
      assert e !in gone;
      assert e in m - gone;
    }
    forall x | x in IdsOf(m - gone)
      ensures x in IdsOf(m) && x !in IdsOf(gone)
    {
      var e :| e in m - gone && e.id == x;
      assert e in m;
    }
  }

  /** Handlers add while the due entries fire; the switch of lists keeps the two apart. */
  lemma CheckedKeeps(s: State, now: nat, adds: seq<Add>, ids: seq<nat>)
    requires |adds| == |ids| && Inv(s) && AllFresh(Flip(s), adds, ids)
    ensures var s' := Checked(s, now, adds, ids);
      Inv(s') && s'.current == 1 - s.current &&
      s'.fired == s.fired + Due(List(s, s.current), now)
  {
    hide OnceById, OnceBySerial, Sorted, IdsOf, Due, AllFresh, Ids;
    var k := s.current;
    var l := List(s, k);
    var due := Due(l, now);
    var s1 := AddedAll(Flip(s), adds, ids);
    FlipKeeps(s);
    AddedAllKeeps(Flip(s), adds, ids);
    DueExact(l, now);
    assert List(s1, k) == l;
    DropKeeps(s1, Checked(s, now, adds, ids), k, due);
  }

  lemma FlipKeeps(s: State)
    requires Inv(s)
    ensures Inv(Flip(s)) && Pending(Flip(s)) == Pending(s)
  {
  }

  lemma DropKeeps(s1: State, s': State, k: nat, due: seq<Entry>)
    requires Inv(s1) && k < 2 && due <= List(s1, k)
    requires multiset(List(s1, k)) == multiset(due) + multiset(List(s1, k)[|due|..]) && Sorted(List(s1, k)[|due|..])
    requires s' == WithList(s1, k, List(s1, k)[|due|..]).(ids := s1.ids - Ids(due), fired := s1.fired + due)
    ensures Inv(s')
  {
    hide OnceById, OnceBySerial, Sorted, IdsOf, Ids;
    var rest := List(s1, k)[|due|..];
    assert Pending(s') + multiset(due) == Pending(s1);
    assert Pending(s') == Pending(s1) - multiset(due);
    IdsLeave(Pending(s1), multiset(due));
    IdsOfSeq(due);
    assert multiset(s'.fired) == multiset(s1.fired) + multiset(due);
    assert Pending(s') + multiset(s'.fired) == Pending(s1) + multiset(s1.fired);
  }

  lemma IdsOfSeq(l: seq<Entry>)
    ensures Ids(l) == IdsOf(multiset(l))
  {
    assert forall e :: e in l <==> e in multiset(l);
  }

  // ---------- What this means for a timer ----------

  /** Nothing fires before its time. */
  lemma NeverEarly(s: State, now: nat, adds: seq<Add>, ids: seq<nat>, e: Entry)
    requires |adds| == |ids| && Inv(s) && AllFresh(Flip(s), adds, ids)
    requires e in Pending(s) && e in Checked(s, now, adds, ids).fired
    ensures e.reach <= now
  {
    CheckedKeeps(s, now, adds, ids);
    DueExact(List(s, s.current), now);
    assert (Pending(s) + multiset(s.fired))[e] == 1;
    assert e !in s.fired;
  }

  /** A pending timer fires within two consecutive checks made at or after its time, whatever is added by
      the handlers and between the checks: s1 is the state after the first check, s2 the one before the second. */
  lemma FiresWithinTwo(s: State, e: Entry, now1: nat, adds1: seq<Add>, ids1: seq<nat>, s1: State,
      between: seq<Add>, idsBetween: seq<nat>, s2: State, now2: nat, adds2: seq<Add>, ids2: seq<nat>)
    requires Inv(s) && e in Pending(s) && e.reach <= now1 && e.reach <= now2
    requires |adds1| == |ids1| && AllFresh(Flip(s), adds1, ids1) && s1 == Checked(s, now1, adds1, ids1)
    requires |between| == |idsBetween| && AllFresh(s1, between, idsBetween) && s2 == AddedAll(s1, between, idsBetween)
    requires |adds2| == |ids2| && AllFresh(Flip(s2), adds2, ids2)
    ensures e in Checked(s2, now2, adds2, ids2).fired
  {
    hide Inv, Due, AllFresh, Checked, AddedAll, Pending, List, Flip;
    assert Inv(s1) && s1.current < 2 by {
      CheckedKeeps(s, now1, adds1, ids1);
      ListsSorted(s1);
    }
    FiredOrNext(s, e, now1, adds1, ids1);
    assert Inv(s2) && s2.fired == s1.fired by {
      AddedAllKeeps(s1, between, idsBetween);
    }
    if e in s1.fired {
      FiredStays(s2, e, now2, adds2, ids2);
    } else {
      AddedAllList(s1, between, idsBetween, e);
      FiresNow(s2, e, now2, adds2, ids2);
    }
  }

  lemma FiredStays(s: State, e: Entry, now: nat, adds: seq<Add>, ids: seq<nat>)
    requires |adds| == |ids| && Inv(s) && AllFresh(Flip(s), adds, ids) && e in s.fired
    ensures e in Checked(s, now, adds, ids).fired
  {
    hide Inv, Due, AllFresh, Checked;
    CheckedKeeps(s, now, adds, ids);
  }

  lemma FiresNow(s: State, e: Entry, now: nat, adds: seq<Add>, ids: seq<nat>)
    requires |adds| == |ids| && Inv(s) && AllFresh(Flip(s), adds, ids)
    requires e in List(s, s.current) && e.reach <= now
    ensures e in Checked(s, now, adds, ids).fired
  {
    hide Inv, Due, AllFresh, Checked;
    CheckedKeeps(s, now, adds, ids);
    ListsSorted(s);
    DueExact(List(s, s.current), now);
  }

  /** A check fires a timer whose time has come, or leaves it in the list the next check looks at. */
  lemma FiredOrNext(s: State, e: Entry, now: nat, adds: seq<Add>, ids: seq<nat>)
    requires |adds| == |ids| && Inv(s) && AllFresh(Flip(s), adds, ids)
    requires e in Pending(s) && e.reach <= now
    ensures var s' := Checked(s, now, adds, ids);
      e in s'.fired || e in List(s', s'.current)
  {
    hide Inv, Due, AllFresh, Checked, Pending, List;
    ListsSorted(s);
    CheckedKeeps(s, now, adds, ids);
    if e in List(s, s.current) {
      FiresNow(s, e, now, adds, ids);
    } else {
      CheckedOther(s, now, adds, ids, e);
    }
  }

  lemma ListsSorted(s: State)
    requires Inv(s)
    ensures s.current < 2 && Sorted(List(s, s.current))
    ensures forall e :: e in Pending(s) <==> e in List(s, s.current) || e in List(s, 1 - s.current)
  {
  }

  lemma {:induction false} AddedAllList(s: State, adds: seq<Add>, ids: seq<nat>, e: Entry)
    requires |adds| == |ids| && s.current < 2 && e in List(s, s.current)
    ensures AddedAll(s, adds, ids).current == s.current
    ensures e in List(AddedAll(s, adds, ids), s.current)
    decreases |adds|
  {
    if adds != [] {
      var s1 := Added(s, adds[0], ids[0]);
      if Accepts(adds[0]) {
        var x := Entry(adds[0].clock + adds[0].length, ids[0], adds[0].objId, s.accepted);
        assert e in multiset(List(s, s.current));
        assert e in multiset(Insert(List(s, s.current), x));
      }
      AddedAllList(s1, adds[1..], ids[1..], e);
    }
  }

  lemma CheckedOther(s: State, now: nat, adds: seq<Add>, ids: seq<nat>, e: Entry)
    requires |adds| == |ids| && s.current < 2 && e in List(s, 1 - s.current)
    ensures e in List(Checked(s, now, adds, ids), 1 - s.current)
  {
    AddedAllList(Flip(s), adds, ids, e);
  }

  // ---------- Every run ----------

  datatype Step = AddTimer(a: Add, id: nat) | Check(now: nat, adds: seq<Add>, ids: seq<nat>)

  ghost predicate Enabled(s: State, step: Step) {
    match step
    case AddTimer(a, id) => Accepts(a) ==> Fresh(s, id)
    case Check(now, adds, ids) => |adds| == |ids| && AllFresh(Flip(s), adds, ids)
  }

  function Apply(s: State, step: Step): State
    requires step.Check? ==> |step.adds| == |step.ids|
  {
    match step
    case AddTimer(a, id) => Added(s, a, id)
    case Check(now, adds, ids) => Checked(s, now, adds, ids)
  }

  ghost predicate Next(s: State, s': State) { exists step :: Enabled(s, step) && s' == Apply(s, step) }

  ghost predicate Execution(run: seq<State>) {
    run != [] && run[0] == INITIAL && forall n :: 0 <= n < |run| - 1 ==> Next(run[n], run[n + 1])
  }

  lemma {:induction false} ExecutionInv(run: seq<State>, n: nat)
    requires Execution(run) && n < |run|
    ensures Inv(run[n])
    ensures n > 0 ==> run[n - 1].fired <= run[n].fired
  {
    hide Inv, Added, Checked;
    if n == 0 {
      assert Inv(run[0]) by { InitialInv(); }
    } else {
      ExecutionInv(run, n - 1);
      assert Next(run[n - 1], run[n - 1 + 1]);
      var step :| Enabled(run[n - 1], step) && run[n] == Apply(run[n - 1], step);
      match step
      case AddTimer(a, id) => AddedKeeps(run[n - 1], a, id);
      case Check(now, adds, ids) => CheckedKeeps(run[n - 1], now, adds, ids);
    }
  }

  lemma InitialInv()
    ensures Inv(INITIAL)
  {
    assert IdsOf(multiset{}) == {};
  }

  /** Exactly once: every accepted timer is, at every point of every run, either pending once or fired once;
      the reserved ids are those of the pending timers, and no two pending timers share one. */
  lemma ExactlyOnce(run: seq<State>, n: nat, serial: nat) returns (e: Entry)
    requires Execution(run) && n < |run| && serial < run[n].accepted
    ensures e.serial == serial && (Pending(run[n]) + multiset(run[n].fired))[e] == 1
    ensures forall f :: f in Pending(run[n]) + multiset(run[n].fired) && f.serial == serial ==> f == e
    ensures run[n].ids == IdsOf(Pending(run[n])) && OnceById(Pending(run[n]))
  {
    ExecutionInv(run, n);
    assert HasSerial(Pending(run[n]) + multiset(run[n].fired), serial);
    e :| e in Pending(run[n]) + multiset(run[n].fired) && e.serial == serial;
  }
}
