/** The timer object (core/legacy_core_net.cpp, class base_timer), proved against `Timers`. */
module BaseTimer {
  import opened Sets
  import opened Timers

  /** What a handler does when its timer fires: the timers it adds, and whether it throws. */
  datatype Reaction = Reaction(adds: seq<Add>, throws: bool)

  function AllAdds(reactions: seq<Reaction>): seq<Add> {
    if reactions == [] then [] else reactions[0].adds + AllAdds(reactions[1..])
  }

  /** The targets of the due timers whose handlers throw, in the order in which they fire. */
  function FailedTargets(due: seq<Entry>, reactions: seq<Reaction>): seq<nat>
    requires |due| == |reactions|
  {
    if due == [] then []
    else
      var last := |due| - 1;
      FailedTargets(due[..last], reactions[..last]) + if reactions[last].throws then [due[last].objId] else []
  }

  const USABLE: nat := ID_LIMIT - TIMER_ID_BEGIN

  /** The numbers from lo up to, but not including, hi. */
  function Range(lo: nat, hi: nat): (r: set<nat>)
    ensures forall x :: x in r <==> lo <= x < hi
    ensures lo <= hi ==> |r| == hi - lo
    decreases hi
  {
    if lo >= hi then {} else Range(lo, hi - 1) + {hi - 1}
  }

  /** As long as fewer ids are reserved than there are, one is free. */
  lemma SomeFree(ids: set<nat>) returns (free: nat)
    requires |ids| < USABLE
    ensures TIMER_ID_BEGIN <= free < ID_LIMIT && free !in ids
  {
    var all := Range(TIMER_ID_BEGIN, ID_LIMIT);
    if forall x :: x in all ==> x in ids {
      SubsetSize(all, ids);
      assert false;
    }
    free :| free in all && free !in ids;
  }

  /** Increment as a 32-bit number, skipping the ids below the first one. */
  function NextId(id: nat): nat {
    var next := (id + 1) % ID_LIMIT;
    if next < TIMER_ID_BEGIN then TIMER_ID_BEGIN else next
  }

  /** How many increments lead from one id to another. */
  ghost function Distance(id: nat, target: nat): nat
    requires TIMER_ID_BEGIN <= id < ID_LIMIT && TIMER_ID_BEGIN <= target < ID_LIMIT
  {
    if id <= target then target - id else (ID_LIMIT - id) + (target - TIMER_ID_BEGIN)
  }

  ghost predicate SomeIdFree(used: set<nat>) { exists id: nat :: TIMER_ID_BEGIN <= id < ID_LIMIT && id !in used }

  /** The id that is tried after n increments. */
  function Tried(id: nat, n: nat): nat { if n == 0 then id else NextId(Tried(id, n - 1)) }

  lemma {:induction false} TriedUsable(id: nat, n: nat)
    requires TIMER_ID_BEGIN <= id < ID_LIMIT
    ensures TIMER_ID_BEGIN <= Tried(id, n) < ID_LIMIT
  {
    if n > 0 {
      TriedUsable(id, n - 1);
    }
  }

  lemma {:induction false} TriedFrom(id: nat, n: nat)
    ensures Tried(id, n + 1) == Tried(NextId(id), n)
  {
    if n > 0 {
      TriedFrom(id, n - 1);
    }
  }

  lemma {:induction false} TriesAll(id: nat, target: nat) returns (n: nat)
    requires TIMER_ID_BEGIN <= id < ID_LIMIT && TIMER_ID_BEGIN <= target < ID_LIMIT
    ensures Tried(id, n) == target
    decreases Distance(id, target)
  {
    n := 0;
    if id != target {
      var m := TriesAll(NextId(id), target);
      TriedFrom(id, m);
      n := m + 1;
    }
  }

  /** The loop that looks for an id ends if and only if some id is free. */
  lemma SearchEndsExactly(used: set<nat>, id: nat)
    requires TIMER_ID_BEGIN <= id < ID_LIMIT
    ensures (exists n: nat :: n > 0 && Tried(id, n) !in used) <==> SomeIdFree(used)
  {
    if SomeIdFree(used) {
      var free: nat :| TIMER_ID_BEGIN <= free < ID_LIMIT && free !in used;
      var m := TriesAll(NextId(id), free);
      TriedFrom(id, m);
      assert Tried(id, m + 1) !in used;
    }
    if n: nat :| n > 0 && Tried(id, n) !in used {
      TriedUsable(id, n);
    }
  }

  class BaseTimerList {
    var timerList0: seq<Entry>
    var timerList1: seq<Entry>
    var timerIdSet: set<nat>
    var timerId: nat
    var current: nat
    /** Numbers the accepted timers, so that they can be told apart when ids are used again. */
    var accepted: nat
    /** The timers that have fired. */
    ghost var fired: seq<Entry>

    ghost function Abstract(): State
      reads this
    {
      State(timerList0, timerList1, current, timerIdSet, accepted, fired)
    }

    ghost predicate Valid()
      reads this
    {
      current < 2 && TIMER_ID_BEGIN <= timerId < ID_LIMIT
    }

    constructor ()
      ensures Valid() && Abstract() == INITIAL
    {
      timerList0, timerList1, timerIdSet := [], [], {};
      timerId := TIMER_ID_BEGIN;
      current := 0;
      accepted, fired := 0, [];
    }

    /** The next id in cyclic order that is not reserved.  When there is none, the loop of the code does not end. */
    method GenTimerId() returns (id: nat)
      requires Valid() && SomeIdFree(timerIdSet)
      modifies this`timerId, this`timerIdSet
      ensures Valid() && Fresh(old(Abstract()), id) && timerIdSet == old(timerIdSet) + {id}
      ensures |timerIdSet| == |old(timerIdSet)| + 1
    {
      ghost var free :| TIMER_ID_BEGIN <= free < ID_LIMIT && free !in timerIdSet;
      timerId := NextId(timerId);
      while timerId in timerIdSet
        invariant TIMER_ID_BEGIN <= timerId < ID_LIMIT && timerIdSet == old(timerIdSet)
        decreases Distance(timerId, free)
      {
        timerId := NextId(timerId);
      }
      timerIdSet := timerIdSet + {timerId};
      return timerId;
    }

    method AddTimer(a: Add) returns (id: nat)
      requires Valid() && |timerIdSet| < USABLE
      modifies this`timerList0, this`timerList1, this`timerIdSet, this`timerId, this`accepted
      ensures Valid() && (Accepts(a) ==> Fresh(old(Abstract()), id)) && (!Accepts(a) ==> id == 0)
      ensures Abstract() == Added(old(Abstract()), a, id)
      ensures |timerIdSet| <= |old(timerIdSet)| + 1
    {
      hide Insert;
      if a.length == 0 || a.objId == 0 {
        return 0;
      }
      var reachTime := a.clock + a.length;
      ghost var free := SomeFree(timerIdSet);
      id := GenTimerId();
      var entry := Entry(reachTime, id, a.objId, accepted);
      if current == 0 {
        timerList0 := Insert(timerList0, entry);
      } else {
        timerList1 := Insert(timerList1, entry);
      }
      accepted := accepted + 1;
    }

    /** A handler runs: it may add timers. */
    method HandleTimeout(adds: seq<Add>) returns (ids: seq<nat>)
      requires Valid() && |timerIdSet| + |adds| <= USABLE
      modifies this`timerList0, this`timerList1, this`timerIdSet, this`timerId, this`accepted
      ensures Valid() && |ids| == |adds| && AllFresh(old(Abstract()), adds, ids)
      ensures Abstract() == AddedAll(old(Abstract()), adds, ids)
      ensures |timerIdSet| <= |old(timerIdSet)| + |adds|
      decreases |adds|
    {
      if |adds| == 0 {
        return [];
      }
      hide Added;
      var id := AddTimer(adds[0]);
      var rest := HandleTimeout(adds[1..]);
      ids := [id] + rest;
      assert ids[1..] == rest;
    }

    /** Fires what is due in the current list while handlers add to the other one.  `failed` collects the
        targets whose handlers threw. */
    method CheckTimer(now: nat, reactions: seq<Reaction>) returns (failed: seq<nat>, ghost adds: seq<Add>, ghost ids: seq<nat>)
      requires Valid() && Sorted(List(Abstract(), current))
      requires |reactions| == |Due(List(Abstract(), current), now)|
      requires |timerIdSet| + |AllAdds(reactions)| <= USABLE
      modifies this
      ensures Valid() && adds == AllAdds(reactions) && |ids| == |adds|
      ensures AllFresh(Flip(old(Abstract())), adds, ids)
      ensures Abstract() == Checked(old(Abstract()), now, adds, ids)
      ensures failed == FailedTargets(Due(List(old(Abstract()), old(current)), now), reactions)
    {
      hide AddedAll, AllFresh, Due, Sorted, AllAdds, Checked, FailedTargets;
      ghost var s := Abstract();
      var k := current;
      var list := if k == 0 then timerList0 else timerList1;
      current := 1 - current;
      ghost var due := Due(list, now);
      DueStops(list, now, 0);
      failed, adds, ids := [], [], [];
      assert Abstract() == AddedAll(Flip(s), [], []) && AllFresh(Flip(s), [], []) by { NothingAdded(Flip(s)); }
      assert AllAdds(reactions[..0]) == [] && FailedTargets(due[..0], reactions[..0]) == [] by { NoReactions(); }
      var keys: seq<nat> := [];
      var it := 0;
      while it < |list| && list[it].reach <= now
        invariant 0 <= it <= |due| && |keys| == it && forall j :: 0 <= j < it ==> keys[j] == list[j].reach
        invariant Valid() && current == 1 - k && List(Abstract(), k) == list && Abstract().fired == s.fired
        invariant adds == AllAdds(reactions[..it]) && |ids| == |adds| && AllFresh(Flip(s), adds, ids)
        invariant Abstract() == AddedAll(Flip(s), adds, ids)
        invariant |timerIdSet| <= |s.ids| + |adds|
        invariant it <= |reactions| && failed == FailedTargets(due[..it], reactions[..it])
      {
        DueAt(list, now, it);
        keys := keys + [list[it].reach];
        AllAddsStep(reactions, it);
        ghost var more;
        more := FireOne(k, s, adds, ids, reactions[it].adds);
        FailedStep(due, reactions, it);
        if reactions[it].throws {
          failed := failed + [list[it].objId];
        }
        adds := adds + reactions[it].adds;
        ids := ids + more;
        it := it + 1;
      }
      DueStops(list, now, it);
      assert reactions[..it] == reactions && due[..it] == due;
      EraseKeys(k, list, keys, now);
      fired := fired + due;
      CheckedIs(s, k, list, now, adds, ids);
    }

    /** One handler runs in the middle of a check. */
    method FireOne(k: nat, ghost s: State, ghost adds: seq<Add>, ghost ids: seq<nat>, more: seq<Add>)
      returns (ghost moreIds: seq<nat>)
      requires Valid() && k < 2 && current == 1 - k && |timerIdSet| + |more| <= USABLE
      requires |ids| == |adds| && AllFresh(Flip(s), adds, ids) && Abstract() == AddedAll(Flip(s), adds, ids)
      modifies this`timerList0, this`timerList1, this`timerIdSet, this`timerId, this`accepted
      ensures Valid() && |moreIds| == |more| && |timerIdSet| <= |old(timerIdSet)| + |more|
      ensures List(Abstract(), k) == List(old(Abstract()), k)
      ensures AllFresh(Flip(s), adds + more, ids + moreIds)
      ensures Abstract() == AddedAll(Flip(s), adds + more, ids + moreIds)
    {
      hide AddedAll, AllFresh;
      ghost var before := Abstract();
      var given := HandleTimeout(more);
      moreIds := given;
      AddedAllAppend(Flip(s), adds, ids, more, moreIds);
      AddedAllKeepsOther(before, more, moreIds, k);
    }

    /** Drop the entries with the given times and release their ids. */
    method EraseKeys(k: nat, list: seq<Entry>, keys: seq<nat>, ghost now: nat)
      requires k < 2 && List(Abstract(), k) == list && Sorted(list)
      requires |keys| == |Due(list, now)| && forall j :: 0 <= j < |keys| ==> keys[j] == list[j].reach
      modifies this`timerList0, this`timerList1, this`timerIdSet
      ensures Abstract() == WithList(old(Abstract()), k, list[|Due(list, now)|..]).(ids := old(timerIdSet) - Ids(Due(list, now)))
    {
      hide Due, Ids, Erased, Sorted, GoneIds, IdsAt, Without;
      var left := list;
      NothingGone(list);
      for j := 0 to |keys|
        invariant timerList0 == old(timerList0) && timerList1 == old(timerList1)
        invariant Erased(left, keys[j..]) == Erased(list, keys)
        invariant timerIdSet == old(timerIdSet) - GoneIds(list, left)
        invariant Within(left, list)
      {
        assert keys[j..][0] == keys[j] && keys[j..][1..] == keys[j + 1..];
        ErasedStep(left, keys[j..]);
        GoneStep(list, left, keys[j]);
        timerIdSet := timerIdSet - IdsAt(left, keys[j]);
        left := Without(left, keys[j]);
      }
      ErasedEnd(left, keys[|keys|..]);
      DueErased(list, now, keys);
      DueGone(list, now);
      if k == 0 {
        timerList0 := left;
      } else {
        timerList1 := left;
      }
    }
  }

  lemma FailedStep(due: seq<Entry>, reactions: seq<Reaction>, i: nat)
    requires i < |due| == |reactions|
    ensures FailedTargets(due[..i + 1], reactions[..i + 1]) ==
            FailedTargets(due[..i], reactions[..i]) + if reactions[i].throws then [due[i].objId] else []
  {
    assert due[..i + 1][..i] == due[..i] && reactions[..i + 1][..i] == reactions[..i];
  }

  lemma NothingAdded(s: State)
    ensures AddedAll(s, [], []) == s && AllFresh(s, [], [])
  {
  }

  lemma NoReactions()
    ensures forall r: seq<Reaction> :: r == [] ==> AllAdds(r) == []
    ensures forall due: seq<Entry>, r: seq<Reaction> :: |due| == |r| && due == [] ==> FailedTargets(due, r) == []
  {
  }

  lemma CheckedIs(s: State, k: nat, list: seq<Entry>, now: nat, adds: seq<Add>, ids: seq<nat>)
    requires |adds| == |ids| && k < 2 && s.current == k && list == List(s, k)
    ensures var s1 := AddedAll(Flip(s), adds, ids);
      s1.fired == s.fired && s1.current == 1 - k && List(s1, k) == list &&
      Checked(s, now, adds, ids) ==
        WithList(s1, k, list[|Due(list, now)|..]).(ids := s1.ids - Ids(Due(list, now)), fired := s1.fired + Due(list, now))
  {
    AddedAllKeepsOther(Flip(s), adds, ids, k);
  }

  // ---------- Facts about lists ----------

  function Without(l: seq<Entry>, key: nat): seq<Entry> {
    if l == [] then [] else if l[0].reach == key then Without(l[1..], key) else [l[0]] + Without(l[1..], key)
  }

  function Erased(l: seq<Entry>, keys: seq<nat>): seq<Entry>
    decreases |keys|
  {
    if keys == [] then l else Erased(Without(l, keys[0]), keys[1..])
  }

  lemma ErasedStep(l: seq<Entry>, keys: seq<nat>)
    requires keys != []
    ensures Erased(l, keys) == Erased(Without(l, keys[0]), keys[1..])
  {
  }

  lemma ErasedEnd(l: seq<Entry>, keys: seq<nat>)
    requires keys == []
    ensures Erased(l, keys) == l
  {
  }

  /** The ids of the entries with a given time. */
  function IdsAt(l: seq<Entry>, key: nat): set<nat> { set e | e in l && e.reach == key :: e.id }

  /** The ids of the entries that have been dropped. */
  ghost function GoneIds(list: seq<Entry>, left: seq<Entry>): set<nat> { set e | e in list && e !in left :: e.id }

  ghost predicate Within(left: seq<Entry>, list: seq<Entry>) { forall e :: e in left ==> e in list }

  lemma NothingGone(list: seq<Entry>)
    ensures GoneIds(list, list) == {} && Within(list, list)
  {
  }

  lemma GoneStep(list: seq<Entry>, left: seq<Entry>, key: nat)
    requires Within(left, list)
    ensures GoneIds(list, Without(left, key)) == GoneIds(list, left) + IdsAt(left, key)
    ensures Within(Without(left, key), list)
  {
    WithoutMembers(left, key);
    hide Without;
    assert forall e :: e in list && e !in Without(left, key) <==> (e in list && e !in left) || (e in left && e.reach == key);
  }

  lemma DueGone(list: seq<Entry>, now: nat)
    requires Sorted(list)
    ensures GoneIds(list, list[|Due(list, now)|..]) == Ids(Due(list, now))
  {
    DueMembers(list, now);
    hide Due;
    assert forall e :: e in list && e !in list[|Due(list, now)|..] <==> e in Due(list, now);
  }

  lemma {:induction false} WithoutMembers(l: seq<Entry>, key: nat)
    ensures forall e :: e in Without(l, key) <==> e in l && e.reach != key
  {
    if l != [] {
      WithoutMembers(l[1..], key);
      assert l == [l[0]] + l[1..];
    }
  }

  ghost predicate NoneAt(l: seq<Entry>, key: nat) { forall e :: e in l ==> e.reach != key }

  lemma {:induction false} WithoutAppend(a: seq<Entry>, b: seq<Entry>, key: nat)
    requires NoneAt(b, key)
    ensures Without(a + b, key) == Without(a, key) + b
  {
    if a == [] {
      WithoutNothing(b, key);
      assert a + b == b;
    } else {
      hide NoneAt;
      WithoutAppend(a[1..], b, key);
      assert (a + b)[1..] == a[1..] + b && (a + b)[0] == a[0];
    }
  }

  lemma {:induction false} WithoutNothing(b: seq<Entry>, key: nat)
    requires forall e :: e in b ==> e.reach != key
    ensures Without(b, key) == b
  {
    if b != [] {
      WithoutNothing(b[1..], key);
      assert b[0] in b;
    }
  }

  lemma HeadIn(a: seq<Entry>)
    requires a != []
    ensures a[0] in a
  {
  }

  /** Erasing all the times of `a`, and none of `b`, leaves b. */
  lemma {:induction false} ErasedAppend(a: seq<Entry>, b: seq<Entry>, keys: seq<nat>)
    requires forall e :: e in a ==> e.reach in keys
    requires forall e :: e in b ==> e.reach !in keys
    ensures Erased(a + b, keys) == b
    decreases |keys|
  {
    if keys == [] {
      if a != [] {
        HeadIn(a);
        assert false;
      }
      assert a + b == b;
    } else {
      WithoutAppend(a, b, keys[0]);
      WithoutMembers(a, keys[0]);
      ErasedAppend(Without(a, keys[0]), b, keys[1..]);
    }
  }

  /** The entries after the due ones are later than now. */
  lemma RestIsLater(list: seq<Entry>, now: nat)
    requires Sorted(list)
    ensures forall e :: e in list[|Due(list, now)|..] ==> e.reach > now
  {
    var n := |Due(list, now)|;
    DueStops(list, now, n);
    hide Due, Sorted;
    forall e | e in list[n..]
      ensures e.reach > now
    {
      var i :| 0 <= i < |list[n..]| && list[n..][i] == e;
      assert list[n + i] == e;
    }
  }

  lemma DueMembers(list: seq<Entry>, now: nat)
    requires Sorted(list)
    ensures forall e :: e in Due(list, now) <==> e in list && e !in list[|Due(list, now)|..]
  {
    DueExact(list, now);
    RestIsLater(list, now);
    hide Due, Sorted;
    var n := |Due(list, now)|;
    assert forall e :: e in list ==> e in multiset(list);
    assert forall e :: e in list[n..] ==> e in list;
  }

  lemma DueErased(list: seq<Entry>, now: nat, keys: seq<nat>)
    requires Sorted(list) && |keys| == |Due(list, now)|
    requires forall j :: 0 <= j < |keys| ==> keys[j] == list[j].reach
    ensures Erased(list, keys) == list[|Due(list, now)|..]
  {
    var due := Due(list, now);
    var rest := list[|due|..];
    DueExact(list, now);
    RestIsLater(list, now);
    assert list == due + rest;
    hide Due, Sorted, Erased;
    forall e | e in due
      ensures e.reach in keys
    {
      var j :| 0 <= j < |due| && due[j] == e;
      assert keys[j] == e.reach;
    }
    forall j | 0 <= j < |keys|
      ensures keys[j] <= now
    {
      assert due[j] in due;
    }
    ErasedAppend(due, rest, keys);
  }

  lemma {:induction false} DueAt(l: seq<Entry>, now: nat, i: nat)
    requires i < |l| && i <= |Due(l, now)| && l[i].reach <= now
    ensures i < |Due(l, now)| && Due(l, now)[i] == l[i]
  {
    if i > 0 {
      DueAt(l[1..], now, i - 1);
    }
  }

  /** The due entries end where the list ends or a later time begins. */
  lemma {:induction false} DueStops(l: seq<Entry>, now: nat, i: nat)
    requires i <= |Due(l, now)|
    requires Sorted(l)
    ensures i == |l| || (i < |l| && l[i].reach > now) ==> i == |Due(l, now)|
    ensures i == |Due(l, now)| ==> forall j :: i <= j < |l| ==> l[j].reach > now
  {
    if i > 0 {
      assert forall j :: 1 <= j < |l| ==> l[j] == l[1..][j - 1];
      DueStops(l[1..], now, i - 1);
    }
  }

  lemma {:induction false} AllAddsStep(reactions: seq<Reaction>, i: nat)
    requires i < |reactions|
    ensures AllAdds(reactions[..i + 1]) == AllAdds(reactions[..i]) + reactions[i].adds
    ensures |AllAdds(reactions[..i + 1])| <= |AllAdds(reactions)|
  {
    if i == 0 {
      assert reactions[..1][1..] == [] && reactions[..0] == [];
    } else {
      AllAddsStep(reactions[1..], i - 1);
      assert reactions[..i + 1][1..] == reactions[1..][..i] && reactions[..i][1..] == reactions[1..][..i - 1];
    }
  }

  lemma {:induction false} AddedAllAppend(s: State, a: seq<Add>, ia: seq<nat>, b: seq<Add>, ib: seq<nat>)
    requires |a| == |ia| && |b| == |ib| && AllFresh(s, a, ia) && AllFresh(AddedAll(s, a, ia), b, ib)
    ensures AddedAll(s, a + b, ia + ib) == AddedAll(AddedAll(s, a, ia), b, ib)
    ensures AllFresh(s, a + b, ia + ib)
    decreases |a|
  {
    hide Added;
    if a == [] {
      assert a + b == b && ia + ib == ib;
    } else {
      assert (a + b)[1..] == a[1..] + b && (ia + ib)[1..] == ia[1..] + ib;
      AddedAllAppend(Added(s, a[0], ia[0]), a[1..], ia[1..], b, ib);
    }
  }

  lemma {:induction false} AddedAllKeepsOther(s: State, adds: seq<Add>, ids: seq<nat>, k: nat)
    requires |adds| == |ids| && k < 2 && s.current == 1 - k
    ensures List(AddedAll(s, adds, ids), k) == List(s, k) && AddedAll(s, adds, ids).current == s.current
    ensures AddedAll(s, adds, ids).fired == s.fired
    decreases |adds|
  {
    if adds != [] {
      AddedAllKeepsOther(Added(s, adds[0], ids[0]), adds[1..], ids[1..], k);
    }
  }
}
