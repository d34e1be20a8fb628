/** The capture task table and its manager as values (rxsafetaskmgr.h): what every operation computes.
    H is the type of task objects; a task object is its identity, its contents are in `Info`. */
module TaskTable {
  import opened Pdef

  datatype Status = Pending | Resolving | Running | Completed | Failed | Stopped

  predicate Active(s: Status) { s.Pending? || s.Resolving? || s.Running? }

  /** The part of a task that updaters fill in. */
  datatype Details = Details(
    worker: nat, startTime: int, endTime: int, capturePid: int,
    packets: nat, bytes: nat, outputFile: string, error: string)

  datatype Info = Info(captureId: int, key: string, signature: string, sid: string, status: Status, details: Details)

  datatype Entry<H> = Entry(obj: H, info: Info)

  datatype Table<H> = Table(
    slots: map<int, Entry<H>>,
    keyToId: map<string, int>,
    signatureToId: map<string, int>,
    sidToId: map<string, int>)

  datatype Counts = Counts(total: int, pending: int, resolving: int, running: int, completed: int, failed: int, stopped: int)

  /** The manager: the current table, the counters and the objects waiting to be deleted. */
  datatype Mgr<H> = Mgr(table: Table<H>, counts: Counts, pending: seq<H>)

  function Empty<H>(): Mgr<H> {
    Mgr(Table(map[], map[], map[], map[]), Counts(0, 0, 0, 0, 0, 0, 0), [])
  }

  // ---------- Counters ----------

  function CountOf(c: Counts, s: Status): int {
    match s
    case Pending => c.pending
    case Resolving => c.resolving
    case Running => c.running
    case Completed => c.completed
    case Failed => c.failed
    case Stopped => c.stopped
  }

  function Adjust(c: Counts, s: Status, n: int): Counts {
    var c' := c.(total := c.total + n);
    match s
    case Pending => c'.(pending := c.pending + n)
    case Resolving => c'.(resolving := c.resolving + n)
    case Running => c'.(running := c.running + n)
    case Completed => c'.(completed := c.completed + n)
    case Failed => c'.(failed := c.failed + n)
    case Stopped => c'.(stopped := c.stopped + n)
  }

  // ---------- Tables ----------

  /** Remove an index entry if it points to the given id. */
  function EraseIfOwn(index: map<string, int>, name: string, id: int): map<string, int> {
    if name != "" && name in index && index[name] == id then index - {name} else index
  }

  function Removed<H>(t: Table<H>, id: int): Table<H> {
    if id !in t.slots then t else
    var info := t.slots[id].info;
    Table(t.slots - {id}, t.keyToId - {info.key},
          EraseIfOwn(t.signatureToId, info.signature, id), EraseIfOwn(t.sidToId, info.sid, id))
  }

  /** The signature index after a task takes its present status: an active task claims its signature, a
      finished one gives it up. */
  function FollowStatus(index: map<string, int>, info: Info, id: int): map<string, int> {
    if info.signature == "" then index
    else if Active(info.status) then index[info.signature := id]
    else EraseIfOwn(index, info.signature, id)
  }

  function FollowSid(index: map<string, int>, info: Info, id: int): map<string, int> {
    if info.sid != "" then index[info.sid := id] else index
  }

  /** A new task claims its signature if it is active. */
  function Claim(index: map<string, int>, info: Info, id: int): map<string, int> {
    if info.signature != "" && Active(info.status) then index[info.signature := id] else index
  }

  function Inserted<H>(t: Table<H>, id: int, key: string, e: Entry<H>): Table<H> {
    Table(t.slots[id := e], t.keyToId[key := id], Claim(t.signatureToId, e.info, id), FollowSid(t.sidToId, e.info, id))
  }

  /** Replace the contents of a slot and follow its status in the signature index. */
  function Replaced<H>(t: Table<H>, id: int, e: Entry<H>): Table<H> {
    Table(t.slots[id := e], t.keyToId, FollowStatus(t.signatureToId, e.info, id), FollowSid(t.sidToId, e.info, id))
  }

  function Query<H>(t: Table<H>, id: int): Option<Info> {
    if id in t.slots then Some(t.slots[id].info) else None
  }

  function QueryBy<H>(t: Table<H>, index: map<string, int>, name: string): Option<Info> {
    if name in index then Query(t, index[name]) else None
  }

  function IfActive(info: Option<Info>): Option<Info> {
    if info.Some? && Active(info.value.status) then info else None
  }

  // ---------- Manager operations ----------

  /** Take a task out of the current table and leave it for deletion. */
  function Evict<H>(m: Mgr<H>, id: int): Mgr<H> {
    if id !in m.table.slots then m else
    var e := m.table.slots[id];
    Mgr(Removed(m.table, id), Adjust(m.counts, e.info.status, -1), m.pending + [e.obj])
  }

  /** The slot of a re-added id is emptied first; its index entries stay. */
  function Displace<H>(m: Mgr<H>, id: int): Mgr<H> {
    if id !in m.table.slots then m else
    var e := m.table.slots[id];
    Mgr(m.table.(slots := m.table.slots - {id}), Adjust(m.counts, e.info.status, -1), m.pending + [e.obj])
  }

  /** Evict the task an index entry points to, unless it is `id` itself. */
  function EvictVia<H>(m: Mgr<H>, index: map<string, int>, name: string, id: int): Mgr<H> {
    if name in index && index[name] != id then Evict(m, index[name]) else m
  }

  /** What an addition displaces: the same id, then the holders of the key, the signature and the sid. */
  function Cleared<H>(m: Mgr<H>, id: int, key: string, signature: string, sid: string): Mgr<H> {
    var m1 := Displace(m, id);
    var m2 := EvictVia(m1, m1.table.keyToId, key, id);
    var m3 := if signature != "" then EvictVia(m2, m2.table.signatureToId, signature, id) else m2;
    if sid != "" then EvictVia(m3, m3.table.sidToId, sid, id) else m3
  }

  function AddTask<H>(m: Mgr<H>, id: int, key: string, signature: string, sid: string, obj: H, info: Info): Mgr<H> {
    var c := Cleared(m, id, key, signature, sid);
    Mgr(Inserted(c.table, id, key, Entry(obj, info.(signature := signature, sid := sid))),
        Adjust(c.counts, info.status, 1), c.pending)
  }

  /** Put an updated copy in place of a task; the old object waits for deletion. */
  function Update<H>(m: Mgr<H>, id: int, obj: H, info: Info): Mgr<H>
    requires id in m.table.slots
  {
    var was := m.table.slots[id];
    Mgr(Replaced(m.table, id, Entry(obj, info)),
        Adjust(Adjust(m.counts, was.info.status, -1), info.status, 1), m.pending + [was.obj])
  }

  lemma UpdatedSlot<H>(m: Mgr<H>, id: int, obj: H, info: Info)
    requires id in m.table.slots
    ensures id in Update(m, id, obj, info).table.slots && Update(m, id, obj, info).table.slots[id] == Entry(obj, info)
  {
  }

  function Cleanup<H>(m: Mgr<H>): Mgr<H> { m.(pending := []) }

  // ---------- Counters agree with the table ----------

  function WithStatus<H>(slots: map<int, Entry<H>>, s: Status): set<int> {
    set id | id in slots && slots[id].info.status == s
  }

  ghost predicate CountsAgree<H>(m: Mgr<H>) {
    m.counts.total == |m.table.slots| && forall s :: CountOf(m.counts, s) == |WithStatus(m.table.slots, s)|
  }

  lemma TakenOut<H>(slots: map<int, Entry<H>>, id: int, s: Status)
    requires id in slots
    ensures |WithStatus(slots - {id}, s)| == |WithStatus(slots, s)| - (if slots[id].info.status == s then 1 else 0)
    ensures |slots - {id}| == |slots| - 1
  {
    assert WithStatus(slots - {id}, s) == WithStatus(slots, s) - {id};
    assert (slots - {id}).Keys == slots.Keys - {id};
    assert |(slots - {id}).Keys| == |slots - {id}| && |slots.Keys| == |slots|;
  }

  lemma PutIn<H>(slots: map<int, Entry<H>>, id: int, e: Entry<H>, s: Status)
    requires id !in slots
    ensures |WithStatus(slots[id := e], s)| == |WithStatus(slots, s)| + (if e.info.status == s then 1 else 0)
    ensures |slots[id := e]| == |slots| + 1
  {
    var more := slots[id := e];
    assert more - {id} == slots;
    TakenOut(more, id, s);
  }

  lemma TakeOutCounts<H>(m: Mgr<H>, m': Mgr<H>, id: int)
    requires CountsAgree(m) && id in m.table.slots
    requires m'.table.slots == m.table.slots - {id}
    requires m'.counts == Adjust(m.counts, m.table.slots[id].info.status, -1)
    ensures CountsAgree(m')
  {
    forall s
      ensures CountOf(m'.counts, s) == |WithStatus(m'.table.slots, s)|
    {
      TakenOut(m.table.slots, id, s);
    }
    TakenOut(m.table.slots, id, Pending);
  }

  lemma EvictCounts<H>(m: Mgr<H>, id: int)
    requires CountsAgree(m)
    ensures CountsAgree(Evict(m, id)) && CountsAgree(Displace(m, id))
  {
    if id in m.table.slots {
      TakeOutCounts(m, Evict(m, id), id);
      TakeOutCounts(m, Displace(m, id), id);
    }
  }

  lemma ClearedCounts<H>(m: Mgr<H>, id: int, key: string, signature: string, sid: string)
    requires CountsAgree(m)
    ensures CountsAgree(Cleared(m, id, key, signature, sid))
    ensures id !in Cleared(m, id, key, signature, sid).table.slots
  {
    hide CountsAgree, Removed;
    var m1 := Displace(m, id);
    var m2 := EvictVia(m1, m1.table.keyToId, key, id);
    var m3 := if signature != "" then EvictVia(m2, m2.table.signatureToId, signature, id) else m2;
    EvictCounts(m, id);
    EvictViaKeeps(m1, m1.table.keyToId, key, id);
    EvictViaKeeps(m2, m2.table.signatureToId, signature, id);
    EvictViaKeeps(m3, m3.table.sidToId, sid, id);
  }

  lemma EvictViaKeeps<H>(m: Mgr<H>, index: map<string, int>, name: string, id: int)
    ensures CountsAgree(m) ==> CountsAgree(EvictVia(m, index, name, id))
    ensures id in EvictVia(m, index, name, id).table.slots ==> id in m.table.slots
  {
    if name in index && CountsAgree(m) {
      EvictCounts(m, index[name]);
    }
  }

  /** Counter agreement is kept by every addition, whatever it displaces. */
  lemma AddTaskCounts<H>(m: Mgr<H>, id: int, key: string, signature: string, sid: string, obj: H, info: Info)
    requires CountsAgree(m)
    ensures CountsAgree(AddTask(m, id, key, signature, sid, obj, info))
  {
    hide Cleared;
    var c := Cleared(m, id, key, signature, sid);
    var e := Entry(obj, info.(signature := signature, sid := sid));
    ClearedCounts(m, id, key, signature, sid);
    var m' := AddTask(m, id, key, signature, sid, obj, info);
    forall s
      ensures CountOf(m'.counts, s) == |WithStatus(m'.table.slots, s)|
    {
      PutIn(c.table.slots, id, e, s);
    }
    PutIn(c.table.slots, id, e, Pending);
  }

  lemma UpdateCounts<H>(m: Mgr<H>, id: int, obj: H, info: Info)
    requires CountsAgree(m) && id in m.table.slots
    ensures CountsAgree(Update(m, id, obj, info))
  {
    var slots := m.table.slots;
    var e := Entry(obj, info);
    var m' := Update(m, id, obj, info);
    assert slots[id := e] == (slots - {id})[id := e];
    forall s
      ensures CountOf(m'.counts, s) == |WithStatus(m'.table.slots, s)|
    {
      TakenOut(slots, id, s);
      PutIn(slots - {id}, id, e, s);
    }
    TakenOut(slots, id, Pending);
    PutIn(slots - {id}, id, e, Pending);
  }

  // ---------- Every object is in one place ----------

  function InTable<H>(slots: map<int, Entry<H>>): set<H> { set i | i in slots :: slots[i].obj }

  function Waiting<H>(pending: seq<H>): set<H> { set h | h in pending }

  /** The objects ever handed in are split, without repetition, into those in the table, those waiting for
      deletion and those deleted. */
  ghost predicate Owned<H>(m: Mgr<H>, ever: set<H>, freed: set<H>) {
    (forall i, j :: i in m.table.slots && j in m.table.slots && m.table.slots[i].obj == m.table.slots[j].obj ==> i == j) &&
    (forall i, j :: 0 <= i < j < |m.pending| ==> m.pending[i] != m.pending[j]) &&
    InTable(m.table.slots) !! Waiting(m.pending) !! freed &&
    ever == InTable(m.table.slots) + Waiting(m.pending) + freed
  }

  lemma TakeOutOwned<H>(m: Mgr<H>, m': Mgr<H>, id: int, ever: set<H>, freed: set<H>)
    requires Owned(m, ever, freed) && id in m.table.slots
    requires m'.table.slots == m.table.slots - {id} && m'.pending == m.pending + [m.table.slots[id].obj]
    ensures Owned(m', ever, freed)
  {
    var h := m.table.slots[id].obj;
    assert h in InTable(m.table.slots);
    forall x | x in InTable(m.table.slots) && x != h
      ensures x in InTable(m'.table.slots)
    {
      var i :| i in m.table.slots && m.table.slots[i].obj == x;
      assert i in m'.table.slots && m'.table.slots[i].obj == x;
    }
    assert InTable(m'.table.slots) == InTable(m.table.slots) - {h};
    assert Waiting(m'.pending) == Waiting(m.pending) + {h};
  }

  lemma EvictOwned<H>(m: Mgr<H>, id: int, ever: set<H>, freed: set<H>)
    requires Owned(m, ever, freed)
    ensures Owned(Evict(m, id), ever, freed) && Owned(Displace(m, id), ever, freed)
  {
    if id in m.table.slots {
      TakeOutOwned(m, Evict(m, id), id, ever, freed);
      TakeOutOwned(m, Displace(m, id), id, ever, freed);
    }
  }

  lemma EvictViaOwned<H>(m: Mgr<H>, index: map<string, int>, name: string, id: int, ever: set<H>, freed: set<H>)
    requires Owned(m, ever, freed)
    ensures Owned(EvictVia(m, index, name, id), ever, freed)
  {
    hide Owned;
    if name in index {
      EvictOwned(m, index[name], ever, freed);
    }
  }

  lemma ClearedOwned<H>(m: Mgr<H>, id: int, key: string, signature: string, sid: string, ever: set<H>, freed: set<H>)
    requires Owned(m, ever, freed)
    ensures Owned(Cleared(m, id, key, signature, sid), ever, freed)
    ensures id !in Cleared(m, id, key, signature, sid).table.slots
  {
    hide Owned, Evict, EvictVia;
    var m1 := Displace(m, id);
    var m2 := EvictVia(m1, m1.table.keyToId, key, id);
    var m3 := if signature != "" then EvictVia(m2, m2.table.signatureToId, signature, id) else m2;
    EvictOwned(m, id, ever, freed);
    EvictViaOwned(m1, m1.table.keyToId, key, id, ever, freed);
    EvictViaOwned(m2, m2.table.signatureToId, signature, id, ever, freed);
    EvictViaOwned(m3, m3.table.sidToId, sid, id, ever, freed);
    EvictViaKeeps(m1, m1.table.keyToId, key, id);
    EvictViaKeeps(m2, m2.table.signatureToId, signature, id);
    EvictViaKeeps(m3, m3.table.sidToId, sid, id);
  }

  lemma AddTaskOwned<H>(m: Mgr<H>, id: int, key: string, signature: string, sid: string, obj: H, info: Info,
      ever: set<H>, freed: set<H>)
    requires Owned(m, ever, freed) && obj !in ever
    ensures Owned(AddTask(m, id, key, signature, sid, obj, info), ever + {obj}, freed)
  {
    hide Cleared;
    var c := Cleared(m, id, key, signature, sid);
    ClearedOwned(m, id, key, signature, sid, ever, freed);
    PutInOwned(c, AddTask(m, id, key, signature, sid, obj, info), id, obj, ever, freed);
  }

  lemma PutInOwned<H>(m: Mgr<H>, m': Mgr<H>, id: int, obj: H, ever: set<H>, freed: set<H>)
    requires Owned(m, ever, freed) && obj !in ever && id !in m.table.slots
    requires id in m'.table.slots && m'.table.slots[id].obj == obj && m'.pending == m.pending
    requires m'.table.slots - {id} == m.table.slots
    ensures Owned(m', ever + {obj}, freed)
  {
    assert forall i :: i in m.table.slots ==> i in m'.table.slots && m'.table.slots[i] == m.table.slots[i];
    assert forall i :: i in m'.table.slots && i != id ==> i in m'.table.slots - {id};
    assert forall i :: i in m.table.slots ==> m.table.slots[i].obj in InTable(m.table.slots);
    assert InTable(m'.table.slots) == InTable(m.table.slots) + {obj};
  }

  lemma UpdateOwned<H>(m: Mgr<H>, id: int, obj: H, info: Info, ever: set<H>, freed: set<H>)
    requires Owned(m, ever, freed) && id in m.table.slots && obj !in ever
    ensures Owned(Update(m, id, obj, info), ever + {obj}, freed)
  {
    hide Owned;
    EvictOwned(m, id, ever, freed);
    var m' := Update(m, id, obj, info);
    assert m'.table.slots - {id} == m.table.slots - {id};
    PutInOwned(Displace(m, id), m', id, obj, ever, freed);
  }

  lemma CleanupOwned<H>(m: Mgr<H>, ever: set<H>, freed: set<H>)
    requires Owned(m, ever, freed)
    ensures Owned(Cleanup(m), ever, freed + Waiting(m.pending))
  {
    var none: seq<H> := [];
    assert Waiting(none) == {};
  }
}
