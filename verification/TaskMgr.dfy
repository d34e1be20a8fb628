/** The task manager with its two tables of task objects, updated copy-on-write (class CRxSafeTaskMgr). */
module TaskMgr {
  import opened Pdef
  import opened TaskTable

  class Task {
    var info: Info

    constructor (info: Info)
      ensures this.info == info
    {
      this.info := info;
    }
  }

  /** A table as it is stored: slots refer to task objects. */
  datatype RawTable = RawTable(
    slots: map<int, Task>,
    keyToId: map<string, int>,
    signatureToId: map<string, int>,
    sidToId: map<string, int>)
  {
    ghost function Contents(): (t: Table<Task>)
      reads slots.Values
      ensures t.keyToId == keyToId && t.signatureToId == signatureToId && t.sidToId == sidToId
    {
      Table(map id | id in slots :: Entry(slots[id], slots[id].info), keyToId, signatureToId, sidToId)
    }

    function Query(id: int): (r: Option<Info>)
      reads slots.Values
      ensures r == TaskTable.Query(Contents(), id)
    {
      if id in slots then Some(slots[id].info) else None
    }
  }

  class TaskManager {
    var tables: seq<RawTable>
    var curr: nat
    var counts: Counts
    var pendingDeletes: seq<Task>
    /** The objects deleted so far. */
    ghost var freed: set<Task>

    ghost predicate Valid()
      reads this
    {
      |tables| == 2 && curr < 2
    }

    ghost function Objects(): set<Task>
      reads this
    {
      if Valid() then tables[curr].slots.Values else {}
    }

    ghost function State(): Mgr<Task>
      requires Valid()
      reads this, Objects()
    {
      Mgr(tables[curr].Contents(), counts, pendingDeletes)
    }

    /** The state as it will be once the idle table is made current. */
    ghost function Idle(): Mgr<Task>
      requires Valid()
      reads this, tables[1 - curr].slots.Values
    {
      Mgr(tables[1 - curr].Contents(), counts, pendingDeletes)
    }

    constructor ()
      ensures Valid() && State() == Empty() && freed == {}
    {
      var none := RawTable(map[], map[], map[], map[]);
      tables := [none, none];
      curr := 0;
      counts := Counts(0, 0, 0, 0, 0, 0, 0);
      pendingDeletes := [];
      freed := {};
    }

    // ---------- Queries ----------

    method QueryTask(id: int) returns (r: Option<Info>)
      requires Valid()
      ensures r == Query(State().table, id)
    {
      r := tables[curr].Query(id);
    }

    method QueryTaskByKey(key: string) returns (r: Option<Info>)
      requires Valid()
      ensures r == QueryBy(State().table, State().table.keyToId, key)
    {
      var t := tables[curr];
      r := if key in t.keyToId then t.Query(t.keyToId[key]) else None;
    }

    method IsKeyActive(key: string) returns (active: bool)
      requires Valid()
      ensures active == IfActive(QueryBy(State().table, State().table.keyToId, key)).Some?
    {
      var r := QueryTaskByKey(key);
      active := r.Some? && Active(r.value.status);
    }

    method QueryActiveTaskBySignature(signature: string) returns (r: Option<Info>)
      requires Valid()
      ensures r == IfActive(QueryBy(State().table, State().table.signatureToId, signature))
    {
      var t := tables[curr];
      r := if signature in t.signatureToId then t.Query(t.signatureToId[signature]) else None;
      if r.Some? && !Active(r.value.status) {
        r := None;
      }
    }

    method QueryTaskBySid(sid: string) returns (r: Option<Info>)
      requires Valid()
      ensures r == QueryBy(State().table, State().table.sidToId, sid)
    {
      var t := tables[curr];
      r := if sid in t.sidToId then t.Query(t.sidToId[sid]) else None;
    }

    // ---------- Changes to the idle table ----------

    /** Take a task out of the idle table, count it out and leave the object for deletion. */
    method EvictFromIdle(ghost m: Mgr<Task>, id: int)
      requires Valid() && m == Idle()
      modifies this`tables, this`counts, this`pendingDeletes
      ensures Valid() && tables[curr] == old(tables[curr])
      ensures tables[1 - curr].slots.Values <= old(tables[1 - curr].slots.Values)
      ensures Evict(m, id) == Idle()
    {
      var t := tables[1 - curr];
      if id in t.slots {
        var task := t.slots[id];
        var info := task.info;
        t := RawTable(t.slots - {id}, t.keyToId - {info.key},
                      EraseIfOwn(t.signatureToId, info.signature, id), EraseIfOwn(t.sidToId, info.sid, id));
        tables := tables[1 - curr := t];
        counts := Adjust(counts, info.status, -1);
        pendingDeletes := pendingDeletes + [task];
        assert t.Contents().slots == m.table.slots - {id};
      }
    }

    /** Empty the slot of a re-added id in the idle table. */
    method DisplaceFromIdle(ghost m: Mgr<Task>, id: int)
      requires Valid() && m == Idle()
      modifies this`tables, this`counts, this`pendingDeletes
      ensures Valid() && tables[curr] == old(tables[curr])
      ensures tables[1 - curr].slots.Values <= old(tables[1 - curr].slots.Values)
      ensures Displace(m, id) == Idle()
    {
      var t := tables[1 - curr];
      if id in t.slots {
        var task := t.slots[id];
        t := t.(slots := t.slots - {id});
        tables := tables[1 - curr := t];
        counts := Adjust(counts, task.info.status, -1);
        pendingDeletes := pendingDeletes + [task];
        assert t.Contents().slots == m.table.slots - {id};
      }
    }

    method EvictFromIdleVia(ghost m: Mgr<Task>, index: map<string, int>, name: string, id: int)
      requires Valid() && m == Idle()
      modifies this`tables, this`counts, this`pendingDeletes
      ensures Valid() && tables[curr] == old(tables[curr])
      ensures tables[1 - curr].slots.Values <= old(tables[1 - curr].slots.Values)
      ensures EvictVia(m, index, name, id) == Idle()
    {
      hide Evict;
      if name in index && index[name] != id {
        EvictFromIdle(m, index[name]);
      }
    }

    method EvictFromIdleNamed(ghost m: Mgr<Task>, index: map<string, int>, name: string, id: int)
      requires Valid() && m == Idle()
      modifies this`tables, this`counts, this`pendingDeletes
      ensures Valid() && tables[curr] == old(tables[curr])
      ensures tables[1 - curr].slots.Values <= old(tables[1 - curr].slots.Values)
      ensures (if name != "" then EvictVia(m, index, name, id) else m) == Idle()
    {
      hide EvictVia;
      if name != "" {
        EvictFromIdleVia(m, index, name, id);
      }
    }

    method AddTask(captureId: int, key: string, signature: string, sid: string, task: Task) returns (ok: bool)
      requires Valid() && task !in Objects()
      modifies this`tables, this`curr, this`counts, this`pendingDeletes, task
      ensures Valid() && ok && Objects() <= old(Objects()) + {task}
      ensures task.info == old(task.info).(signature := signature, sid := sid)
      ensures State() == TaskTable.AddTask(old(State()), captureId, key, signature, sid, task, old(task.info))
    {
      hide Displace, Evict, EvictVia, Inserted, RawTable.Contents, Adjust;
      ghost var m := State();
      var idle := 1 - curr;
      tables := tables[idle := tables[curr]];
      DisplaceFromIdle(m, captureId);
      ghost var m1 := Displace(m, captureId);
      EvictFromIdleVia(m1, tables[idle].keyToId, key, captureId);
      ghost var m2 := EvictVia(m1, m1.table.keyToId, key, captureId);
      EvictFromIdleNamed(m2, tables[idle].signatureToId, signature, captureId);
      ghost var m3 := if signature != "" then EvictVia(m2, m2.table.signatureToId, signature, captureId) else m2;
      EvictFromIdleNamed(m3, tables[idle].sidToId, sid, captureId);
      ghost var c := Cleared(m, captureId, key, signature, sid);
      InsertIntoIdle(c.table, captureId, key, signature, sid, task);
      curr := idle;
      counts := Adjust(counts, task.info.status, 1);
      return true;
    }

    /** TaskTable::add_task on the idle table. */
    method InsertIntoIdle(ghost t: Table<Task>, captureId: int, key: string, signature: string, sid: string, task: Task)
      requires Valid() && t == tables[1 - curr].Contents() && task !in tables[1 - curr].slots.Values
      modifies this`tables, task
      ensures Valid() && tables[curr] == old(tables[curr])
      ensures tables[1 - curr].slots.Values <= old(tables[1 - curr].slots.Values) + {task}
      ensures task.info == old(task.info).(signature := signature, sid := sid)
      ensures tables[1 - curr].Contents() == Inserted(t, captureId, key, Entry(task, task.info))
    {
      task.info := task.info.(signature := signature, sid := sid);
      var raw := tables[1 - curr];
      var more := RawTable(raw.slots[captureId := task], raw.keyToId[key := captureId],
                           Claim(raw.signatureToId, task.info, captureId), FollowSid(raw.sidToId, task.info, captureId));
      assert more.Contents().slots == t.slots[captureId := Entry(task, task.info)];
      hide RawTable.Contents, Claim, FollowSid;
      tables := tables[1 - curr := more];
    }

    method RemoveTask(captureId: int)
      requires Valid()
      modifies this`tables, this`curr, this`counts, this`pendingDeletes
      ensures Valid() && Objects() <= old(Objects())
      ensures State() == Evict(old(State()), captureId)
    {
      tables := tables[1 - curr := tables[curr]];
      EvictFromIdle(State(), captureId);
      curr := 1 - curr;
    }

    // ---------- Copy-on-write updates of the current table ----------

    /** Replace the object of a slot by an updated copy; update_task with the updater given as a function. */
    method UpdateTask(captureId: int, updater: Info -> Info) returns (ok: bool)
      requires Valid()
      modifies this`tables, this`counts, this`pendingDeletes
      ensures Valid() && ok == (captureId in old(State()).table.slots)
      ensures !ok ==> State() == old(State())
      ensures ok ==> captureId in tables[curr].slots
      ensures ok ==>
        var copy := tables[curr].slots[captureId];
        fresh(copy) && Objects() <= old(Objects()) + {copy} &&
        State() == Update(old(State()), captureId, copy, updater(old(State()).table.slots[captureId].info))
    {
      var t := tables[curr];
      if captureId !in t.slots {
        return false;
      }
      ghost var m := State();
      var was := t.slots[captureId];
      var copy := new Task(was.info);
      var oldStatus := copy.info.status;
      copy.info := updater(copy.info);
      PutCopy(m.table, captureId, copy);
      if oldStatus != copy.info.status {
        counts := Adjust(Adjust(counts, oldStatus, -1), copy.info.status, 1);
      }
      pendingDeletes := pendingDeletes + [was];
      return true;
    }

    method UpdateStatus(captureId: int, status: Status) returns (ok: bool)
      requires Valid()
      modifies this`tables, this`counts, this`pendingDeletes
      ensures Valid() && ok == (captureId in old(State()).table.slots)
      ensures !ok ==> State() == old(State())
      ensures ok ==> captureId in tables[curr].slots
      ensures ok ==>
        var copy := tables[curr].slots[captureId];
        fresh(copy) && Objects() <= old(Objects()) + {copy} &&
        State() == Update(old(State()), captureId, copy, old(State()).table.slots[captureId].info.(status := status))
    {
      var t := tables[curr];
      if captureId !in t.slots {
        return false;
      }
      ghost var m := State();
      var was := t.slots[captureId];
      var copy := new Task(was.info);
      copy.info := copy.info.(status := status);
      PutCopy(m.table, captureId, copy);
      counts := Adjust(Adjust(counts, was.info.status, -1), status, 1);
      pendingDeletes := pendingDeletes + [was];
      return true;
    }

    /** The signature and sid entries follow the copy, then the copy takes the slot. */
    method PutCopy(ghost t: Table<Task>, captureId: int, copy: Task)
      requires Valid() && t == tables[curr].Contents() && captureId in tables[curr].slots
      modifies this`tables
      ensures Valid() && captureId in tables[curr].slots && tables[curr].slots[captureId] == copy
      ensures tables[curr].slots.Values <= old(tables[curr].slots.Values) + {copy}
      ensures tables[curr].Contents() == Replaced(t, captureId, Entry(copy, copy.info))
    {
      var raw := tables[curr];
      var info := copy.info;
      var next := RawTable(raw.slots[captureId := copy], raw.keyToId,
                           FollowStatus(raw.signatureToId, info, captureId), FollowSid(raw.sidToId, info, captureId));
      assert next.Contents().slots == t.slots[captureId := Entry(copy, info)];
      hide RawTable.Contents, FollowStatus, FollowSid;
      tables := tables[curr := next];
    }

    // ---------- Deferred deletion ----------

    /** Deletes what is waiting; each deletion frees an object that was not freed before. */
    method CleanupPendingDeletes()
      requires Valid()
      requires forall i, j :: 0 <= i < j < |pendingDeletes| ==> pendingDeletes[i] != pendingDeletes[j]
      requires forall h :: h in pendingDeletes ==> h !in freed
      modifies this`pendingDeletes, this`freed
      ensures Valid() && State() == Cleanup(old(State()))
      ensures freed == old(freed) + Waiting(old(pendingDeletes))
    {
      for i := 0 to |pendingDeletes|
        invariant pendingDeletes == old(pendingDeletes)
        invariant freed == old(freed) + set h | h in pendingDeletes[..i]
      {
        Delete(pendingDeletes[i]);
      }
      assert pendingDeletes[..|pendingDeletes|] == pendingDeletes;
      pendingDeletes := [];
    }

    /** The objects in the slots with ids below `n`. */
    static ghost function Below(slots: map<int, Task>, n: int): set<Task> {
      set i | i in slots && i < n :: slots[i]
    }

    lemma BelowStep(slots: map<int, Task>, n: int)
      requires forall i, j :: i in slots && j in slots && slots[i] == slots[j] ==> i == j
      ensures Below(slots, n + 1) == Below(slots, n) + if n in slots then {slots[n]} else {}
      ensures n in slots ==> slots[n] !in Below(slots, n)
    {
    }

    lemma BelowEnds(slots: map<int, Task>, lo: int, hi: int)
      requires forall i :: i in slots ==> lo <= i < hi
      ensures Below(slots, lo) == {} && Below(slots, hi) == set i | i in slots :: slots[i]
    {
    }

    /** Delete the objects of all slots, in the order of their ids. */
    method FreeSlots(slots: map<int, Task>, lo: int, hi: int)
      requires lo <= hi && forall i :: i in slots ==> lo <= i < hi
      requires forall i, j :: i in slots && j in slots && slots[i] == slots[j] ==> i == j
      requires forall i :: i in slots ==> slots[i] !in freed
      modifies this`freed
      ensures freed == old(freed) + set i | i in slots :: slots[i]
    {
      hide Below;
      BelowEnds(slots, lo, hi);
      for id := lo to hi
        invariant freed == old(freed) + Below(slots, id)
      {
        BelowStep(slots, id);
        if id in slots {
          Delete(slots[id]);
        }
      }
    }

    /** What ownership says about the stored slots. */
    lemma OwnedSlots(ever: set<Task>)
      requires Valid() && Owned(State(), ever, freed)
      ensures var slots := tables[curr].slots;
        slots.Keys == State().table.slots.Keys &&
        (forall i, j :: i in slots && j in slots && slots[i] == slots[j] ==> i == j) &&
        (forall i :: i in slots ==> slots[i] !in freed && slots[i] !in pendingDeletes) &&
        (forall i, j :: 0 <= i < j < |pendingDeletes| ==> pendingDeletes[i] != pendingDeletes[j]) &&
        (forall h :: h in pendingDeletes ==> h !in freed) &&
        ever == (set i | i in slots :: slots[i]) + Waiting(pendingDeletes) + freed
    {
      var slots, m := tables[curr].slots, State();
      assert forall i :: i in slots ==> m.table.slots[i].obj == slots[i] && slots[i] in InTable(m.table.slots);
      assert (set i | i in slots :: slots[i]) == InTable(m.table.slots);
      assert forall h :: h in pendingDeletes ==> h in Waiting(pendingDeletes);
    }

    /** The destructor: frees what the current table holds, then what is waiting.  Every object ever handed
        in or copied ends up freed, and `Delete` is never given an object twice.  Ids lie between lo and hi. */
    method Destroy(lo: int, hi: int, ghost ever: set<Task>)
      requires Valid() && Owned(State(), ever, freed)
      requires lo <= hi && forall i :: i in State().table.slots ==> lo <= i < hi
      modifies this`tables, this`pendingDeletes, this`freed
      ensures freed == ever
    {
      hide Owned, Waiting, State;
      OwnedSlots(ever);
      var slots := tables[curr].slots;
      assert forall i :: i in slots.Keys ==> i in State().table.slots.Keys;
      FreeSlots(slots, lo, hi);
      tables := tables[curr := tables[curr].(slots := map[])];
      CleanupPendingDeletes();
    }

    /** delete: an object must not be deleted twice. */
    ghost method Delete(task: Task)
      requires task !in freed
      modifies this`freed
      ensures freed == old(freed) + {task}
    {
      freed := freed + {task};
    }
  }
}
