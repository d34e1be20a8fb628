/** Admitting captures and following their status (rxcapturemanagerthread.cpp), over the task manager's values. */
module Admission {
  import opened Pdef
  import opened Sets
  import opened TaskTable
  import opened TaskIndex

  const FIRST_CAPTURE_ID: int := 1000

  /** The length of a signature: a 64-bit hash in hexadecimal. */
  const SIGNATURE_LENGTH: nat := 16

  /** A start request after its key and signature have been computed; `stamp` is the time in its sid. */
  datatype Request = Request(key: string, signature: string, stamp: string)

  function SidOf(r: Request): string { r.signature + r.stamp }

  datatype Decision = DuplicateSignature(id: int) | DuplicateKey(id: int) | CapacityReached | Accept

  // ---------- Updaters ----------

  function Seconds(usec: int): int { if usec <= 0 then 0 else usec / 1_000_000 }

  /** AssignWorkerFunctor: the task waits for its worker from now on. */
  function Assigned(info: Info, worker: nat): Info {
    info.(details := info.details.(worker := worker), status := if info.status == Pending then Resolving else info.status)
  }

  /** TaskUpdaterStart. */
  function StartedInfo(info: Info, tsUsec: int, pid: int, file: string): Info {
    var d := info.details.(startTime := Seconds(tsUsec), capturePid := pid);
    info.(details := if file != "" then d.(outputFile := file) else d)
  }

  /** TaskUpdaterFinished. */
  function FinishedInfo(info: Info, tsUsec: int, packets: nat, bytes: nat, path: string): Info {
    var d := info.details.(endTime := Seconds(tsUsec), packets := packets, bytes := bytes);
    info.(details := if path != "" then d.(outputFile := path) else d)
  }

  /** TaskUpdaterFailed. */
  function FailedInfo(info: Info, message: string, now: int): Info {
    info.(details := info.details.(error := message, endTime := now))
  }

  /** MarkStoppedFunctor. */
  function StoppedInfo(info: Info, tsUsec: int, now: int, packets: nat, bytes: nat, message: string): Info {
    info.(details := info.details.(endTime := if tsUsec <= 0 then now else tsUsec / 1_000_000,
                                   packets := packets, bytes := bytes, error := message))
  }

  // ---------- What the handlers compute ----------

  function RunningCount<H>(m: Mgr<H>): int { m.counts.running + m.counts.resolving }

  function Decide<H>(m: Mgr<H>, key: string, signature: string, maxConcurrent: nat): Decision {
    var bySignature := IfActive(QueryBy(m.table, m.table.signatureToId, signature));
    var byKey := IfActive(QueryBy(m.table, m.table.keyToId, key));
    if bySignature.Some? then DuplicateSignature(bySignature.value.captureId)
    else if byKey.Some? then DuplicateKey(byKey.value.captureId)
    else if RunningCount(m) >= maxConcurrent then CapacityReached
    else Accept
  }

  function NewInfo(id: int, r: Request, details: Details): Info {
    Info(id, r.key, r.signature, SidOf(r), Pending, details)
  }

  /** create_and_add_capture_task. */
  function Added<H>(m: Mgr<H>, id: int, r: Request, details: Details, obj: H): Mgr<H> {
    AddTask(m, id, r.key, r.signature, SidOf(r), obj, NewInfo(id, r, details))
  }

  /** An accepted request: the task is added and, if there is a worker, waiting to it. */
  function Accepted<H>(m: Mgr<H>, id: int, r: Request, details: Details, worker: Option<nat>, obj: H, copy: H): Mgr<H> {
    var m1 := Added(m, id, r, details, obj);
    if worker.None? then m1
    else Update(m1, id, copy, Assigned(m1.table.slots[id].info, worker.value))
  }

  /** update_task followed by update_status, as every status handler does; nothing when the task is gone. */
  function Advanced<H>(m: Mgr<H>, id: int, details: Details, status: Status, copy1: H, copy2: H): Mgr<H> {
    if id !in m.table.slots then m else
    var info := m.table.slots[id].info.(details := details);
    Update(Update(m, id, copy1, info), id, copy2, info.(status := status))
  }

  /** An update that leaves the status alone. */
  function Annotated<H>(m: Mgr<H>, id: int, details: Details, copy: H): Mgr<H> {
    if id !in m.table.slots then m else Update(m, id, copy, m.table.slots[id].info.(details := details))
  }

  // ---------- The manager's invariant ----------

  /** Every sid extends its task's signature. */
  ghost predicate SidsExtend<H>(t: Table<H>) {
    forall i :: i in t.slots ==>
      |t.slots[i].info.signature| == SIGNATURE_LENGTH && t.slots[i].info.signature <= t.slots[i].info.sid
  }

  ghost predicate Consistent<H(!new)>(m: Mgr<H>) { CountsAgree(m) && Indexed(m.table) && SidsExtend(m.table) }

  // ---------- Additions ----------

  /** What is in the cleared table was there before, and no active task is taken out when neither the key,
      the signature nor the sid belongs to one. */
  lemma ClearedKeepsActive<H(!new)>(t: Table<H>, id: int, key: string, signature: string, sid: string)
    requires Indexed(t) && id !in t.slots && signature != "" && sid != ""
    requires forall i :: i in t.slots && Active(t.slots[i].info.status) ==>
               t.slots[i].info.key != key && t.slots[i].info.signature != signature && t.slots[i].info.sid != sid
    ensures var u := ClearedTable(t, id, key, signature, sid);
      (forall i :: i in u.slots ==> i in t.slots && u.slots[i] == t.slots[i]) &&
      (forall i :: i in t.slots && Active(t.slots[i].info.status) ==> i in u.slots)
  {
    hide EvictedVia;
    var t2 := EvictedVia(t, t.keyToId, key, id);
    var t3 := EvictedVia(t2, t2.signatureToId, signature, id);
    EvictedViaIndexed(t, t.keyToId, key, id);
    EvictedViaIndexed(t2, t2.signatureToId, signature, id);
    EvictedViaIndexed(t3, t3.sidToId, sid, id);
    EvictedKey(t, key, id);
    EvictedSignature(t2, signature, id);
    EvictedSid(t3, sid, id);
  }

  lemma EvictedKey<H(!new)>(t: Table<H>, key: string, id: int)
    requires Indexed(t)
    ensures forall i :: i in t.slots && t.slots[i].info.key != key ==> i in EvictedVia(t, t.keyToId, key, id).slots
  {
  }

  lemma EvictedSignature<H(!new)>(t: Table<H>, signature: string, id: int)
    requires Indexed(t)
    ensures forall i :: i in t.slots && t.slots[i].info.signature != signature ==>
              i in EvictedVia(t, t.signatureToId, signature, id).slots
  {
  }

  lemma EvictedSid<H(!new)>(t: Table<H>, sid: string, id: int)
    requires Indexed(t)
    ensures forall i :: i in t.slots && t.slots[i].info.sid != sid ==> i in EvictedVia(t, t.sidToId, sid, id).slots
  {
  }

  /** A task with the sid of a request has the signature of the request. */
  lemma SameSidSameSignature(info: Info, r: Request)
    requires |info.signature| == SIGNATURE_LENGTH == |r.signature|
    requires info.signature <= info.sid && info.sid == SidOf(r)
    ensures info.signature == r.signature
  {
    assert info.signature == SidOf(r)[..SIGNATURE_LENGTH] && r.signature == SidOf(r)[..SIGNATURE_LENGTH];
  }

  /** An accepted request meets no active task with its key, signature or sid. */
  lemma AcceptedMeetsNoActive<H(!new)>(m: Mgr<H>, r: Request, maxConcurrent: nat)
    requires Consistent(m) && |r.signature| == SIGNATURE_LENGTH
    requires Decide(m, r.key, r.signature, maxConcurrent) == Accept
    ensures forall i :: i in m.table.slots && Active(m.table.slots[i].info.status) ==>
              m.table.slots[i].info.key != r.key && m.table.slots[i].info.signature != r.signature &&
              m.table.slots[i].info.sid != SidOf(r)
  {
    LookupsAgree(m.table, r.key);
    LookupsAgree(m.table, r.signature);
    forall i | i in m.table.slots && Active(m.table.slots[i].info.status)
      ensures m.table.slots[i].info.key != r.key && m.table.slots[i].info.signature != r.signature &&
              m.table.slots[i].info.sid != SidOf(r)
    {
      if m.table.slots[i].info.sid == SidOf(r) {
        SameSidSameSignature(m.table.slots[i].info, r);
      }
    }
  }

  /** An accepted request evicts finished tasks at most: every active task keeps its slot. */
  lemma AcceptedEvictsNoActive<H(!new)>(m: Mgr<H>, id: int, r: Request, details: Details, obj: H, maxConcurrent: nat)
    requires Consistent(m) && id !in m.table.slots && |r.signature| == SIGNATURE_LENGTH
    requires Decide(m, r.key, r.signature, maxConcurrent) == Accept
    ensures var m' := Added(m, id, r, details, obj);
      id in m'.table.slots && m'.table.slots[id] == Entry(obj, NewInfo(id, r, details)) &&
      (forall i :: i in m'.table.slots && i != id ==> i in m.table.slots && m'.table.slots[i] == m.table.slots[i]) &&
      (forall i :: i in m.table.slots && Active(m.table.slots[i].info.status) ==> i in m'.table.slots)
  {
    hide Indexed, ClearedTable, Decide, AddTask;
    AcceptedMeetsNoActive(m, r, maxConcurrent);
    ClearedKeepsActive(m.table, id, r.key, r.signature, SidOf(r));
    AddTaskTable(m, id, r.key, r.signature, SidOf(r), obj, NewInfo(id, r, details));
  }

  // ---------- Counting running tasks ----------

  function Busy<H>(slots: map<int, Entry<H>>): set<int> {
    set i | i in slots && (slots[i].info.status.Running? || slots[i].info.status.Resolving?)
  }

  lemma RunningCountIsBusy<H(!new)>(m: Mgr<H>)
    requires CountsAgree(m)
    ensures RunningCount(m) == |Busy(m.table.slots)|
  {
    var a, b := WithStatus(m.table.slots, Running), WithStatus(m.table.slots, Resolving);
    assert Busy(m.table.slots) == a + b && a !! b;
    assert CountOf(m.counts, Running) == |a| && CountOf(m.counts, Resolving) == |b|;
  }

  lemma SameBusy<H(!new)>(m: Mgr<H>, m': Mgr<H>, id: int)
    requires CountsAgree(m) && CountsAgree(m')
    requires Busy(m'.table.slots) <= Busy(m.table.slots) + {id}
    ensures RunningCount(m') <= RunningCount(m) + 1
    ensures Busy(m'.table.slots) <= Busy(m.table.slots) ==> RunningCount(m') <= RunningCount(m)
  {
    RunningCountIsBusy(m);
    RunningCountIsBusy(m');
    SubsetSize(Busy(m'.table.slots), Busy(m.table.slots) + {id});
    if Busy(m'.table.slots) <= Busy(m.table.slots) {
      SubsetSize(Busy(m'.table.slots), Busy(m.table.slots));
    }
    if id !in Busy(m.table.slots) {
      assert |Busy(m.table.slots) + {id}| == |Busy(m.table.slots)| + 1;
    } else {
      assert Busy(m.table.slots) + {id} == Busy(m.table.slots);
    }
  }

  // ---------- The decision, over the table ----------

  /** Task i is pending, resolving or running. */
  ghost predicate Unfinished<H>(m: Mgr<H>, i: int) {
    i in m.table.slots &&
    (m.table.slots[i].info.status == Pending || m.table.slots[i].info.status == Resolving || m.table.slots[i].info.status == Running)
  }

  /** The exact decision: a signature that an unfinished task has is a duplicate of that task; or else a key is; or else
      the capacity is reached when as many tasks resolve or run as may; or else the request is accepted. */
  lemma DecisionExactly<H(!new)>(m: Mgr<H>, key: string, signature: string, maxConcurrent: nat)
    requires Consistent(m) && signature != ""
    ensures var d := Decide(m, key, signature, maxConcurrent);
      var sameSignature := exists i :: Unfinished(m, i) && m.table.slots[i].info.signature == signature;
      var sameKey := exists i :: Unfinished(m, i) && m.table.slots[i].info.key == key;
      var busy := set i | i in m.table.slots && (m.table.slots[i].info.status == Resolving || m.table.slots[i].info.status == Running);
      (d.DuplicateSignature? <==> sameSignature) &&
      (d.DuplicateSignature? ==> Unfinished(m, d.id) && m.table.slots[d.id].info.signature == signature) &&
      (d.DuplicateKey? <==> !sameSignature && sameKey) &&
      (d.DuplicateKey? ==> Unfinished(m, d.id) && m.table.slots[d.id].info.key == key) &&
      (d == CapacityReached <==> !sameSignature && !sameKey && |busy| >= maxConcurrent) &&
      (d == Accept <==> !sameSignature && !sameKey && |busy| < maxConcurrent)
  {
    hide CountsAgree, RunningCount, SidsIndexed, QueryBy, IfActive;
    DuplicatesExactly(m, key, signature);
    RunningCountIsBusy(m);
    var busy := set i | i in m.table.slots && (m.table.slots[i].info.status == Resolving || m.table.slots[i].info.status == Running);
    assert busy == Busy(m.table.slots);
  }

  lemma DuplicatesExactly<H(!new)>(m: Mgr<H>, key: string, signature: string)
    requires Indexed(m.table) && signature != ""
    ensures var r := IfActive(QueryBy(m.table, m.table.signatureToId, signature));
      (r.Some? <==> exists i :: Unfinished(m, i) && m.table.slots[i].info.signature == signature) &&
      (r.Some? ==> Unfinished(m, r.value.captureId) && m.table.slots[r.value.captureId].info.signature == signature)
    ensures var r := IfActive(QueryBy(m.table, m.table.keyToId, key));
      (r.Some? <==> exists i :: Unfinished(m, i) && m.table.slots[i].info.key == key) &&
      (r.Some? ==> Unfinished(m, r.value.captureId) && m.table.slots[r.value.captureId].info.key == key)
  {
    var t := m.table;
    if signature in t.signatureToId {
      assert t.slots[t.signatureToId[signature]].info.signature == signature;
    }
    if key in t.keyToId {
      assert t.slots[t.keyToId[key]].info.key == key;
    }
  }

  // ---------- What lookups show after a report ----------

  /** After a report the task has the reported status and details and is otherwise what it was, and so is every
      other task. */
  lemma ReportShown<H>(m: Mgr<H>, id: int, details: Details, status: Status, copy1: H, copy2: H, i: int)
    requires id in m.table.slots
    ensures var m' := Advanced(m, id, details, status, copy1, copy2);
      Query(m'.table, i) ==
        if i == id then Some(m.table.slots[id].info.(status := status, details := details)) else Query(m.table, i)
  {
  }

  // ---------- The steps keep the invariant ----------

  lemma AddedConsistent<H(!new)>(m: Mgr<H>, id: int, r: Request, details: Details, obj: H, maxConcurrent: nat)
    requires Consistent(m) && id !in m.table.slots && |r.signature| == SIGNATURE_LENGTH
    requires Decide(m, r.key, r.signature, maxConcurrent) == Accept
    ensures Consistent(Added(m, id, r, details, obj))
  {
    hide Added, CountsAgree, Indexed, AddTask, Decide;
    var info := NewInfo(id, r, details);
    AcceptedEvictsNoActive(m, id, r, details, obj, maxConcurrent);
    assert Added(m, id, r, details, obj) == AddTask(m, id, r.key, r.signature, SidOf(r), obj, info) by {
      AddedIsAddTask(m, id, r, details, obj);
    }
    AddTaskCounts(m, id, r.key, r.signature, SidOf(r), obj, info);
    AddTaskIndexed(m, id, r.key, r.signature, SidOf(r), obj, info);
  }

  lemma AddedIsAddTask<H>(m: Mgr<H>, id: int, r: Request, details: Details, obj: H)
    ensures Added(m, id, r, details, obj) ==
            AddTask(m, id, r.key, r.signature, SidOf(r), obj, NewInfo(id, r, details))
  {
  }

  /** Assigning a worker to a pending task. */
  lemma WaitingConsistent<H(!new)>(m: Mgr<H>, id: int, worker: nat, copy: H)
    requires Consistent(m) && id in m.table.slots && m.table.slots[id].info.status == Pending
    ensures var m' := Update(m, id, copy, Assigned(m.table.slots[id].info, worker));
      Consistent(m') && m'.table.slots == m.table.slots[id := Entry(copy, Assigned(m.table.slots[id].info, worker))]
  {
    hide CountsAgree, Indexed;
    var waiting := Assigned(m.table.slots[id].info, worker);
    UpdateCounts(m, id, copy, waiting);
    UpdateIndexed(m, id, copy, waiting);
  }

  /** Accepting a request below the limit keeps the manager consistent and the limit respected. */
  lemma AcceptedConsistent<H(!new)>(m: Mgr<H>, id: int, r: Request, details: Details, worker: Option<nat>,
      obj: H, copy: H, maxConcurrent: nat)
    requires Consistent(m) && id !in m.table.slots && |r.signature| == SIGNATURE_LENGTH
    requires Decide(m, r.key, r.signature, maxConcurrent) == Accept
    ensures var m' := Accepted(m, id, r, details, worker, obj, copy);
      Consistent(m') && RunningCount(m') <= maxConcurrent &&
      id in m'.table.slots && m'.table.slots[id].info.status == (if worker.Some? then Resolving else Pending) &&
      (forall i :: i in m'.table.slots && i != id ==> i in m.table.slots && m'.table.slots[i] == m.table.slots[i]) &&
      (forall i :: i in m.table.slots && Active(m.table.slots[i].info.status) ==> i in m'.table.slots)
  {
    hide Added, CountsAgree, Indexed, SidsExtend, Update;
    var m1 := Added(m, id, r, details, obj);
    AddedConsistent(m, id, r, details, obj, maxConcurrent);
    AcceptedEvictsNoActive(m, id, r, details, obj, maxConcurrent);
    var m' := Accepted(m, id, r, details, worker, obj, copy);
    if worker.Some? {
      WaitingConsistent(m1, id, worker.value, copy);
    }
    assert forall i :: i in m'.table.slots && i != id ==> i in m1.table.slots && m'.table.slots[i] == m1.table.slots[i];
    assert forall i :: i in Busy(m'.table.slots) && i != id ==> i in Busy(m.table.slots);
    SameBusy(m, m', id);
  }

  /** A status report of a task that is still active, or a report that leaves an inactive task inactive. */
  lemma AdvancedConsistent<H(!new)>(m: Mgr<H>, id: int, details: Details, status: Status, copy1: H, copy2: H)
    requires Consistent(m)
    requires id in m.table.slots && Active(status) ==> Active(m.table.slots[id].info.status)
    ensures var m' := Advanced(m, id, details, status, copy1, copy2);
      Consistent(m') && m'.table.slots.Keys == m.table.slots.Keys &&
      (forall i :: i in m.table.slots && i != id ==> m'.table.slots[i] == m.table.slots[i]) &&
      (id in m.table.slots ==> m'.table.slots[id].info.status == status)
  {
    hide CountsAgree, Indexed;
    if id in m.table.slots {
      var info := m.table.slots[id].info.(details := details);
      var m1 := Update(m, id, copy1, info);
      UpdateCounts(m, id, copy1, info);
      UpdateIndexed(m, id, copy1, info);
      UpdateCounts(m1, id, copy2, info.(status := status));
      UpdateIndexed(m1, id, copy2, info.(status := status));
    }
  }

  lemma AnnotatedConsistent<H(!new)>(m: Mgr<H>, id: int, details: Details, copy: H)
    requires Consistent(m)
    ensures var m' := Annotated(m, id, details, copy);
      Consistent(m') && m'.table.slots.Keys == m.table.slots.Keys &&
      forall i :: i in m.table.slots ==> m'.table.slots[i].info.status == m.table.slots[i].info.status
  {
    hide CountsAgree, Indexed;
    if id in m.table.slots {
      var info := m.table.slots[id].info.(details := details);
      UpdateCounts(m, id, copy, info);
      UpdateIndexed(m, id, copy, info);
    }
  }

  /** At most one active task has a given key, and at most one a given signature. */
  lemma OneActiveEach<H(!new)>(m: Mgr<H>, i: int, j: int)
    requires Consistent(m) && i in m.table.slots && j in m.table.slots
    requires Active(m.table.slots[i].info.status) && Active(m.table.slots[j].info.status)
    requires m.table.slots[i].info.key == m.table.slots[j].info.key ||
             m.table.slots[i].info.signature == m.table.slots[j].info.signature
    ensures i == j
  {
  }
}
