/** The message handlers of the capture manager over the task manager (rxcapturemanagerthread.cpp).
    Ghost out-parameters name the task objects a handler creates. */
module CaptureManager {
  import opened Pdef
  import opened TaskTable
  import opened TaskMgr
  import opened Admission

  class Manager {
    const tasks: TaskManager
    var nextCaptureId: int

    constructor ()
      ensures fresh(tasks) && tasks.Valid() && tasks.State() == Empty() && nextCaptureId == FIRST_CAPTURE_ID
    {
      tasks := new TaskManager();
      nextCaptureId := FIRST_CAPTURE_ID;
    }

    // ---------- Starting a capture ----------

    /** The duplicate and capacity checks, in the order in which they are made. */
    method CheckStart(r: Request, maxConcurrent: nat) returns (d: Decision)
      requires tasks.Valid()
      ensures d == Decide(tasks.State(), r.key, r.signature, maxConcurrent)
    {
      var bySignature := tasks.QueryActiveTaskBySignature(r.signature);
      if bySignature.Some? {
        return DuplicateSignature(bySignature.value.captureId);
      }
      var active := tasks.IsKeyActive(r.key);
      if active {
        var byKey := tasks.QueryTaskByKey(r.key);
        return DuplicateKey(byKey.value.captureId);
      }
      var runningCount := tasks.counts.running + tasks.counts.resolving;
      if runningCount >= maxConcurrent {
        return CapacityReached;
      }
      return Accept;
    }

    method CreateAndAddCaptureTask(r: Request, details: Details) returns (id: int, ghost obj: Task)
      requires tasks.Valid() && FIRST_CAPTURE_ID <= nextCaptureId
      modifies this`nextCaptureId, tasks
      ensures tasks.Valid() && fresh(obj) && id == old(nextCaptureId) && nextCaptureId == id + 1
      ensures tasks.State() == Added(old(tasks.State()), id, r, details, obj)
    {
      id := nextCaptureId;
      nextCaptureId := nextCaptureId + 1;
      var task := new Task(Info(id, r.key, r.signature, SidOf(r), Pending, details));
      obj := task;
      var ok := tasks.AddTask(id, r.key, r.signature, SidOf(r), task);
    }

    /** With no worker thread the task stays pending. */
    method DispatchTaskToWorker(id: int, worker: Option<nat>) returns (ghost copy: Task?)
      requires tasks.Valid() && id in tasks.State().table.slots
      modifies tasks
      ensures tasks.Valid()
      ensures worker.None? ==> tasks.State() == old(tasks.State())
      ensures worker.Some? ==> copy != null && fresh(copy)
      ensures worker.Some? ==>
        tasks.State() == Update(old(tasks.State()), id, copy,
                                Assigned(old(tasks.State()).table.slots[id].info, worker.value))
      ensures worker.Some? ==>
        var info := old(tasks.State()).table.slots[id].info;
        Query(tasks.State().table, id) == Some(info.(
          status := if info.status == Pending then Resolving else info.status,
          details := info.details.(worker := worker.value)))
    {
      copy := null;
      if worker.None? {
        return;
      }
      var w := worker.value;
      var ok := tasks.UpdateTask(id, info => Assigned(info, w));
      copy := tasks.tables[tasks.curr].slots[id];
    }

    /** A start request is rejected without any change, or accepted under the next capture id. */
    method HandleStartCapture(r: Request, details: Details, worker: Option<nat>, maxConcurrent: nat)
      returns (d: Decision, id: int, ghost obj: Task?, ghost copy: Task?)
      requires tasks.Valid() && FIRST_CAPTURE_ID <= nextCaptureId
      modifies this`nextCaptureId, tasks
      ensures tasks.Valid() && d == Decide(old(tasks.State()), r.key, r.signature, maxConcurrent)
      ensures d != Accept ==> id == -1 && tasks.State() == old(tasks.State()) && nextCaptureId == old(nextCaptureId)
      ensures d == Accept ==> id == old(nextCaptureId) && nextCaptureId == id + 1 && obj != null && fresh(obj)
      ensures d == Accept && worker.None? ==> tasks.State() == Added(old(tasks.State()), id, r, details, obj)
      ensures d == Accept && worker.Some? ==> copy != null && fresh(copy)
      ensures d == Accept && worker.Some? ==>
        tasks.State() == Accepted(old(tasks.State()), id, r, details, worker, obj, copy)
    {
      hide Decide, Update, Assigned;
      obj, copy, id := null, null, -1;
      d := CheckStart(r, maxConcurrent);
      if d == Accept {
        id, obj := CreateAndAddCaptureTask(r, details);
        copy := DispatchTaskToWorker(id, worker);
      }
    }

    // ---------- Reports ----------

    /** The shape of every report: first the details, then the status; nothing for an unknown task. */
    method Report(id: int, updater: Info -> Info, status: Status, ghost details: Details)
      returns (ok: bool, ghost copy1: Task?, ghost copy2: Task?)
      requires tasks.Valid()
      requires forall info: Info :: updater(info) == info.(details := updater(info).details)
      requires id in tasks.State().table.slots ==> details == updater(tasks.State().table.slots[id].info).details
      modifies tasks
      ensures tasks.Valid() && ok == (id in old(tasks.State()).table.slots)
      ensures !ok ==> tasks.State() == old(tasks.State())
      ensures ok ==> copy1 != null && copy2 != null && fresh(copy1) && fresh(copy2)
      ensures ok ==>
        tasks.State() == Advanced(old(tasks.State()), id, details, status, copy1, copy2)
    {
      hide Update, TaskMgr.TaskManager.State;
      copy1, copy2 := null, null;
      ghost var m := tasks.State();
      ok := tasks.UpdateTask(id, updater);
      if ok {
        copy1 := tasks.tables[tasks.curr].slots[id];
        UpdatedSlot(m, id, copy1, updater(m.table.slots[id].info));
        var again := tasks.UpdateStatus(id, status);
        copy2 := tasks.tables[tasks.curr].slots[id];
      }
    }

    method HandleCaptureStarted(id: int, tsUsec: int, pid: int, file: string)
      returns (ok: bool, ghost copy1: Task?, ghost copy2: Task?)
      requires tasks.Valid()
      modifies tasks
      ensures tasks.Valid() && ok == (id in old(tasks.State()).table.slots)
      ensures !ok ==> tasks.State() == old(tasks.State())
      ensures ok ==> copy1 != null && copy2 != null && fresh(copy1) && fresh(copy2)
      ensures ok ==>
        var info := old(tasks.State()).table.slots[id].info;
        tasks.State() == Advanced(old(tasks.State()), id, StartedInfo(info, tsUsec, pid, file).details, Running, copy1, copy2)
      ensures ok ==>
        var info := old(tasks.State()).table.slots[id].info;
        Query(tasks.State().table, id) == Some(info.(status := Running, details := info.details.(
          startTime := if tsUsec <= 0 then 0 else tsUsec / 1_000_000, capturePid := pid,
          outputFile := if file == "" then info.details.outputFile else file)))
    {
      hide Advanced;
      ghost var slots := tasks.State().table.slots;
      ghost var details := if id in slots then StartedInfo(slots[id].info, tsUsec, pid, file).details else Details(0, 0, 0, 0, 0, 0, "", "");
      ghost var m := tasks.State();
      ok, copy1, copy2 := Report(id, info => StartedInfo(info, tsUsec, pid, file), Running, details);
      if ok {
        ReportShown(m, id, details, Running, copy1, copy2, id);
      }
    }

    /** The result code decides between completed, stopped by cancellation and failed. */
    method HandleCaptureFinished(id: int, exitCode: int, cancelledCode: int, tsUsec: int, now: int,
                                 packets: nat, bytes: nat, message: string)
      returns (ok: bool, ghost details: Details, ghost copy1: Task?, ghost copy2: Task?)
      requires tasks.Valid() && cancelledCode != 0
      modifies tasks
      ensures tasks.Valid() && ok == (id in old(tasks.State()).table.slots)
      ensures !ok ==> tasks.State() == old(tasks.State())
      ensures ok ==> copy1 != null && copy2 != null && fresh(copy1) && fresh(copy2)
      ensures ok ==>
        var status := if exitCode == 0 then Completed else if exitCode == cancelledCode then Stopped else Failed;
        tasks.State() == Advanced(old(tasks.State()), id, details, status, copy1, copy2)
      ensures ok ==>
        var info := old(tasks.State()).table.slots[id].info;
        details == (if exitCode == 0 then FinishedInfo(info, tsUsec, packets, bytes, "")
                    else if exitCode == cancelledCode then
                      StoppedInfo(info, tsUsec, now, packets, bytes, if message == "" then "stopped" else message)
                    else FailedInfo(info, if message == "" then "capture_failed" else message, now)).details
      ensures ok && exitCode == 0 ==>
        var info := old(tasks.State()).table.slots[id].info;
        Query(tasks.State().table, id) == Some(info.(status := Completed, details := info.details.(
          endTime := if tsUsec <= 0 then 0 else tsUsec / 1_000_000, packets := packets, bytes := bytes)))
      ensures ok && exitCode == cancelledCode ==>
        var info := old(tasks.State()).table.slots[id].info;
        Query(tasks.State().table, id) == Some(info.(status := Stopped, details := info.details.(
          endTime := if tsUsec <= 0 then now else tsUsec / 1_000_000, packets := packets, bytes := bytes,
          error := if message == "" then "stopped" else message)))
      ensures ok && exitCode != 0 && exitCode != cancelledCode ==>
        var info := old(tasks.State()).table.slots[id].info;
        Query(tasks.State().table, id) == Some(info.(status := Failed, details := info.details.(
          endTime := now, error := if message == "" then "capture_failed" else message)))
    {
      hide Advanced;
      ghost var slots := tasks.State().table.slots;
      ghost var m := tasks.State();
      details := Details(0, 0, 0, 0, 0, 0, "", "");
      if exitCode == 0 {
        if id in slots { details := FinishedInfo(slots[id].info, tsUsec, packets, bytes, "").details; }
        ok, copy1, copy2 := Report(id, info => FinishedInfo(info, tsUsec, packets, bytes, ""), Completed, details);
        if ok {
          ReportShown(m, id, details, Completed, copy1, copy2, id);
        }
      } else if exitCode == cancelledCode {
        var text := if message == "" then "stopped" else message;
        if id in slots { details := StoppedInfo(slots[id].info, tsUsec, now, packets, bytes, text).details; }
        ok, copy1, copy2 := Report(id, info => StoppedInfo(info, tsUsec, now, packets, bytes, text), Stopped, details);
        if ok {
          ReportShown(m, id, details, Stopped, copy1, copy2, id);
        }
      } else {
        var text := if message == "" then "capture_failed" else message;
        if id in slots { details := FailedInfo(slots[id].info, text, now).details; }
        ok, copy1, copy2 := Report(id, info => FailedInfo(info, text, now), Failed, details);
        if ok {
          ReportShown(m, id, details, Failed, copy1, copy2, id);
        }
      }
    }

    method HandleCaptureFailed(id: int, message: string, codeText: string, now: int)
      returns (ok: bool, ghost copy1: Task?, ghost copy2: Task?)
      requires tasks.Valid()
      modifies tasks
      ensures tasks.Valid() && ok == (id in old(tasks.State()).table.slots)
      ensures !ok ==> tasks.State() == old(tasks.State())
      ensures ok ==> copy1 != null && copy2 != null && fresh(copy1) && fresh(copy2)
      ensures ok ==>
        var info := old(tasks.State()).table.slots[id].info;
        tasks.State() == Advanced(old(tasks.State()), id,
                                  FailedInfo(info, if message == "" then codeText else message, now).details,
                                  Failed, copy1, copy2)
      ensures ok ==>
        var info := old(tasks.State()).table.slots[id].info;
        Query(tasks.State().table, id) == Some(info.(status := Failed, details := info.details.(
          endTime := now, error := if message == "" then codeText else message)))
    {
      hide Advanced;
      var text := if message == "" then codeText else message;
      ghost var slots := tasks.State().table.slots;
      ghost var details := if id in slots then FailedInfo(slots[id].info, text, now).details else Details(0, 0, 0, 0, 0, 0, "", "");
      ghost var m := tasks.State();
      ok, copy1, copy2 := Report(id, info => FailedInfo(info, text, now), Failed, details);
      if ok {
        ReportShown(m, id, details, Failed, copy1, copy2, id);
      }
    }
  }
}
