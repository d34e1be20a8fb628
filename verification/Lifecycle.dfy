/** The capture system as a whole: clients, the manager with its inbox, capture workers and filter threads,
    stepping in any order (rxcapturemanagerthread.cpp, rxcapturethread.cpp, rxfilterthread.cpp). */
module Lifecycle {
  import opened Pdef
  import opened TaskTable
  import opened TaskIndex
  import opened Admission

  datatype Msg =
    | StartRequest(request: Request)
    | Started(id: int)
    | FileReady(id: int)
    | Finished(id: int, status: Status)
    | CaptureFailed(id: int)
    | RawFile(id: int)
    | FilteredFile(id: int)

  /** How far the worker side of a capture has come. */
  datatype Stage =
    | NoWorker      // accepted while there was no worker thread
    | Queued        // waiting in a worker's channel
    | Capturing     // started was sent
    | Reported      // finished or failed was sent
    | RawSent       // the raw file was sent for filtering
    | Filtering     // with a filter thread
    | Filtered      // the filtered file was sent
    | Abandoned     // no filter thread, or it could not load the definition: nothing more is sent

  /** Task objects are numbered; `ever` are those handed to the manager or copied, `freed` those deleted. */
  datatype System = System(
    mgr: Mgr<nat>,
    nextId: int,
    ever: set<nat>,
    nextObj: nat,
    freed: set<nat>,
    inbox: seq<Msg>,
    stages: map<int, Stage>,
    maxConcurrent: nat)

  datatype Step =
    | ClientRequests(request: Request)
    | ManagerHandles(details: Details, worker: Option<nat>, filterThread: bool)
    | WorkerFails(id: int)
    | WorkerStarts(id: int)
    | WorkerSendsFile(id: int)
    | WorkerFinishes(id: int, status: Status)
    | WorkerSendsRaw(id: int)
    | FilterSends(id: int)
    | FilterFails(id: int)
    | Annotates(id: int, details: Details)
    | CleansUp

  ghost predicate Init(s: System) {
    s.mgr == Empty() && s.nextId == FIRST_CAPTURE_ID && s.ever == {} && s.freed == {} &&
    s.inbox == [] && s.stages == map[]
  }

  // ---------- Steps ----------

  predicate At(s: System, id: int, stage: Stage) { id in s.stages && s.stages[id] == stage }

  predicate Enabled(s: System, step: Step) {
    match step
    case ClientRequests(r) => |r.signature| == SIGNATURE_LENGTH
    case ManagerHandles(_, _, _) => s.inbox != []
    case WorkerFails(id) => At(s, id, Queued)
    case WorkerStarts(id) => At(s, id, Queued)
    case WorkerSendsFile(id) => At(s, id, Capturing)
    case WorkerFinishes(id, status) => At(s, id, Capturing) && !Active(status)
    case WorkerSendsRaw(id) => At(s, id, Capturing)
    case FilterSends(id) => At(s, id, Filtering)
    case FilterFails(id) => At(s, id, Filtering)
    case Annotates(_, _) => true
    case CleansUp => true
  }

  function Sent(s: System, id: int, msg: Msg, stage: Stage): System {
    s.(inbox := s.inbox + [msg], stages := s.stages[id := stage])
  }

  /** The manager's reaction to a message, with three task objects at its disposal. */
  function Handled(s: System, msg: Msg, details: Details, worker: Option<nat>, filterThread: bool): System {
    var o := s.nextObj;
    match msg
    case StartRequest(r) =>
      if Decide(s.mgr, r.key, r.signature, s.maxConcurrent) == Accept then
        s.(mgr := Accepted(s.mgr, s.nextId, r, details, worker, o, o + 1),
           nextId := s.nextId + 1,
           ever := s.ever + {o} + (if worker.Some? then {o + 1} else {}),
           nextObj := o + 3,
           stages := s.stages[s.nextId := if worker.Some? then Queued else NoWorker])
      else s
    case Started(id) => Moved(s, id, details, Running)
    case FileReady(id) => Noted(s, id, details)
    case Finished(id, status) => Moved(s, id, details, status)
    case CaptureFailed(id) => Moved(s, id, details, Failed)
    case RawFile(id) => s.(stages := s.stages[id := if filterThread then Filtering else Abandoned])
    case FilteredFile(id) => Moved(Noted(s, id, details), id, details, Completed)
  }

  function Moved(s: System, id: int, details: Details, status: Status): System {
    s.(mgr := Advanced(s.mgr, id, details, status, s.nextObj, s.nextObj + 1),
       ever := if id in s.mgr.table.slots then s.ever + {s.nextObj} + {s.nextObj + 1} else s.ever,
       nextObj := s.nextObj + 2)
  }

  function Noted(s: System, id: int, details: Details): System {
    s.(mgr := Annotated(s.mgr, id, details, s.nextObj),
       ever := if id in s.mgr.table.slots then s.ever + {s.nextObj} else s.ever,
       nextObj := s.nextObj + 1)
  }

  function Apply(s: System, step: Step): System
    requires Enabled(s, step)
  {
    match step
    case ClientRequests(r) => s.(inbox := s.inbox + [StartRequest(r)])
    case ManagerHandles(details, worker, filterThread) =>
      Handled(s.(inbox := s.inbox[1..]), s.inbox[0], details, worker, filterThread)
    case WorkerFails(id) => Sent(s, id, CaptureFailed(id), Reported)
    case WorkerStarts(id) => Sent(s, id, Started(id), Capturing)
    case WorkerSendsFile(id) => Sent(s, id, FileReady(id), Capturing)
    case WorkerFinishes(id, status) => Sent(s, id, Finished(id, status), Reported)
    case WorkerSendsRaw(id) => Sent(s, id, RawFile(id), RawSent)
    case FilterSends(id) => Sent(s, id, FilteredFile(id), Filtered)
    case FilterFails(id) => s.(stages := s.stages[id := Abandoned])
    case Annotates(id, details) => Noted(s, id, details)
    case CleansUp => s.(mgr := Cleanup(s.mgr), freed := s.freed + Waiting(s.mgr.pending))
  }

  ghost predicate Next(s: System, s': System) { exists step :: Enabled(s, step) && s' == Apply(s, step) }

  ghost predicate Execution(run: seq<System>) {
    run != [] && Init(run[0]) && forall n :: 0 <= n < |run| - 1 ==> Next(run[n], run[n + 1])
  }

  // ---------- The messages of one capture ----------

  predicate Concerns(m: Msg, id: int) { !m.StartRequest? && m.id == id }

  function About(inbox: seq<Msg>, id: int): seq<Msg> {
    if inbox == [] then []
    else if Concerns(inbox[0], id) then [inbox[0]] + About(inbox[1..], id)
    else About(inbox[1..], id)
  }

  lemma {:induction false} AboutAppend(inbox: seq<Msg>, m: Msg, id: int)
    ensures About(inbox + [m], id) == About(inbox, id) + if Concerns(m, id) then [m] else []
  {
    if inbox == [] {
      assert ([m])[1..] == [];
    } else {
      AboutAppend(inbox[1..], m, id);
      assert (inbox + [m])[1..] == inbox[1..] + [m];
    }
  }

  function StatusOf(m: Mgr<nat>, id: int): Option<Status> {
    if id in m.table.slots then Some(m.table.slots[id].info.status) else None
  }

  predicate OnlyFiles(ms: seq<Msg>) { forall k :: 0 <= k < |ms| ==> ms[k].FileReady? }

  /** The capture is running, or the news of its start is still under way. */
  predicate Live(status: Option<Status>, ms: seq<Msg>) {
    (status == Some(Running) && OnlyFiles(ms)) ||
    (status == Some(Resolving) && ms != [] && ms[0].Started? && OnlyFiles(ms[1..]))
  }

  predicate Over(status: Option<Status>, ms: seq<Msg>) {
    ms == [] && (status.Some? ==> !Active(status.value))
  }

  /** How the stage of a capture, its status and the messages under way fit together. */
  predicate Fitting(stage: Stage, status: Option<Status>, ms: seq<Msg>) {
    match stage
    case NoWorker => ms == [] && status == Some(Pending)
    case Queued => ms == [] && status == Some(Resolving)
    case Capturing => Live(status, ms)
    case Reported =>
      (ms != [] && ms[|ms| - 1].CaptureFailed? && |ms| == 1 && status == Some(Resolving)) ||
      (ms != [] && ms[|ms| - 1].Finished? && !Active(ms[|ms| - 1].status) && Live(status, ms[..|ms| - 1])) ||
      Over(status, ms)
    case RawSent => ms != [] && ms[|ms| - 1].RawFile? && Live(status, ms[..|ms| - 1])
    case Filtering => ms == [] && status == Some(Running)
    case Filtered => (|ms| == 1 && ms[0].FilteredFile? && status == Some(Running)) || Over(status, ms)
    case Abandoned => ms == [] && status == Some(Running)
  }

  // ---------- The invariant ----------

  ghost predicate Pipeline(s: System) {
    (forall id :: id in s.stages <==> FIRST_CAPTURE_ID <= id < s.nextId) &&
    (forall id :: id in s.mgr.table.slots ==> id in s.stages) &&
    (forall k :: 0 <= k < |s.inbox| && !s.inbox[k].StartRequest? ==> s.inbox[k].id in s.stages) &&
    (forall k :: 0 <= k < |s.inbox| && s.inbox[k].StartRequest? ==> |s.inbox[k].request.signature| == SIGNATURE_LENGTH) &&
    forall id :: id in s.stages ==> Fitting(s.stages[id], StatusOf(s.mgr, id), About(s.inbox, id))
  }

  ghost predicate Objects(s: System) {
    Owned(s.mgr, s.ever, s.freed) && forall h :: h in s.ever ==> h < s.nextObj
  }

  ghost predicate Inv(s: System) {
    Consistent(s.mgr) && RunningCount(s.mgr) <= s.maxConcurrent && Objects(s) && Pipeline(s) &&
    FIRST_CAPTURE_ID <= s.nextId
  }

  /** What a step may do to the tasks: a status only moves forward, an active task stays in the table, and
      only an id that was not used before comes in. */
  ghost predicate Advances(s: System, s': System) {
    var t, t' := s.mgr.table.slots, s'.mgr.table.slots;
    s.nextId <= s'.nextId &&
    (forall id :: id in t && Active(t[id].info.status) ==> id in t') &&
    (forall id :: id in t && id in t' ==> Later(t[id].info.status, t'[id].info.status)) &&
    forall id :: id in t' && id !in t ==> id == s.nextId < s'.nextId
  }

  predicate Later(a: Status, b: Status) {
    a == b || (a.Pending? && b.Resolving?) || (a.Resolving? && b.Running?) || (Active(a) && !Active(b))
  }

  // ---------- Messages at the head of the inbox ----------

  /** The status a capture must have when a message about it is handled, and the one it has afterwards. */
  function Expects(msg: Msg): Status
    requires !msg.StartRequest?
  {
    if msg.Started? || msg.CaptureFailed? then Resolving else Running
  }

  function Becomes(msg: Msg): Status
    requires !msg.StartRequest?
  {
    match msg
    case Started(_) => Running
    case Finished(_, status) => status
    case CaptureFailed(_) => Failed
    case FilteredFile(_) => Completed
    case _ => Running
  }

  function StageAfter(stage: Stage, msg: Msg, filterThread: bool): Stage {
    if msg.RawFile? then if filterThread then Filtering else Abandoned else stage
  }

  /** Handling the first message about a capture finds it in the expected status and fits again. */
  lemma HeadFits(stage: Stage, status: Option<Status>, ms: seq<Msg>, filterThread: bool)
    requires ms != [] && !ms[0].StartRequest? && Fitting(stage, status, ms)
    ensures status == Some(Expects(ms[0]))
    ensures Fitting(StageAfter(stage, ms[0], filterThread), Some(Becomes(ms[0])), ms[1..])
    ensures Becomes(ms[0]).Running? || !Active(Becomes(ms[0]))
  {
    var rest := ms[1..];
    if |ms| > 1 {
      assert rest[|rest| - 1] == ms[|ms| - 1];
      assert rest[..|rest| - 1] == ms[..|ms| - 1][1..];
      assert ms[..|ms| - 1][0] == ms[0];
    }
  }

  lemma AboutHead(inbox: seq<Msg>, id: int)
    requires inbox != []
    ensures About(inbox, id) == if Concerns(inbox[0], id) then [inbox[0]] + About(inbox[1..], id) else About(inbox[1..], id)
  {
  }

  // ---------- Moving a task ----------

  lemma MovedKeeps(s: System, id: int, details: Details, status: Status)
    requires Consistent(s.mgr) && Objects(s)
    requires id in s.mgr.table.slots && Active(s.mgr.table.slots[id].info.status)
    requires status.Running? ==> s.mgr.table.slots[id].info.status.Resolving? || s.mgr.table.slots[id].info.status.Running?
    requires status.Running? || !Active(status)
    ensures var s' := Moved(s, id, details, status);
      Consistent(s'.mgr) && Objects(s') && RunningCount(s'.mgr) <= RunningCount(s.mgr) &&
      s'.mgr.table.slots.Keys == s.mgr.table.slots.Keys &&
      (forall j :: j != id ==> StatusOf(s'.mgr, j) == StatusOf(s.mgr, j)) && StatusOf(s'.mgr, id) == Some(status)
  {
    hide CountsAgree, Indexed, SidsExtend, Owned, Advanced, RunningCount;
    var m, o := s.mgr, s.nextObj;
    var s' := Moved(s, id, details, status);
    AdvancedConsistent(m, id, details, status, o, o + 1);
    AdvancedOwned(m, id, details, status, o, o + 1, s.ever, s.freed);
    assert forall i :: i in Busy(s'.mgr.table.slots) ==> i in Busy(m.table.slots);
    SameBusy(m, s'.mgr, id);
  }

  lemma AdvancedOwned(m: Mgr<nat>, id: int, details: Details, status: Status, o1: nat, o2: nat, ever: set<nat>, freed: set<nat>)
    requires Owned(m, ever, freed) && id in m.table.slots && o1 !in ever && o2 !in ever && o1 != o2
    ensures Owned(Advanced(m, id, details, status, o1, o2), ever + {o1} + {o2}, freed)
  {
    hide Owned;
    var info := m.table.slots[id].info.(details := details);
    UpdateOwned(m, id, o1, info, ever, freed);
    UpdateOwned(Update(m, id, o1, info), id, o2, info.(status := status), ever + {o1}, freed);
  }

  lemma NotedKeeps(s: System, id: int, details: Details)
    requires Consistent(s.mgr) && Objects(s)
    ensures var s' := Noted(s, id, details);
      Consistent(s'.mgr) && Objects(s') && RunningCount(s'.mgr) == RunningCount(s.mgr) &&
      s'.mgr.table.slots.Keys == s.mgr.table.slots.Keys &&
      (forall j :: StatusOf(s'.mgr, j) == StatusOf(s.mgr, j))
  {
    hide CountsAgree, Owned, Indexed;
    var s' := Noted(s, id, details);
    AnnotatedConsistent(s.mgr, id, details, s.nextObj);
    if id in s.mgr.table.slots {
      UpdateOwned(s.mgr, id, s.nextObj, s.mgr.table.slots[id].info.(details := details), s.ever, s.freed);
    }
    RunningCountIsBusy(s.mgr);
    RunningCountIsBusy(s'.mgr);
    assert Busy(s'.mgr.table.slots) == Busy(s.mgr.table.slots);
  }

  // ---------- The manager handles a message about a capture ----------

  lemma HandlesReport(s: System, details: Details, worker: Option<nat>, filterThread: bool)
    requires Inv(s) && s.inbox != [] && !s.inbox[0].StartRequest?
    ensures var s' := Handled(s.(inbox := s.inbox[1..]), s.inbox[0], details, worker, filterThread);
      Inv(s') && Advances(s, s')
  {
    hide Consistent, Objects, Fitting, About, Advances, Handled, Expects, Becomes;
    var msg := s.inbox[0];
    var id := msg.id;
    var t := s.(inbox := s.inbox[1..]);
    var s' := Handled(t, msg, details, worker, filterThread);
    AboutHead(s.inbox, id);
    HeadFits(s.stages[id], StatusOf(s.mgr, id), About(s.inbox, id), filterThread);
    assert About(s.inbox, id)[1..] == About(t.inbox, id);
    SameObjects(s, t);
    ReportEffect(t, msg, details, worker, filterThread);
    forall j | j in s'.stages
      ensures Fitting(s'.stages[j], StatusOf(s'.mgr, j), About(s'.inbox, j))
    {
      AboutHead(s.inbox, j);
      assert Fitting(s.stages[j], StatusOf(s.mgr, j), About(s.inbox, j));
    }
    ReportAdvances(s, s', msg);
  }

  lemma ReportAdvances(s: System, s': System, msg: Msg)
    requires !msg.StartRequest? && s.nextId == s'.nextId
    requires s'.mgr.table.slots.Keys == s.mgr.table.slots.Keys
    requires forall j :: j != msg.id ==> StatusOf(s'.mgr, j) == StatusOf(s.mgr, j)
    requires StatusOf(s.mgr, msg.id) == Some(Expects(msg)) && StatusOf(s'.mgr, msg.id) == Some(Becomes(msg))
    requires Becomes(msg).Running? || !Active(Becomes(msg))
    ensures Advances(s, s')
  {
    forall j | j in s.mgr.table.slots
      ensures Later(s.mgr.table.slots[j].info.status, s'.mgr.table.slots[j].info.status)
    {
      assert StatusOf(s.mgr, j) == Some(s.mgr.table.slots[j].info.status);
      assert StatusOf(s'.mgr, j) == Some(s'.mgr.table.slots[j].info.status);
    }
  }

  lemma ReportEffect(t: System, msg: Msg, details: Details, worker: Option<nat>, filterThread: bool)
    requires Consistent(t.mgr) && Objects(t) && !msg.StartRequest? && msg.id in t.stages
    requires StatusOf(t.mgr, msg.id) == Some(Expects(msg)) && (Becomes(msg).Running? || !Active(Becomes(msg)))
    ensures var t' := Handled(t, msg, details, worker, filterThread);
      Consistent(t'.mgr) && Objects(t') && RunningCount(t'.mgr) <= RunningCount(t.mgr) &&
      t'.mgr.table.slots.Keys == t.mgr.table.slots.Keys &&
      (forall j :: j != msg.id ==> StatusOf(t'.mgr, j) == StatusOf(t.mgr, j)) &&
      StatusOf(t'.mgr, msg.id) == Some(Becomes(msg)) &&
      t'.inbox == t.inbox && t'.nextId == t.nextId && t'.maxConcurrent == t.maxConcurrent &&
      t'.stages == t.stages[msg.id := StageAfter(t.stages[msg.id], msg, filterThread)]
  {
    hide Consistent, Objects, Advanced, Annotated, RunningCount;
    var id := msg.id;
    assert t.stages == t.stages[id := t.stages[id]];
    match msg
    case Started(_) => MovedKeeps(t, id, details, Running);
    case FileReady(_) => NotedKeeps(t, id, details);
    case Finished(_, status) => MovedKeeps(t, id, details, status);
    case CaptureFailed(_) => MovedKeeps(t, id, details, Failed);
    case RawFile(_) => SameObjects(t, Handled(t, msg, details, worker, filterThread));
    case FilteredFile(_) =>
      NotedKeeps(t, id, details);
      MovedKeeps(Noted(t, id, details), id, details, Completed);
  }

  /** What a message about a capture does to its status; no other status changes. */
  lemma ReportSetsStatus(s: System, details: Details, worker: Option<nat>, filterThread: bool, j: int)
    requires Inv(s) && s.inbox != [] && !s.inbox[0].StartRequest?
    ensures var msg := s.inbox[0];
      var s' := Apply(s, ManagerHandles(details, worker, filterThread));
      (j != msg.id || msg.FileReady? || msg.RawFile? ==> StatusOf(s'.mgr, j) == StatusOf(s.mgr, j)) &&
      (j == msg.id && msg.Started? ==> StatusOf(s.mgr, j) == Some(Resolving) && StatusOf(s'.mgr, j) == Some(Running)) &&
      (j == msg.id && msg.Finished? ==> StatusOf(s.mgr, j) == Some(Running) && StatusOf(s'.mgr, j) == Some(msg.status)) &&
      (j == msg.id && msg.CaptureFailed? ==> StatusOf(s.mgr, j) == Some(Resolving) && StatusOf(s'.mgr, j) == Some(Failed)) &&
      (j == msg.id && msg.FilteredFile? ==> StatusOf(s.mgr, j) == Some(Running) && StatusOf(s'.mgr, j) == Some(Completed))
  {
    hide Consistent, Objects, Fitting, About;
    var id := s.inbox[0].id;
    AboutHead(s.inbox, id);
    HeadFits(s.stages[id], StatusOf(s.mgr, id), About(s.inbox, id), filterThread);
  }

  lemma SameObjects(t: System, t': System)
    requires Objects(t) && t'.mgr == t.mgr && t'.ever == t.ever && t'.nextObj == t.nextObj && t'.freed == t.freed
    ensures Objects(t')
  {
  }

  // ---------- The manager handles a start request ----------

  /** A finished capture has no messages under way, so it may be evicted. */
  lemma GoneFits(stage: Stage, status: Option<Status>, ms: seq<Msg>)
    requires Fitting(stage, status, ms) && (status.Some? ==> !Active(status.value))
    ensures Fitting(stage, None, ms)
  {
  }

  lemma {:induction false} AboutNobody(inbox: seq<Msg>, id: int)
    requires forall k :: 0 <= k < |inbox| ==> !Concerns(inbox[k], id)
    ensures About(inbox, id) == []
  {
    if inbox != [] {
      AboutNobody(inbox[1..], id);
    }
  }

  lemma AcceptedObjects(s: System, r: Request, details: Details, worker: Option<nat>)
    requires Objects(s)
    requires s.nextId in Added(s.mgr, s.nextId, r, details, s.nextObj).table.slots
    ensures var o := s.nextObj;
      Objects(s.(mgr := Accepted(s.mgr, s.nextId, r, details, worker, o, o + 1),
                 ever := s.ever + {o} + (if worker.Some? then {o + 1} else {}), nextObj := o + 3))
  {
    hide Owned;
    var o := s.nextObj;
    var id := s.nextId;
    var m1 := Added(s.mgr, id, r, details, o);
    AddTaskOwned(s.mgr, id, r.key, r.signature, SidOf(r), o, NewInfo(id, r, details), s.ever, s.freed);
    if worker.Some? {
      UpdateOwned(m1, id, o + 1, Assigned(m1.table.slots[id].info, worker.value), s.ever + {o}, s.freed);
    } else {
      assert s.ever + {o} + {} == s.ever + {o};
    }
  }

  /** Taking a request off the inbox changes nothing for the captures. */
  lemma RequestTaken(s: System)
    requires Inv(s) && s.inbox != [] && s.inbox[0].StartRequest?
    ensures Inv(s.(inbox := s.inbox[1..]))
  {
    hide Consistent, Objects, Fitting, About, RunningCount;
    var t := s.(inbox := s.inbox[1..]);
    SameObjects(s, t);
    forall j | j in s.stages
      ensures Fitting(s.stages[j], StatusOf(s.mgr, j), About(t.inbox, j))
    {
      AboutHead(s.inbox, j);
    }
  }

  /** The table after an acceptance, as far as the other captures are concerned. */
  ghost predicate AddsOnly(m: Mgr<nat>, m': Mgr<nat>, id: int) {
    var t, t' := m.table.slots, m'.table.slots;
    id in t' && id !in t &&
    (forall i :: i in t' && i != id ==> i in t && t'[i] == t[i]) &&
    (forall i :: i in t && Active(t[i].info.status) ==> i in t')
  }

  lemma AcceptedPipeline(s: System, s': System, worker: Option<nat>)
    requires Pipeline(s) && AddsOnly(s.mgr, s'.mgr, s.nextId) && FIRST_CAPTURE_ID <= s.nextId
    requires s'.inbox == s.inbox && s'.nextId == s.nextId + 1
    requires s'.stages == s.stages[s.nextId := if worker.Some? then Queued else NoWorker]
    requires StatusOf(s'.mgr, s.nextId) == Some(if worker.Some? then Resolving else Pending)
    ensures Pipeline(s')
  {
    hide Fitting, About;
    AboutNobody(s.inbox, s.nextId);
    NewFits(worker);
    forall j | j in s'.stages
      ensures Fitting(s'.stages[j], StatusOf(s'.mgr, j), About(s'.inbox, j))
    {
      if j != s.nextId && StatusOf(s'.mgr, j) == None {
        GoneFits(s.stages[j], StatusOf(s.mgr, j), About(s.inbox, j));
      }
    }
  }

  lemma AcceptsRequest(s: System, r: Request, details: Details, worker: Option<nat>, filterThread: bool)
    requires Inv(s) && |r.signature| == SIGNATURE_LENGTH
    requires Decide(s.mgr, r.key, r.signature, s.maxConcurrent) == Accept
    ensures var s' := Handled(s, StartRequest(r), details, worker, filterThread);
      Inv(s') && Advances(s, s')
  {
    hide Consistent, Objects, Pipeline, Decide, Accepted, RunningCount;
    var id := s.nextId;
    var s' := Handled(s, StartRequest(r), details, worker, filterThread);
    assert id !in s.mgr.table.slots by { NextIdUnused(s); }
    AcceptedConsistent(s.mgr, id, r, details, worker, s.nextObj, s.nextObj + 1, s.maxConcurrent);
    AcceptedEvictsNoActive(s.mgr, id, r, details, s.nextObj, s.maxConcurrent);
    AcceptedObjects(s, r, details, worker);
    SameObjects(s.(mgr := s'.mgr, ever := s'.ever, nextObj := s'.nextObj), s');
    assert AddsOnly(s.mgr, s'.mgr, id);
    AcceptedPipeline(s, s', worker);
  }

  lemma NextIdUnused(s: System)
    requires Pipeline(s)
    ensures s.nextId !in s.mgr.table.slots
  {
  }

  lemma HandlesRequest(s: System, details: Details, worker: Option<nat>, filterThread: bool)
    requires Inv(s) && s.inbox != [] && s.inbox[0].StartRequest?
    ensures var s' := Handled(s.(inbox := s.inbox[1..]), s.inbox[0], details, worker, filterThread);
      Inv(s') && Advances(s, s')
  {
    hide Consistent, Objects, RunningCount, Accepted, Decide;
    var r := s.inbox[0].request;
    assert |r.signature| == SIGNATURE_LENGTH;
    hide Pipeline;
    RequestTaken(s);
    if Decide(s.mgr, r.key, r.signature, s.maxConcurrent) == Accept {
      AcceptsRequest(s.(inbox := s.inbox[1..]), r, details, worker, filterThread);
    }
  }

  lemma NewFits(worker: Option<nat>)
    ensures worker.Some? ==> Fitting(Queued, Some(Resolving), [])
    ensures worker.None? ==> Fitting(NoWorker, Some(Pending), [])
  {
  }

  // ---------- Workers, filter threads and clients send ----------

  /** Adding a message about a capture at the given stage fits the stage it moves to. */
  predicate Sends(stage: Stage, msg: Msg, stage': Stage) {
    match msg
    case CaptureFailed(_) => stage.Queued? && stage'.Reported?
    case Started(_) => stage.Queued? && stage'.Capturing?
    case FileReady(_) => stage.Capturing? && stage'.Capturing?
    case Finished(_, status) => stage.Capturing? && stage'.Reported? && !Active(status)
    case RawFile(_) => stage.Capturing? && stage'.RawSent?
    case FilteredFile(_) => stage.Filtering? && stage'.Filtered?
    case StartRequest(_) => false
  }

  lemma SentFits(stage: Stage, status: Option<Status>, ms: seq<Msg>, msg: Msg, stage': Stage)
    requires Fitting(stage, status, ms) && Sends(stage, msg, stage')
    ensures Fitting(stage', status, ms + [msg])
  {
    assert (ms + [msg])[..|ms|] == ms;
    if ms != [] {
      assert (ms + [msg])[1..] == ms[1..] + [msg];
    }
  }

  lemma SendingKeeps(s: System, id: int, msg: Msg, stage: Stage)
    requires Inv(s) && id in s.stages && !msg.StartRequest? && msg.id == id && Sends(s.stages[id], msg, stage)
    ensures Inv(Sent(s, id, msg, stage))
  {
    hide Consistent, Objects, Fitting, About, RunningCount;
    var s' := Sent(s, id, msg, stage);
    SameObjects(s, s');
    forall j | j in s'.stages
      ensures Fitting(s'.stages[j], StatusOf(s'.mgr, j), About(s'.inbox, j))
    {
      AboutAppend(s.inbox, msg, j);
      if j == id {
        SentFits(s.stages[id], StatusOf(s.mgr, id), About(s.inbox, id), msg, stage);
      } else {
        assert About(s.inbox, j) + [] == About(s.inbox, j);
      }
    }
  }

  lemma RequestKeeps(s: System, r: Request)
    requires Inv(s) && |r.signature| == SIGNATURE_LENGTH
    ensures Inv(s.(inbox := s.inbox + [StartRequest(r)]))
  {
    hide Consistent, Objects, Fitting, About, RunningCount;
    var s' := s.(inbox := s.inbox + [StartRequest(r)]);
    SameObjects(s, s');
    forall j | j in s'.stages
      ensures Fitting(s'.stages[j], StatusOf(s'.mgr, j), About(s'.inbox, j))
    {
      AboutAppend(s.inbox, StartRequest(r), j);
      assert About(s.inbox, j) + [] == About(s.inbox, j);
    }
  }

  lemma AbandonedFits(status: Option<Status>, ms: seq<Msg>)
    requires Fitting(Filtering, status, ms)
    ensures Fitting(Abandoned, status, ms)
  {
  }

  lemma OthersKeep(s: System, step: Step)
    requires Inv(s) && Enabled(s, step) && (step.FilterFails? || step.Annotates? || step.CleansUp?)
    ensures Inv(Apply(s, step)) && Advances(s, Apply(s, step))
  {
    hide Consistent, Objects, Fitting, About, RunningCount, Annotated;
    var s' := Apply(s, step);
    match step
    case FilterFails(id) =>
      SameObjects(s, s');
      AbandonedFits(StatusOf(s.mgr, id), About(s.inbox, id));
    case Annotates(id, details) =>
      NotedKeeps(s, id, details);
      assert s'.stages == s.stages && s'.inbox == s.inbox;
      forall j | j in s.mgr.table.slots
        ensures j in s'.mgr.table.slots && s.mgr.table.slots[j].info.status == s'.mgr.table.slots[j].info.status
      {
        assert StatusOf(s.mgr, j) == StatusOf(s'.mgr, j);
      }
    case CleansUp => CleansUpKeeps(s);
  }

  lemma CleansUpKeeps(s: System)
    requires Inv(s)
    ensures Inv(Apply(s, CleansUp))
  {
    hide Owned, Fitting, Indexed;
    CleanupOwned(s.mgr, s.ever, s.freed);
    forall id | id in s.stages
      ensures Fitting(s.stages[id], StatusOf(Cleanup(s.mgr), id), About(s.inbox, id))
    {
      assert StatusOf(Cleanup(s.mgr), id) == StatusOf(s.mgr, id);
    }
  }

  // ---------- Every run ----------

  /** Every step keeps the invariant, and moves the status of every task forward only. */
  lemma StepKeepsInv(s: System, step: Step)
    requires Inv(s) && Enabled(s, step)
    ensures Inv(Apply(s, step)) && Advances(s, Apply(s, step))
  {
    hide Inv, Advanced, Annotated, Handled, RunningCount;
    match step
    case ClientRequests(r) => RequestKeeps(s, r);
    case ManagerHandles(details, worker, filterThread) =>
      if s.inbox[0].StartRequest? {
        HandlesRequest(s, details, worker, filterThread);
      } else {
        HandlesReport(s, details, worker, filterThread);
      }
    case WorkerFails(id) => SendingKeeps(s, id, CaptureFailed(id), Reported);
    case WorkerStarts(id) => SendingKeeps(s, id, Started(id), Capturing);
    case WorkerSendsFile(id) => SendingKeeps(s, id, FileReady(id), Capturing);
    case WorkerFinishes(id, status) => SendingKeeps(s, id, Finished(id, status), Reported);
    case WorkerSendsRaw(id) => SendingKeeps(s, id, RawFile(id), RawSent);
    case FilterSends(id) => SendingKeeps(s, id, FilteredFile(id), Filtered);
    case _ => OthersKeep(s, step);
  }

  lemma InitInv(s: System)
    requires Init(s)
    ensures Inv(s)
  {
    assert forall st: Status :: WithStatus(s.mgr.table.slots, st) == {};
  }

  lemma {:induction false} ExecutionInv(run: seq<System>, n: nat)
    requires Execution(run) && n < |run|
    ensures Inv(run[n])
  {
    hide Inv;
    if n == 0 {
      InitInv(run[0]);
    } else {
      ExecutionInv(run, n - 1);
      assert Next(run[n - 1], run[n - 1 + 1]);
      var step :| Enabled(run[n - 1], step) && run[n] == Apply(run[n - 1], step);
      StepKeepsInv(run[n - 1], step);
    }
  }

  /** Admission over every run: the limit is respected, at most one active task has a given key and at most
      one a given signature, and counters, indexes and ownership agree with the table. */
  lemma AdmissionSafe(run: seq<System>, n: nat, i: int, j: int)
    requires Execution(run) && n < |run|
    ensures var s := run[n];
      RunningCount(s.mgr) <= s.maxConcurrent && |Busy(s.mgr.table.slots)| == RunningCount(s.mgr) &&
      CountsAgree(s.mgr) && Indexed(s.mgr.table) && Owned(s.mgr, s.ever, s.freed)
    ensures var t := run[n].mgr.table.slots;
      (i in t && j in t && Active(t[i].info.status) && Active(t[j].info.status) &&
       (t[i].info.key == t[j].info.key || t[i].info.signature == t[j].info.signature)) ==> i == j
  {
    ExecutionInv(run, n);
    RunningCountIsBusy(run[n].mgr);
    var t := run[n].mgr.table.slots;
    if i in t && j in t && Active(t[i].info.status) && Active(t[j].info.status) &&
       (t[i].info.key == t[j].info.key || t[i].info.signature == t[j].info.signature) {
      hide Indexed, CountsAgree;
      OneActiveEach(run[n].mgr, i, j);
    }
  }

  function Rank(s: Status): nat {
    match s
    case Pending => 0
    case Resolving => 1
    case Running => 2
    case _ => 3
  }

  /** Over every run a status only moves forward: in particular a finished task never becomes active again,
      and an id that has left the table does not come back. */
  lemma {:induction false} StatusForward(run: seq<System>, m: nat, n: nat, id: int)
    requires Execution(run) && m <= n < |run|
    requires id < run[m].nextId && id in run[n].mgr.table.slots
    ensures run[m].nextId <= run[n].nextId && id in run[m].mgr.table.slots
    ensures var a, b := run[m].mgr.table.slots[id].info.status, run[n].mgr.table.slots[id].info.status;
      a == b || Rank(a) < Rank(b)
  {
    hide Inv, Apply;
    NextIdGrows(run, m, n);
    if m < n {
      ExecutionInv(run, n - 1);
      assert Next(run[n - 1], run[n - 1 + 1]);
      var step :| Enabled(run[n - 1], step) && run[n] == Apply(run[n - 1], step);
      StepKeepsInv(run[n - 1], step);
      NextIdGrows(run, m, n - 1);
      StatusForward(run, m, n - 1, id);
    }
  }

  lemma {:induction false} NextIdGrows(run: seq<System>, m: nat, n: nat)
    requires Execution(run) && m <= n < |run|
    ensures run[m].nextId <= run[n].nextId
  {
    hide Inv, Apply;
    if m < n {
      NextIdGrows(run, m, n - 1);
      ExecutionInv(run, n - 1);
      assert Next(run[n - 1], run[n - 1 + 1]);
      var step :| Enabled(run[n - 1], step) && run[n] == Apply(run[n - 1], step);
      StepKeepsInv(run[n - 1], step);
    }
  }

  /** A running task never leaves the table: as long as a capture is active it can be looked up. */
  lemma {:induction false} ActiveStays(run: seq<System>, m: nat, n: nat, id: int)
    requires Execution(run) && m <= n < |run| && id in run[m].mgr.table.slots
    ensures id in run[n].mgr.table.slots ||
            exists k :: m <= k < n && StatusOf(run[k].mgr, id).Some? && !Active(StatusOf(run[k].mgr, id).value)
  {
    hide Inv, Apply;
    if m < n {
      ActiveStays(run, m, n - 1, id);
      ExecutionInv(run, n - 1);
      assert Next(run[n - 1], run[n - 1 + 1]);
      var step :| Enabled(run[n - 1], step) && run[n] == Apply(run[n - 1], step);
      StepKeepsInv(run[n - 1], step);
    }
  }
}
