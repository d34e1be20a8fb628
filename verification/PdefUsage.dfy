/** Which definitions are in use by captures, and when a detected byte order is written to their files
    (rxcapturemanagerthread.cpp). */
module PdefUsage {
  import opened Pdef
  import opened Writeback

  /** `written` belongs to writeback_done, `detected` is absent while the order is unknown. */
  datatype Info = Info(active: set<int>, detected: Option<Endian>, needed: bool, written: bool)

  const NO_INFO := Info({}, None, false, false)

  type Usage = map<string, Info>

  type Files = map<string, string>

  datatype State = State(usage: Usage, files: Files)

  function InfoOf(u: Usage, path: string): Info { if path in u then u[path] else NO_INFO }

  // ---------- The operations ----------

  function Started(u: Usage, id: int, path: string): Usage {
    if path == "" then u else var i := InfoOf(u, path); u[path := i.(active := i.active + {id})]
  }

  function Ended(u: Usage, id: int, path: string): Usage {
    if path == "" || path !in u then u else u[path := u[path].(active := u[path].active - {id})]
  }

  /** The order that is written: little unless big was detected. */
  function WrittenOrder(detected: Option<Endian>): Endian {
    match detected
    case Some(Big) => Big
    case _ => Little
  }

  /** `io` says whether reading, writing and renaming succeed. */
  function FileWritten(files: Files, path: string, order: Endian, io: bool): Option<Files> {
    if !io || path !in files then None else
    match Rewrite(files[path], order)
    case None => None
    case Some(text) => Some(files[path := text])
  }

  function Tried(s: State, path: string, io: bool): State {
    if path == "" || path !in s.usage then s else
    var i := s.usage[path];
    if !i.needed || i.written || i.active != {} then s else
    match FileWritten(s.files, path, WrittenOrder(i.detected), io)
    case None => s
    case Some(files) => State(s.usage[path := i.(written := true)], files)
  }

  function Noted(u: Usage, path: string, order: Endian): Usage {
    var i := InfoOf(u, path);
    if i.written then u[path := i]
    else if i.detected.None? then u[path := i.(detected := Some(order), needed := true)]
    else u[path := i]
  }

  datatype Dispatch = ToFilter | NoFilterThreads | NullFilterThread

  datatype Event =
    | RawFile(id: int, path: string, dispatch: Dispatch)
    | FilteredFile(id: int, path: string, io: bool)
    | OrderDetected(path: string, order: Endian, io: bool)

  function Next(s: State, e: Event): State {
    match e
    case RawFile(id, path, dispatch) =>
      var u := Started(s.usage, id, path);
      s.(usage := if dispatch.NoFilterThreads? then Ended(u, id, path) else u)
    case FilteredFile(id, path, io) =>
      Tried(s.(usage := Ended(s.usage, id, path)), path, io)
    case OrderDetected(path, order, io) =>
      if path == "" then s
      else
        var u := Noted(s.usage, path, order);
        if InfoOf(s.usage, path).written then s.(usage := u) else Tried(s.(usage := u), path, io)
  }

  // ---------- The methods ----------

  class UsageTracker {
    var usage: Usage
    var files: Files

    constructor (files: Files)
      ensures State(this.usage, this.files) == State(map[], files)
    {
      this.usage, this.files := map[], files;
    }

    method TrackStart(id: int, path: string)
      modifies this`usage
      ensures usage == Started(old(usage), id, path)
    {
      if path == "" {
        return;
      }
      if path !in usage {
        usage := usage[path := NO_INFO];
      }
      usage := usage[path := usage[path].(active := usage[path].active + {id})];
    }

    method TrackEnd(id: int, path: string)
      modifies this`usage
      ensures usage == Ended(old(usage), id, path)
    {
      if path == "" || path !in usage {
        return;
      }
      usage := usage[path := usage[path].(active := usage[path].active - {id})];
    }

    method WritebackEndianToFile(path: string, order: Option<Endian>, io: bool)
      returns (ok: bool)
      modifies this`files
      ensures var r := FileWritten(old(files), path, WrittenOrder(order), io);
        ok == r.Some? && files == if r.Some? then r.value else old(files)
    {
      if !io || path !in files {
        return false;
      }
      var text := Rewrite(files[path], WrittenOrder(order));
      if text.None? {
        return false;
      }
      files := files[path := text.value];
      return true;
    }

    method TryWriteback(path: string, io: bool)
      modifies this
      ensures State(usage, files) == Tried(State(old(usage), old(files)), path, io)
    {
      hide FileWritten;
      if path == "" || path !in usage {
        return;
      }
      var info := usage[path];
      if !info.needed || info.written {
        return;
      }
      if info.active != {} {
        return;
      }
      var ok := WritebackEndianToFile(path, info.detected, io);
      if ok {
        usage := usage[path := info.(written := true)];
      }
    }

    method HandleRawFile(id: int, path: string, dispatch: Dispatch)
      modifies this`usage
      ensures State(usage, files) == Next(State(old(usage), files), RawFile(id, path, dispatch))
    {
      hide Started, Ended;
      if path != "" {
        TrackStart(id, path);
      } else {
        assert Started(usage, id, path) == usage by { NoPath(usage, id); }
      }
      if dispatch.NoFilterThreads? {
        if path != "" {
          TrackEnd(id, path);
        } else {
          NoPath(usage, id);
        }
      }
    }

    method HandleFilteredFile(id: int, path: string, io: bool)
      modifies this
      ensures State(usage, files) == Next(State(old(usage), old(files)), FilteredFile(id, path, io))
    {
      hide Ended;
      if path != "" {
        TrackEnd(id, path);
        TryWriteback(path, io);
      } else {
        NoPath(usage, id);
      }
    }

    method HandleOrderDetected(path: string, order: Endian, io: bool)
      modifies this
      ensures State(usage, files) == Next(State(old(usage), old(files)), OrderDetected(path, order, io))
    {
      hide Tried;
      if path == "" {
        return;
      }
      if path !in usage {
        usage := usage[path := NO_INFO];
      }
      var info := usage[path];
      if info.written {
        return;
      }
      if info.detected.None? {
        usage := usage[path := info.(detected := Some(order), needed := true)];
      }
      assert usage == Noted(old(usage), path, order);
      TryWriteback(path, io);
    }
  }

  lemma NoPath(u: Usage, id: int)
    ensures Started(u, id, "") == u && Ended(u, id, "") == u
  {
  }

  // ---------- What a run of events means, without the map ----------

  /** The captures that handed in a raw file for `path` and have not been reported filtered. */
  function Using(events: seq<Event>, path: string): set<int> {
    if events == [] || path == "" then {} else
    var (earlier, e) := (events[..|events| - 1], events[|events| - 1]);
    var before := Using(earlier, path);
    if e.path != path then before else
    match e
    case RawFile(id, _, dispatch) => if dispatch.NoFilterThreads? then before - {id} else before + {id}
    case FilteredFile(id, _, _) => before - {id}
    case OrderDetected(_, _, _) => before
  }

  /** The first byte order reported for `path`. */
  function FirstOrder(events: seq<Event>, path: string): Option<Endian> {
    if events == [] || path == "" then None else
    var (earlier, e) := (events[..|events| - 1], events[|events| - 1]);
    var before := FirstOrder(earlier, path);
    if before.Some? || !e.OrderDetected? || e.path != path then before else Some(e.order)
  }

  ghost predicate Execution(original: Files, states: seq<State>, events: seq<Event>) {
    |states| == |events| + 1 && states[0] == State(map[], original) &&
    forall k :: 0 <= k < |events| ==> states[k + 1] == Next(states[k], events[k])
  }

  /** The bookkeeping for one path, and its file: the original, or the original with the first order written. */
  predicate PathInv(original: Files, s: State, using: set<int>, first: Option<Endian>, path: string) {
    var i := InfoOf(s.usage, path);
    i.active == using && i.detected == first && i.needed == first.Some? &&
    (path in s.files <==> path in original) &&
    if i.written then
      first.Some? && path in original && Rewrite(original[path], first.value) == Some(s.files[path])
    else
      path in original ==> s.files[path] == original[path]
  }

  lemma OtherPathKept(original: Files, s: State, e: Event, using: set<int>, first: Option<Endian>, path: string)
    requires PathInv(original, s, using, first, path) && e.path != path
    ensures PathInv(original, Next(s, e), using, first, path)
  {
    hide Rewrite;
  }

  lemma KnownOrder(order: Option<Endian>)
    requires order.Some?
    ensures order == Some(WrittenOrder(order))
  {
  }

  lemma TriedKeeps(original: Files, s: State, using: set<int>, first: Option<Endian>, path: string, io: bool)
    requires PathInv(original, s, using, first, path)
    ensures PathInv(original, Tried(s, path, io), using, first, path)
    ensures Tried(s, path, io).files != s.files ==> using == {} && !InfoOf(s.usage, path).written
  {
    hide Rewrite;
    var i := InfoOf(s.usage, path);
    if i.needed {
      KnownOrder(first);
    }
    var s' := Tried(s, path, io);
    assert s' == s || InfoOf(s'.usage, path) == i.(written := true);
  }

  lemma StepKeeps(original: Files, s: State, earlier: seq<Event>, e: Event, path: string)
    requires PathInv(original, s, Using(earlier, path), FirstOrder(earlier, path), path)
    requires path != ""
    ensures PathInv(original, Next(s, e), Using(earlier + [e], path), FirstOrder(earlier + [e], path), path)
    ensures e.path == path && Next(s, e).files != s.files ==>
      Using(earlier + [e], path) == {} && !InfoOf(s.usage, path).written
  {
    hide Rewrite, Tried, FileWritten;
    assert (earlier + [e])[..|earlier|] == earlier;
    if e.path != path {
      OtherPathKept(original, s, e, Using(earlier, path), FirstOrder(earlier, path), path);
    } else {
      var using := Using(earlier + [e], path);
      var first := FirstOrder(earlier + [e], path);
      match e {
        case RawFile(id, _, _) =>
        case FilteredFile(id, _, io) =>
          TriedKeeps(original, s.(usage := Ended(s.usage, id, path)), using, first, path, io);
        case OrderDetected(_, order, io) =>
          TriedKeeps(original, s.(usage := Noted(s.usage, path, order)), using, first, path, io);
      }
    }
  }

  lemma {:induction false} RunKeeps(original: Files, states: seq<State>, events: seq<Event>, k: nat, path: string)
    requires Execution(original, states, events) && k < |states| && path != ""
    ensures PathInv(original, states[k], Using(events[..k], path), FirstOrder(events[..k], path), path)
    decreases k
  {
    hide PathInv, Next;
    if k == 0 {
      assert PathInv(original, states[0], {}, None, path) by { NothingYet(original, path); }
    } else {
      RunKeeps(original, states, events, k - 1, path);
      assert states[k] == Next(states[k - 1], events[k - 1]);
      StepKeeps(original, states[k - 1], events[..k - 1], events[k - 1], path);
      assert events[..k - 1] + [events[k - 1]] == events[..k];
    }
  }

  lemma NothingYet(original: Files, path: string)
    ensures PathInv(original, State(map[], original), {}, None, path)
  {
  }

  /** In every run each file is as it was, or is the original with the first reported order written to it. */
  lemma FilesOfRun(original: Files, states: seq<State>, events: seq<Event>, k: nat, path: string)
    requires Execution(original, states, events) && k < |states| && path != "" && path in original
    ensures var first := FirstOrder(events[..k], path);
      path in states[k].files &&
      (states[k].files[path] == original[path] ||
       (first.Some? && Rewrite(original[path], first.value) == Some(states[k].files[path])))
  {
    hide Rewrite, Next;
    RunKeeps(original, states, events, k, path);
  }

  /** A step that changes a file changes the file it is about, which no capture uses and which was not
      written before. */
  lemma WritesAreSafe(original: Files, states: seq<State>, events: seq<Event>, k: nat)
    requires Execution(original, states, events) && k < |events| && states[k + 1].files != states[k].files
    ensures var path := events[k].path;
      path != "" && Using(events[..k + 1], path) == {} && !InfoOf(states[k].usage, path).written &&
      states[k + 1].files.Keys == states[k].files.Keys &&
      forall other :: other in states[k].files && other != path ==>
        states[k + 1].files[other] == states[k].files[other]
  {
    hide Rewrite, PathInv, Using, FirstOrder;
    var path := events[k].path;
    assert states[k + 1] == Next(states[k], events[k]);
    RunKeeps(original, states, events, k, path);
    StepKeeps(original, states[k], events[..k], events[k], path);
    assert events[..k] + [events[k]] == events[..k + 1];
  }

  // ---------- Exactly when a file is written ----------

  /** The event at which a file can be written: a filtered file or a report of an order, after which no capture uses the
      definition, an order is known, and the file can be rewritten. */
  ghost predicate Triggers(original: Files, events: seq<Event>, j: nat, path: string) {
    j < |events| && events[j].path == path && (events[j].FilteredFile? || events[j].OrderDetected?) && events[j].io &&
    Using(events[..j + 1], path) == {} && FirstOrder(events[..j + 1], path).Some? && path in original &&
    Rewrite(original[path], FirstOrder(events[..j + 1], path).value).Some?
  }

  lemma StepWrites(original: Files, s: State, events: seq<Event>, k: nat, path: string)
    requires k < |events| && path != ""
    requires PathInv(original, s, Using(events[..k], path), FirstOrder(events[..k], path), path)
    ensures InfoOf(Next(s, events[k]).usage, path).written <==> InfoOf(s.usage, path).written || Triggers(original, events, k, path)
  {
    hide Rewrite, Using, FirstOrder;
    var e := events[k];
    var using, first := Using(events[..k + 1], path), FirstOrder(events[..k + 1], path);
    if e.path == path {
      NextPath(events, k, path);
      match e {
        case RawFile(_, _, _) =>
        case FilteredFile(id, _, io) =>
          TriedWrites(original, s.(usage := Ended(s.usage, id, path)), using, first, path, io);
        case OrderDetected(_, order, io) =>
          TriedWrites(original, s.(usage := Noted(s.usage, path, order)), using, first, path, io);
      }
    }
  }

  /** What an event about a path does to its users and its order. */
  lemma NextPath(events: seq<Event>, k: nat, path: string)
    requires k < |events| && events[k].path == path && path != ""
    ensures FirstOrder(events[..k + 1], path) ==
      if FirstOrder(events[..k], path).None? && events[k].OrderDetected? then Some(events[k].order) else FirstOrder(events[..k], path)
    ensures Using(events[..k + 1], path) ==
      if events[k].OrderDetected? then Using(events[..k], path)
      else if events[k].FilteredFile? || events[k].dispatch.NoFilterThreads? then Using(events[..k], path) - {events[k].id}
      else Using(events[..k], path) + {events[k].id}
  {
    assert events[..k + 1][..k] == events[..k];
  }

  lemma TriedWrites(original: Files, s: State, using: set<int>, first: Option<Endian>, path: string, io: bool)
    requires path != "" && PathInv(original, s, using, first, path)
    ensures InfoOf(Tried(s, path, io).usage, path).written <==>
      InfoOf(s.usage, path).written ||
      (io && using == {} && first.Some? && path in original && Rewrite(original[path], first.value).Some?)
  {
    hide Rewrite;
    if first.Some? {
      KnownOrder(first);
    }
  }

  lemma {:induction false} RunWrites(original: Files, states: seq<State>, events: seq<Event>, k: nat, path: string)
    requires Execution(original, states, events) && k < |states| && path != ""
    ensures InfoOf(states[k].usage, path).written <==> exists j :: 0 <= j < k && Triggers(original, events, j, path)
    decreases k
  {
    hide PathInv, Next, Triggers;
    if k > 0 {
      RunWrites(original, states, events, k - 1, path);
      RunKeeps(original, states, events, k - 1, path);
      assert states[k] == Next(states[k - 1], events[k - 1]);
      StepWrites(original, states[k - 1], events, k - 1, path);
    } else {
      assert InfoOf(states[0].usage, path) == NO_INFO;
    }
  }

  /** In every run each file is the original with the first reported order written to it if and only if some event
      could write it, and is the original otherwise. */
  lemma FilesExactly(original: Files, states: seq<State>, events: seq<Event>, k: nat, path: string)
    requires Execution(original, states, events) && k < |states| && path != "" && path in original
    ensures path in states[k].files
    ensures var first := FirstOrder(events[..k], path);
      if exists j :: 0 <= j < k && Triggers(original, events, j, path)
      then first.Some? && Rewrite(original[path], first.value) == Some(states[k].files[path])
      else states[k].files[path] == original[path]
  {
    hide Rewrite, Next, Triggers;
    RunKeeps(original, states, events, k, path);
    RunWrites(original, states, events, k, path);
  }

  /** When the last user of a definition with a reported order is done, or the order is reported when no capture uses
      the definition, and the file can be rewritten, it is. */
  lemma LastUserWrites(original: Files, states: seq<State>, events: seq<Event>, k: nat)
    requires Execution(original, states, events) && k < |events| && events[k].path != ""
    requires Triggers(original, events, k, events[k].path)
    ensures var path := events[k].path;
      path in states[k + 1].files &&
      Rewrite(original[path], FirstOrder(events[..k + 1], path).value) == Some(states[k + 1].files[path])
  {
    hide Rewrite, Using, FirstOrder;
    FilesExactly(original, states, events, k + 1, events[k].path);
  }
}
