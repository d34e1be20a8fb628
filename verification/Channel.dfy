/** The inter-thread channel (core/legacy_core_net.cpp, class channel_data_process): two queues, of which
    senders fill one while the receiver owns the other, refine one first-in-first-out queue until a handler throws
    or the channel's object is gone. */
module Channel {
  import opened Pdef

  /** `taken` is what the receiver has swapped out and not yet handled.  The object of the channel is `connected` until
      it is destroyed, and the receiver is `holding` it while it handles a batch.  `handled` records what handlers were
      given, `lost` what was swapped out and given to none, `sent` every message put in. */
  datatype State<M> = State(
    queue0: seq<M>,
    queue1: seq<M>,
    current: nat,
    taken: seq<M>,
    connected: bool,
    holding: bool,
    handled: seq<M>,
    lost: seq<M>,
    sent: seq<M>)

  function Initially<M>(): State<M> { State([], [], 0, [], true, false, [], [], []) }

  function Queue<M>(s: State<M>, k: nat): seq<M> { if k == 0 then s.queue0 else s.queue1 }

  function Other(k: nat): nat { if k == 0 then 1 else 0 }

  function WithQueue<M>(s: State<M>, k: nat, q: seq<M>): State<M> {
    if k == 0 then s.(queue0 := q) else s.(queue1 := q)
  }

  // ---------- The critical sections and the handling of one message ----------

  /** put_msg: into the queue that is not current. */
  function Put<M>(s: State<M>, m: M): State<M> {
    var idle := Other(s.current);
    WithQueue(s, idle, Queue(s, idle) + [m]).(sent := s.sent + [m])
  }

  /** The receiver's critical section: switch if the current queue is empty, then swap the current one out. */
  function Take<M>(s: State<M>): State<M> {
    var k := if Queue(s, s.current) == [] then Other(s.current) else s.current;
    WithQueue(s, k, []).(current := k, taken := Queue(s, k))
  }

  /** The object is locked for the whole batch. */
  function Lock<M>(s: State<M>): State<M> { s.(holding := true) }

  function Handle<M>(s: State<M>): State<M>
    requires s.taken != []
  {
    s.(taken := s.taken[1..], handled := s.handled + [s.taken[0]], holding := |s.taken| > 1)
  }

  /** The handler of the next message throws: the batch is gone with the call, and the object is destroyed. */
  function Throw<M>(s: State<M>): State<M>
    requires s.taken != []
  {
    s.(taken := [], handled := s.handled + [s.taken[0]], lost := s.lost + s.taken[1..], holding := false, connected := false)
  }

  /** Without the object the loop hands no message out. */
  function Drop<M>(s: State<M>): State<M> { s.(taken := [], lost := s.lost + s.taken) }

  datatype Step<M> = PutStep(m: M) | TakeStep | LockStep | HandleStep | ThrowStep | DropStep | DestroyStep

  /** Senders act at any time, and the object can be destroyed at any time; the one receiver takes a batch only after
      it is done with the last. */
  predicate Enabled<M>(s: State<M>, step: Step<M>) {
    match step
    case PutStep(_) => true
    case TakeStep => s.taken == []
    case LockStep => s.taken != [] && !s.holding && s.connected
    case HandleStep => s.taken != [] && s.holding
    case ThrowStep => s.taken != [] && s.holding
    case DropStep => s.taken != [] && !s.holding && !s.connected
    case DestroyStep => true
  }

  function Next<M>(s: State<M>, step: Step<M>): State<M>
    requires Enabled(s, step)
  {
    match step
    case PutStep(m) => Put(s, m)
    case TakeStep => Take(s)
    case LockStep => Lock(s)
    case HandleStep => Handle(s)
    case ThrowStep => Throw(s)
    case DropStep => Drop(s)
    case DestroyStep => s.(connected := false)
  }

  // ---------- Refinement of one queue ----------

  /** Between critical sections nothing waits in the current queue; whatever was sent has been handled, or lost behind
      all that was handled, or is pending; and nothing is lost while a handler can still be reached. */
  ghost predicate Inv<M>(s: State<M>) {
    s.current < 2 && Queue(s, s.current) == [] && s.handled + (s.lost + Pending(s)) == s.sent &&
    (s.connected || s.holding ==> s.lost == []) && (s.holding ==> s.taken != [])
  }

  /** What has been sent and neither handled nor lost, oldest first. */
  function Pending<M>(s: State<M>): seq<M> { s.taken + Queue(s, Other(s.current)) }

  /** A step is a put at the end of the one queue, a removal from its head, or no change of it; the object is held until
      its batch is done; what is lost is the batch behind a message whose handler throws, or a batch for which the object is gone. */
  lemma StepRefines<M>(s: State<M>, step: Step<M>)
    requires Inv(s) && Enabled(s, step)
    ensures var s' := Next(s, step);
      Inv(s') &&
      (step.PutStep? ==> Pending(s') == Pending(s) + [step.m]) &&
      (step.TakeStep? ==> Pending(s') == Pending(s) == s'.taken) &&
      (step.LockStep? || step.DestroyStep? ==> Pending(s') == Pending(s)) &&
      (step.HandleStep? ==> Pending(s) == [Pending(s)[0]] + Pending(s') && s'.handled == s.handled + [Pending(s)[0]]) &&
      (step.HandleStep? ==> (s'.holding <==> s'.taken != [])) &&
      (step.ThrowStep? ==> Pending(s) == [Pending(s)[0]] + (s'.lost + Pending(s')) && s'.handled == s.handled + [Pending(s)[0]]) &&
      (step.DropStep? ==> Pending(s) == s.taken + Pending(s') && s'.lost == s.lost + s.taken) &&
      (!step.HandleStep? && !step.ThrowStep? ==> s'.handled == s.handled) &&
      (!step.ThrowStep? && !step.DropStep? ==> s'.lost == s.lost)
  {
    hide Put, Take, Handle, Throw, Drop, Inv;
    match step {
      case PutStep(m) => PutRefines(s, m);
      case TakeStep => TakeRefines(s);
      case HandleStep => HandleRefines(s);
      case ThrowStep => ThrowRefines(s);
      case DropStep => DropRefines(s);
      case LockStep => LockRefines(s);
      case DestroyStep => DestroyRefines(s);
    }
  }

  lemma LockRefines<M>(s: State<M>)
    requires Inv(s) && s.taken != [] && s.connected
    ensures Inv(Lock(s)) && Pending(Lock(s)) == Pending(s)
  {
  }

  lemma DestroyRefines<M>(s: State<M>)
    requires Inv(s)
    ensures var s' := s.(connected := false); Inv(s') && Pending(s') == Pending(s)
  {
  }

  lemma Regroup<M>(a: seq<M>, b: seq<M>, c: seq<M>)
    ensures (a + b) + c == a + (b + c)
  {
  }

  lemma PutRefines<M>(s: State<M>, m: M)
    requires Inv(s)
    ensures var s' := Put(s, m);
      Inv(s') && Pending(s') == Pending(s) + [m] && s'.handled == s.handled && s'.lost == s.lost
  {
    Regroup(s.taken, Queue(s, Other(s.current)), [m]);
    Regroup(s.lost, Pending(s), [m]);
    Regroup(s.handled, s.lost + Pending(s), [m]);
  }

  lemma TakeRefines<M>(s: State<M>)
    requires Inv(s) && s.taken == []
    ensures var s' := Take(s);
      Inv(s') && Pending(s') == Pending(s) == s'.taken && s'.handled == s.handled && s'.lost == s.lost
  {
    assert Pending(s) == Queue(s, Other(s.current));
    assert Pending(Take(s)) == Take(s).taken;
  }

  lemma HandleRefines<M>(s: State<M>)
    requires Inv(s) && s.taken != [] && s.holding
    ensures var s' := Handle(s);
      Inv(s') && Pending(s) == [Pending(s)[0]] + Pending(s') && s'.handled == s.handled + [Pending(s)[0]] && s'.lost == s.lost &&
      s'.taken == s.taken[1..] && (s'.holding <==> s'.taken != [])
  {
    Removed(s, Queue(s, Other(s.current)));
    Regroup(s.handled, [s.taken[0]], s.taken[1..] + Queue(s, Other(s.current)));
    Nothing(Pending(s));
    Nothing(s.taken[1..] + Queue(s, Other(s.current)));
  }

  lemma Removed<M>(s: State<M>, rest: seq<M>)
    requires s.taken != []
    ensures s.taken + rest == [s.taken[0]] + (s.taken[1..] + rest)
  {
  }

  lemma Nothing<M>(a: seq<M>)
    ensures [] + a == a
  {
  }

  lemma ThrowRefines<M>(s: State<M>)
    requires Inv(s) && s.taken != [] && s.holding
    ensures var s' := Throw(s);
      Inv(s') && Pending(s) == [Pending(s)[0]] + (s'.lost + Pending(s')) && s'.handled == s.handled + [Pending(s)[0]]
  {
    var rest := Queue(s, Other(s.current));
    Removed(s, rest);
    Nothing(rest);
    Nothing(Pending(s));
    Nothing(s.taken[1..]);
    Regroup(s.handled, [s.taken[0]], s.taken[1..] + rest);
  }

  lemma DropRefines<M>(s: State<M>)
    requires Inv(s) && !s.holding && !s.connected
    ensures var s' := Drop(s);
      Inv(s') && Pending(s) == s.taken + Pending(s') && s'.lost == s.lost + s.taken && s'.handled == s.handled
  {
    var rest := Queue(s, Other(s.current));
    Nothing(rest);
    Regroup(s.lost, s.taken, rest);
  }

  ghost predicate Execution<M>(states: seq<State<M>>, steps: seq<Step<M>>) {
    |states| == |steps| + 1 && states[0] == Initially() &&
    forall k :: 0 <= k < |steps| ==> Enabled(states[k], steps[k]) && states[k + 1] == Next(states[k], steps[k])
  }

  /** In every run the handled messages are the first ones sent, in order and none doubled; and as long as the object
      is there, and to the end of a batch for which it is held, none is lost. */
  lemma {:induction false} FirstInFirstOut<M>(states: seq<State<M>>, steps: seq<Step<M>>, k: nat)
    requires Execution(states, steps) && k < |states|
    ensures Inv(states[k]) && states[k].handled <= states[k].sent
    ensures states[k].connected || states[k].holding ==> states[k].handled + Pending(states[k]) == states[k].sent
    decreases k
  {
    hide Enabled, Next;
    if k > 0 {
      FirstInFirstOut(states, steps, k - 1);
      assert states[k] == Next(states[k - 1], steps[k - 1]);
      StepRefines(states[k - 1], steps[k - 1]);
    }
    assert states[k].lost == [] ==> states[k].lost + Pending(states[k]) == Pending(states[k]);
  }

  /** Once it is gone and not held any more, no message is handled ever again. */
  lemma {:induction false} NothingAfterDestroy<M>(states: seq<State<M>>, steps: seq<Step<M>>, j: nat, k: nat)
    requires Execution(states, steps) && j <= k < |states| && !states[j].connected && !states[j].holding
    ensures !states[k].connected && !states[k].holding && states[k].handled == states[j].handled
    decreases k
  {
    if j < k {
      NothingAfterDestroy(states, steps, j, k - 1);
      assert states[k] == Next(states[k - 1], steps[k - 1]) && Enabled(states[k - 1], steps[k - 1]);
    }
  }

  // ---------- One batch ----------

  /** The next n messages handled. */
  function HandleMany<M>(s: State<M>, n: nat): State<M>
    requires n <= |s.taken|
    decreases n
  {
    if n == 0 then s else HandleMany(Handle(s), n - 1)
  }

  lemma {:induction false} HandlesMany<M>(s: State<M>, n: nat)
    requires n <= |s.taken|
    ensures var r := HandleMany(s, n);
      r.taken == s.taken[n..] && r.handled == s.handled + s.taken[..n] && r.lost == s.lost &&
      r.queue0 == s.queue0 && r.queue1 == s.queue1 && r.current == s.current
    decreases n
  {
    if n == 0 {
      assert s.taken[n..] == s.taken && s.handled + s.taken[..n] == s.handled;
    } else {
      var m, rest := s.taken[0], s.taken[1..];
      HandlesMany(Handle(s), n - 1);
      assert rest[n - 1..] == s.taken[n..] && [m] + rest[..n - 1] == s.taken[..n];
      Regroup(s.handled, [m], rest[..n - 1]);
    }
  }

  /** One wake-up of the receiver handles everything sent before it, however the queues were filled. */
  lemma OneBatchHandlesAll<M>(s: State<M>)
    requires Inv(s) && s.taken == [] && s.connected
    ensures |Pending(s)| <= |Take(s).taken| && HandleMany(Lock(Take(s)), |Pending(s)|).handled == s.sent
  {
    TakeRefines(s);
    HandlesMany(Lock(Take(s)), |Pending(s)|);
    Nothing(Pending(s));
  }

  /** When the handler of message i of a batch throws, exactly the messages of the batch behind it are lost. */
  lemma ThrowLosesRest<M>(s: State<M>, i: nat)
    requires Inv(s) && s.taken == [] && s.connected && i < |Pending(s)|
    ensures i < |Take(s).taken| && HandleMany(Lock(Take(s)), i).taken != []
    ensures var s' := Throw(HandleMany(Lock(Take(s)), i));
      s'.handled == s.handled + Pending(s)[..i + 1] && s'.lost == Pending(s)[i + 1..] && Pending(s') == []
  {
    hide Take, Inv, HandleMany;
    assert s.lost == [] && s.current < 2 by { ConnectedLosesNothing(s); }
    TakeRefines(s);
    TakenAll(s);
    var p := Pending(s);
    HandlesMany(Lock(Take(s)), i);
    assert p[..i] + [p[i]] == p[..i + 1] && p[i..][1..] == p[i + 1..];
    Regroup(s.handled, p[..i], [p[i]]);
    Nothing(p[i + 1..]);
  }

  lemma ConnectedLosesNothing<M>(s: State<M>)
    requires Inv(s) && s.connected
    ensures s.lost == [] && s.current < 2
  {
  }

  lemma TakenAll<M>(s: State<M>)
    requires Inv(s) && s.taken == []
    ensures Take(s).queue0 == Take(s).queue1 == [] && Take(s).current < 2
  {
  }

  // ---------- The class ----------

  function Concat<M>(parts: seq<seq<M>>): seq<M> {
    if parts == [] then [] else Concat(parts[..|parts| - 1]) + parts[|parts| - 1]
  }

  lemma ConcatNone<M>(parts: seq<seq<M>>)
    ensures Concat(parts[..0]) == []
  {
  }

  lemma ConcatMore<M>(parts: seq<seq<M>>, n: nat)
    requires n < |parts|
    ensures Concat(parts[..n + 1]) == Concat(parts[..n]) + parts[n]
  {
    assert parts[..n + 1][..n] == parts[..n];
  }

  class ChannelDataProcess<M(0)> {
    var queue0: seq<M>
    var queue1: seq<M>
    var current: nat
    /** Whether the weak pointer to the channel's object can be locked. */
    var connected: bool
    /** What the net container's handler has been given. */
    var handled: seq<M>

    ghost predicate Valid()
      reads this
    {
      current < 2 && (if current == 0 then queue0 else queue1) == []
    }

    ghost function Waiting(): seq<M>
      reads this
    {
      if current == 0 then queue1 else queue0
    }

    constructor ()
      ensures Valid() && Waiting() == [] && handled == [] && connected
    {
      queue0, queue1, current, connected, handled := [], [], 0, true, [];
    }

    method PutMsg(m: M)
      requires Valid()
      modifies this
      ensures Valid() && Waiting() == old(Waiting()) + [m]
      ensures handled == old(handled) && current == old(current) && connected == old(connected)
    {
      var idle := 1 - current;
      if idle == 0 {
        queue0 := queue0 + [m];
      } else {
        queue1 := queue1 + [m];
      }
    }

    method PutAll(ms: seq<M>)
      requires Valid()
      modifies this
      ensures Valid() && Waiting() == old(Waiting()) + ms
      ensures handled == old(handled) && connected == old(connected)
    {
      for i := 0 to |ms|
        invariant Valid() && Waiting() == old(Waiting()) + ms[..i] && handled == old(handled) && connected == old(connected)
      {
        PutMsg(ms[i]);
        assert ms[..i] + [ms[i]] == ms[..i + 1];
      }
      assert ms[..|ms|] == ms;
    }

    /** `posts[i]` is what other threads, or the handler itself, put in while message i is handled; the handler of
        message `throwsAt` throws. */
    method ProcessRecvBuf(posts: seq<seq<M>>, throwsAt: Option<nat>)
      returns (count: nat, thrown: bool)
      requires Valid() && |posts| == |Waiting()|
      modifies this
      ensures Valid() && connected == old(connected)
      ensures thrown <==> connected && throwsAt.Some? && throwsAt.value < |old(Waiting())|
      ensures count == if thrown then throwsAt.value + 1 else |old(Waiting())|
      ensures handled == if connected then old(handled) + old(Waiting())[..count] else old(handled)
      ensures Waiting() == Concat(posts[..count])
    {
      hide Concat;
      var queue := if current == 0 then queue0 else queue1;
      if queue == [] {
        current := 1 - current;
      }
      var processing: seq<M>;
      if current == 0 {
        processing, queue0 := queue0, [];
      } else {
        processing, queue1 := queue1, [];
      }
      assert processing == old(Waiting());
      count, thrown := 0, false;
      assert Concat(posts[..0]) == [] by { ConcatNone(posts); }
      while count < |processing| && !thrown
        invariant 0 <= count <= |processing| && Valid() && connected == old(connected)
        invariant handled == if connected then old(handled) + processing[..count] else old(handled)
        invariant Waiting() == Concat(posts[..count])
        invariant thrown ==> connected && throwsAt.Some? && throwsAt.value == count - 1
        invariant connected && throwsAt.Some? && throwsAt.value < count ==> thrown
      {
        if connected {
          handled := handled + [processing[count]];
          thrown := throwsAt == Some(count);
        }
        assert processing[..count] + [processing[count]] == processing[..count + 1];
        PutAll(posts[count]);
        ConcatMore(posts, count);
        count := count + 1;
      }
    }
  }
}
