/** The single-producer single-consumer ring (rxlockfreequeue.c) with its loads, copies and publications
    as separate steps of the two threads. */
module Ring {
  import opened PowerOfTwo

  /** A slot between the first and the last byte of a copy into it is torn. */
  datatype Slot<T> = Torn | Full(item: T)

  datatype Producer<T> =
    | Resting
    | LoadedWrite(item: T, w: nat)           // write_pos loaded
    | LoadedRead(item: T, w: nat, r: nat)    // read_pos loaded as well
    | Copying(item: T, w: nat)               // copying into the slot
    | Copied(item: T, w: nat)                // about to publish write_pos

  datatype Consumer<T> =
    | Waiting
    | LoadedReadPos(r: nat)
    | LoadedWritePos(r: nat, w: nat)
    | Reading(r: nat)                        // copying out of the slot
    | Taken(r: nat, item: T)                 // about to publish read_pos

  /** `pushed` and `popped` are the items for which a push or a pop has been published. */
  datatype State<T> = State(
    capacity: nat,
    buffer: seq<Slot<T>>,
    writePos: nat,
    readPos: nat,
    producer: Producer<T>,
    consumer: Consumer<T>,
    pushed: seq<T>,
    popped: seq<T>)

  ghost predicate Init<T>(s: State<T>) {
    s.capacity > 0 && |s.buffer| == s.capacity && s.writePos == 0 && s.readPos == 0 &&
    s.producer == Resting && s.consumer == Waiting && s.pushed == [] && s.popped == []
  }

  // ---------- Producer steps ----------

  ghost predicate BeginPush<T>(s: State<T>, s': State<T>, item: T) {
    s.producer.Resting? && s' == s.(producer := LoadedWrite(item, s.writePos))
  }

  ghost predicate LoadReadPos<T>(s: State<T>, s': State<T>) {
    s.producer.LoadedWrite? && s' == s.(producer := LoadedRead(s.producer.item, s.producer.w, s.readPos))
  }

  /** The full check: give up, or start copying. */
  ghost predicate CheckFull<T>(s: State<T>, s': State<T>) {
    s.capacity == |s.buffer| > 0 && s.producer.LoadedRead? &&
    if s.producer.w - s.producer.r >= s.capacity then s' == s.(producer := Resting)
    else s' == s.(producer := Copying(s.producer.item, s.producer.w), buffer := s.buffer[s.producer.w % s.capacity := Torn])
  }

  ghost predicate EndCopy<T>(s: State<T>, s': State<T>) {
    s.capacity == |s.buffer| > 0 && s.producer.Copying? &&
    s' == s.(producer := Copied(s.producer.item, s.producer.w),
             buffer := s.buffer[s.producer.w % s.capacity := Full(s.producer.item)])
  }

  ghost predicate PublishPush<T>(s: State<T>, s': State<T>) {
    s.producer.Copied? &&
    s' == s.(producer := Resting, writePos := s.producer.w + 1, pushed := s.pushed + [s.producer.item])
  }

  // ---------- Consumer steps ----------

  ghost predicate BeginPop<T>(s: State<T>, s': State<T>) {
    s.consumer.Waiting? && s' == s.(consumer := LoadedReadPos(s.readPos))
  }

  ghost predicate LoadWritePos<T>(s: State<T>, s': State<T>) {
    s.consumer.LoadedReadPos? && s' == s.(consumer := LoadedWritePos(s.consumer.r, s.writePos))
  }

  ghost predicate CheckEmpty<T>(s: State<T>, s': State<T>) {
    s.consumer.LoadedWritePos? &&
    s' == s.(consumer := if s.consumer.r >= s.consumer.w then Waiting else Reading(s.consumer.r))
  }

  /** The last byte has been read; a torn slot yields any item. */
  ghost predicate EndRead<T>(s: State<T>, s': State<T>, item: T) {
    s.capacity == |s.buffer| > 0 && s.consumer.Reading? &&
    (s.buffer[s.consumer.r % s.capacity].Full? ==> item == s.buffer[s.consumer.r % s.capacity].item) &&
    s' == s.(consumer := Taken(s.consumer.r, item))
  }

  ghost predicate PublishPop<T>(s: State<T>, s': State<T>) {
    s.consumer.Taken? &&
    s' == s.(consumer := Waiting, readPos := s.consumer.r + 1, popped := s.popped + [s.consumer.item])
  }

  ghost predicate Next<T(!new)>(s: State<T>, s': State<T>) {
    (exists item: T :: BeginPush(s, s', item)) || LoadReadPos(s, s') || CheckFull(s, s') || EndCopy(s, s') || PublishPush(s, s') ||
    BeginPop(s, s') || LoadWritePos(s, s') || CheckEmpty(s, s') || (exists item: T :: EndRead(s, s', item)) || PublishPop(s, s')
  }

  ghost predicate Execution<T(!new)>(run: seq<State<T>>) {
    run != [] && Init(run[0]) && forall n :: 0 <= n < |run| - 1 ==> Next(run[n], run[n + 1])
  }

  // ---------- The invariant ----------

  /** Published and unread items are in their slots. */
  ghost predicate Stored<T>(s: State<T>) {
    |s.buffer| == s.capacity > 0 && |s.pushed| == s.writePos && s.readPos <= s.writePos <= s.readPos + s.capacity &&
    s.popped == s.pushed[..s.readPos] &&
    forall i :: s.readPos <= i < s.writePos ==> s.buffer[i % s.capacity] == Full(s.pushed[i])
  }

  ghost predicate ProducerOk<T>(s: State<T>)
    requires |s.buffer| == s.capacity > 0
  {
    match s.producer
    case Resting => true
    case LoadedWrite(_, w) => w == s.writePos
    case LoadedRead(_, w, r) => w == s.writePos && r <= s.readPos
    case Copying(_, w) => w == s.writePos && w < s.readPos + s.capacity
    case Copied(item, w) =>
      w == s.writePos && w < s.readPos + s.capacity && s.buffer[w % s.capacity] == Full(item)
  }

  ghost predicate ConsumerOk<T>(s: State<T>)
    requires |s.pushed| == s.writePos
  {
    match s.consumer
    case Waiting => true
    case LoadedReadPos(r) => r == s.readPos
    case LoadedWritePos(r, w) => r == s.readPos && w <= s.writePos
    case Reading(r) => r == s.readPos < s.writePos
    case Taken(r, item) => r == s.readPos < s.writePos && item == s.pushed[r]
  }

  ghost predicate Inv<T>(s: State<T>) { Stored(s) && ProducerOk(s) && ConsumerOk(s) }

  /** Positions less than a capacity apart use different slots. */
  lemma {:induction false} DifferentSlots(i: nat, j: nat, capacity: nat)
    requires capacity > 0 && i < j < i + capacity
    ensures i % capacity != j % capacity
  {
    var d := j / capacity - i / capacity;
    assert i == (i / capacity) * capacity + i % capacity;
    assert j == (j / capacity) * capacity + j % capacity;
    assert d * capacity == (j / capacity) * capacity - (i / capacity) * capacity;
    if d != 0 {
      BigMultiple(d, capacity);
    }
  }

  /** Writing at a free position leaves the stored items alone. */
  lemma WriteElsewhere<T>(s: State<T>, w: nat, slot: Slot<T>)
    requires Stored(s) && w == s.writePos < s.readPos + s.capacity
    ensures Stored(s.(buffer := s.buffer[w % s.capacity := slot]))
  {
    forall i | s.readPos <= i < s.writePos
      ensures i % s.capacity != w % s.capacity
    {
      DifferentSlots(i, w, s.capacity);
    }
  }

  lemma ProducerStep<T(!new)>(s: State<T>, s': State<T>)
    requires Inv(s)
    requires (exists item: T :: BeginPush(s, s', item)) || LoadReadPos(s, s') || CheckFull(s, s') || EndCopy(s, s') || PublishPush(s, s')
    ensures Inv(s')
  {
    if CheckFull(s, s') {
      if s.producer.w - s.producer.r < s.capacity {
        WriteElsewhere(s, s.producer.w, Torn);
      }
    } else if EndCopy(s, s') {
      WriteElsewhere(s, s.producer.w, Full(s.producer.item));
    } else if PublishPush(s, s') {
      assert s'.pushed[..s.readPos] == s.pushed[..s.readPos];
    }
  }

  lemma ConsumerStep<T(!new)>(s: State<T>, s': State<T>)
    requires Inv(s)
    requires BeginPop(s, s') || LoadWritePos(s, s') || CheckEmpty(s, s') || (exists item: T :: EndRead(s, s', item)) || PublishPop(s, s')
    ensures Inv(s')
  {
    if PublishPop(s, s') {
      assert s.pushed[..s.readPos + 1] == s.pushed[..s.readPos] + [s.pushed[s.readPos]];
    }
  }

  /** What must never happen: the producer writing a slot that holds an unread item or is being read. */
  ghost predicate Clash<T>(s: State<T>) {
    s.producer.Copying? && s.capacity > 0 &&
    ((exists i :: s.readPos <= i < s.writePos && i % s.capacity == s.producer.w % s.capacity) ||
     (s.consumer.Reading? && s.consumer.r % s.capacity == s.producer.w % s.capacity))
  }

  lemma NoClash<T>(s: State<T>)
    requires Inv(s)
    ensures !Clash(s)
  {
    if s.producer.Copying? {
      forall i | s.readPos <= i < s.writePos
        ensures i % s.capacity != s.producer.w % s.capacity
      {
        DifferentSlots(i, s.producer.w, s.capacity);
      }
    }
  }

  lemma {:induction false} ExecutionInv<T(!new)>(run: seq<State<T>>, n: nat)
    requires Execution(run) && n < |run|
    ensures Inv(run[n]) && run[n].capacity == run[0].capacity
  {
    hide Inv;
    if n == 0 {
      assert Inv(run[0]) by { InitInv(run[0]); }
    } else {
      ExecutionInv(run, n - 1);
      var s, s' := run[n - 1], run[n - 1 + 1];
      assert Next(s, s');
      if BeginPop(s, s') || LoadWritePos(s, s') || CheckEmpty(s, s') || (exists item: T :: EndRead(s, s', item)) || PublishPop(s, s') {
        ConsumerStep(s, s');
      } else {
        ProducerStep(s, s');
      }
    }
  }

  lemma InitInv<T>(s: State<T>)
    requires Init(s)
    ensures Inv(s)
  {
  }

  /** In every interleaving: what has been popped is a prefix of what has been pushed, at most `capacity`
      items are outstanding, and no slot is overwritten while unread or being read. */
  lemma RingSafe<T(!new)>(run: seq<State<T>>, n: nat)
    requires Execution(run) && n < |run|
    ensures run[n].popped <= run[n].pushed
    ensures |run[n].pushed| - |run[n].popped| <= run[0].capacity
    ensures !Clash(run[n])
    ensures run[n].consumer.Taken? ==> run[n].popped + [run[n].consumer.item] <= run[n].pushed
  {
    ExecutionInv(run, n);
    NoClash(run[n]);
    var s := run[n];
    if s.consumer.Taken? {
      assert s.pushed[..s.readPos + 1] == s.pushed[..s.readPos] + [s.pushed[s.readPos]];
    }
  }
}
