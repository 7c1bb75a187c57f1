/**
 The single-producer single-consumer ring buffer as a state machine whose steps are the atomic
 accesses of `push` and `pop`. Any interleaving of the two threads is a run. An acquire load may
 return an old value of the other thread's index: any one the atomic has held since the value this
 thread saw last. Relaxed loads of a thread's own index return its own last store.
 */
module RingMachine {
  import opened Common
  import opened Modular

  // Where the producer stands inside `push`; `tail` is its local copy of the index.
  datatype Producer<+T> =
    | NotPushing
    | TailLoaded(event: T, tail: nat)    // before the acquire load of head
    | SlotClaimed(event: T, tail: nat)   // the full test failed; about to write the slot
    | SlotWritten(event: T, tail: nat)   // about to store tail

  // Where the consumer stands inside `pop`; `head` is its local copy of the index.
  datatype Consumer<+T> =
    | NotPopping
    | HeadLoaded(head: nat)                      // before the acquire load of tail
    | SlotReady(head: nat)                       // the empty test failed; about to read the slot
    | SlotRead(head: nat, content: Option<T>)    // about to store head

  /**
   The shared memory and the two threads, with the history that the theorems speak about: the code
   reads none of `offered` .. `tailSeen`. A slot is None until it is first written.
   */
  datatype Ring<+T> = Ring(
    slots: seq<Option<T>>,
    head: nat,
    tail: nat,
    producer: Producer<T>,
    consumer: Consumer<T>,
    offered: seq<T>,            // every event push was called with
    accepted: seq<T>,           // the events whose push returned true
    rejected: seq<T>,           // the events whose push returned false
    popped: seq<Option<T>>,     // the slot contents that pop returned
    headSeen: nat,              // how many pops the producer's last acquire load covered
    tailSeen: nat)              // how many pushes the consumer's last acquire load covered

  datatype Action<+T> =
    | BeginPush(event: T)
    | LoadHead(count: nat)      // the value loaded is the index after `count` pops
    | WriteSlot
    | StoreTail
    | BeginPop
    | LoadTail(count: nat)      // the value loaded is the index after `count` pushes
    | ReadSlot
    | StoreHead

  function Init<T>(n: nat): Ring<T> {
    Ring(seq(n, _ => None), 0, 0, NotPushing, NotPopping, [], [], [], [], 0, 0)
  }

  predicate Enabled<T>(s: Ring<T>, a: Action<T>) {
    match a
    case BeginPush(_) => s.producer.NotPushing?
    case LoadHead(count) => s.producer.TailLoaded? && s.headSeen <= count <= |s.popped|
    case WriteSlot => s.producer.SlotClaimed? && s.producer.tail < |s.slots|
    case StoreTail => s.producer.SlotWritten?
    case BeginPop => s.consumer.NotPopping?
    case LoadTail(count) => s.consumer.HeadLoaded? && s.tailSeen <= count <= |s.accepted|
    case ReadSlot => s.consumer.SlotReady? && s.consumer.head < |s.slots|
    case StoreHead => s.consumer.SlotRead?
  }

  function Next<T>(s: Ring<T>, a: Action<T>): Ring<T>
    requires |s.slots| > 0 && Enabled(s, a)
  {
    var n := |s.slots|;
    match a
    case BeginPush(event) => s.(producer := TailLoaded(event, s.tail), offered := s.offered + [event])
    case LoadHead(count) =>
      if Wrap(s.producer.tail + 1, n) == Wrap(count, n) then
        s.(producer := NotPushing, rejected := s.rejected + [s.producer.event], headSeen := count)
      else
        s.(producer := SlotClaimed(s.producer.event, s.producer.tail), headSeen := count)
    case WriteSlot =>
      s.(slots := s.slots[s.producer.tail := Some(s.producer.event)],
         producer := SlotWritten(s.producer.event, s.producer.tail))
    case StoreTail =>
      s.(tail := Wrap(s.producer.tail + 1, n), producer := NotPushing, accepted := s.accepted + [s.producer.event])
    case BeginPop => s.(consumer := HeadLoaded(s.head))
    case LoadTail(count) =>
      if s.consumer.head == Wrap(count, n) then
        s.(consumer := NotPopping, tailSeen := count)
      else
        s.(consumer := SlotReady(s.consumer.head), tailSeen := count)
    case ReadSlot => s.(consumer := SlotRead(s.consumer.head, s.slots[s.consumer.head]))
    case StoreHead =>
      s.(head := Wrap(s.consumer.head + 1, n), consumer := NotPopping, popped := s.popped + [s.consumer.content])
  }

  predicate IsRun<T>(s: Ring<T>, run: seq<Action<T>>)
    requires |s.slots| > 0
    decreases |run|
  {
    run == [] || (Enabled(s, run[0]) && IsRun(Next(s, run[0]), run[1..]))
  }

  function After<T>(s: Ring<T>, run: seq<Action<T>>): (end: Ring<T>)
    requires |s.slots| > 0 && IsRun(s, run)
    ensures |end.slots| == |s.slots|
    decreases |run|
  {
    if run == [] then s else After(Next(s, run[0]), run[1..])
  }

  /** The events in flight: accepted and not yet popped. */
  function Queue<T>(s: Ring<T>): seq<T>
    requires |s.popped| <= |s.accepted|
  {
    s.accepted[|s.popped|..]
  }

  // ---- The invariant -------------------------------------------------------------------------

  ghost predicate Counters<T>(s: Ring<T>) {
    && |s.slots| > 0
    && s.head == Wrap(|s.popped|, |s.slots|)
    && s.tail == Wrap(|s.accepted|, |s.slots|)
    && s.headSeen <= |s.popped| <= s.tailSeen <= |s.accepted| < s.headSeen + |s.slots|
  }

  ghost predicate ProducerInv<T>(s: Ring<T>)
    requires Counters(s)
  {
    match s.producer
    case NotPushing => true
    case TailLoaded(_, tail) => tail == s.tail
    case SlotClaimed(_, tail) => tail == s.tail && |s.accepted| + 1 < s.headSeen + |s.slots|
    case SlotWritten(event, tail) =>
      tail == s.tail && |s.accepted| + 1 < s.headSeen + |s.slots| && s.slots[tail] == Some(event)
  }

  ghost predicate ConsumerInv<T>(s: Ring<T>)
    requires Counters(s)
  {
    match s.consumer
    case NotPopping => true
    case HeadLoaded(head) => head == s.head
    case SlotReady(head) => head == s.head && |s.popped| < s.tailSeen
    case SlotRead(head, content) =>
      head == s.head && |s.popped| < s.tailSeen && content == Some(s.accepted[|s.popped|])
  }

  ghost predicate Contents<T>(s: Ring<T>)
    requires Counters(s)
  {
    && (forall k :: |s.popped| <= k < |s.accepted| ==> s.slots[Wrap(k, |s.slots|)] == Some(s.accepted[k]))
    && (forall k :: 0 <= k < |s.popped| ==> s.popped[k] == Some(s.accepted[k]))
  }

  ghost predicate Inv<T>(s: Ring<T>) {
    Counters(s) && ProducerInv(s) && ConsumerInv(s) && Contents(s)
  }

  /** The full test is exact about what the producer saw: one slot short of the observed window. */
  lemma FullTest<T>(s: Ring<T>, count: nat)
    requires Inv(s) && Enabled(s, LoadHead(count))
    ensures Wrap(s.producer.tail + 1, |s.slots|) == Wrap(count, |s.slots|) <==> |s.accepted| + 1 == count + |s.slots|
  {
    hide Wrap;
    var n := |s.slots|;
    WrapSucc(|s.accepted|, n);
    if Wrap(s.producer.tail + 1, n) == Wrap(count, n) {
      if |s.accepted| + 1 < count + n {
        WrapInjective(count, |s.accepted| + 1, n);
      }
    } else if |s.accepted| + 1 == count + n {
      WrapAdd(count, n);
    }
  }

  /** The empty test is exact about what the consumer saw. */
  lemma EmptyTest<T>(s: Ring<T>, count: nat)
    requires Inv(s) && Enabled(s, LoadTail(count))
    ensures s.consumer.head == Wrap(count, |s.slots|) <==> |s.popped| == count
  {
    hide Wrap;
    if s.consumer.head == Wrap(count, |s.slots|) {
      WrapInjective(|s.popped|, count, |s.slots|);
    }
  }

  lemma InvInit<T>(n: nat)
    requires n > 0
    ensures Inv<T>(Init(n))
  {}

  /** Writing at index Wrap(|accepted|, n) touches none of the slots that are in flight. */
  lemma WriteKeepsContents<T>(s: Ring<T>)
    requires Inv(s) && Enabled(s, WriteSlot)
    ensures Contents(Next(s, WriteSlot))
  {
    hide Wrap;
    var n := |s.slots|;
    forall k | |s.popped| <= k < |s.accepted|
      ensures Wrap(k, n) != Wrap(|s.accepted|, n)
    {
      if Wrap(k, n) == Wrap(|s.accepted|, n) {
        WrapInjective(k, |s.accepted|, n);
      }
    }
  }

  lemma InvProducer<T>(s: Ring<T>, a: Action<T>)
    requires Inv(s) && Enabled(s, a)
    requires a.BeginPush? || a.LoadHead? || a.WriteSlot? || a.StoreTail?
    ensures Inv(Next(s, a))
  {
    hide Wrap;
    match a
    case BeginPush(_) =>
    case LoadHead(count) => FullTest(s, count);
    case WriteSlot => WriteKeepsContents(s);
    case StoreTail => WrapSucc(|s.accepted|, |s.slots|);
  }

  lemma InvConsumer<T>(s: Ring<T>, a: Action<T>)
    requires Inv(s) && Enabled(s, a)
    requires a.BeginPop? || a.LoadTail? || a.ReadSlot? || a.StoreHead?
    ensures Inv(Next(s, a))
  {
    hide Wrap;
    match a
    case BeginPop =>
    case LoadTail(count) => EmptyTest(s, count);
    case ReadSlot =>
    case StoreHead => WrapSucc(|s.popped|, |s.slots|);
  }

  lemma InvNext<T>(s: Ring<T>, a: Action<T>)
    requires Inv(s) && Enabled(s, a)
    ensures Inv(Next(s, a))
  {
    hide Inv;
    if a.BeginPush? || a.LoadHead? || a.WriteSlot? || a.StoreTail? {
      InvProducer(s, a);
    } else {
      InvConsumer(s, a);
    }
  }

  lemma {:induction false} InvAfter<T>(s: Ring<T>, run: seq<Action<T>>)
    requires Inv(s) && IsRun(s, run)
    ensures Inv(After(s, run))
    decreases |run|
  {
    if run != [] {
      InvNext(s, run[0]);
      InvAfter(Next(s, run[0]), run[1..]);
    }
  }
}
