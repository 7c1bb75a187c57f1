/** What every run of the ring buffer guarantees: no data race, no loss, first in first out. */
module RingSafety {
  import opened Common
  import opened Modular
  import opened Sequences
  import opened RingMachine

  // ---- Race freedom and delivery --------------------------------------------------------------

  /**
   A slot access is ordered after every conflicting access of the other thread: the producer writes
   only over occupants whose pop its acquire load has covered, and the consumer reads only a slot
   whose push its acquire load has covered. In particular they never hold the same slot.
   */
  ghost predicate RaceFree<T>(s: Ring<T>)
    requires |s.slots| > 0
  {
    && (s.producer.SlotClaimed? ==>
          && s.producer.tail < |s.slots|
          && forall k :: 0 <= k < |s.accepted| && Wrap(k, |s.slots|) == s.producer.tail ==> k < s.headSeen)
    && (s.consumer.SlotReady? ==>
          && s.consumer.head == Wrap(|s.popped|, |s.slots|)
          && s.consumer.head < |s.slots| && s.slots[s.consumer.head].Some?
          && |s.popped| < s.tailSeen)
    && (s.producer.SlotClaimed? && (s.consumer.SlotReady? || s.consumer.SlotRead?) ==>
          s.producer.tail != s.consumer.head)
  }

  lemma InvRaceFree<T>(s: Ring<T>)
    requires Inv(s)
    ensures RaceFree(s)
  {
    var n := |s.slots|;
    if s.producer.SlotClaimed? && (s.consumer.SlotReady? || s.consumer.SlotRead?) &&
       s.producer.tail == s.consumer.head {
      WrapInjective(|s.popped|, |s.accepted|, n);
    }
    forall k | s.producer.SlotClaimed? && 0 <= k < |s.accepted| && Wrap(k, n) == s.producer.tail
      ensures k < s.headSeen
    {
      if k >= s.headSeen {
        WrapInjective(k, |s.accepted|, n);
      }
    }
  }

  /**
   Every interleaving from the empty buffer, stale loads included, on a ring of any size: race-free
   in its last state (hence in each, as a prefix of a run is a run), never more than n - 1 events
   in flight, and what was popped is a prefix of what was accepted.
   */
  lemma EveryRunIsSafe<T>(n: nat, run: seq<Action<T>>)
    requires n > 0 && IsRun(Init(n), run)
    ensures var s := After(Init(n), run);
            && RaceFree(s)
            && |s.popped| <= |s.accepted|
            && |Queue(s)| <= n - 1
            && forall k :: 0 <= k < |s.popped| ==> s.popped[k] == Some(s.accepted[k])
  {
    InvInit<T>(n);
    InvAfter(Init(n), run);
    InvRaceFree(After(Init(n), run));
  }

  // ---- Accounting -----------------------------------------------------------------------------

  /** The event of a push under way. */
  function InHand<T>(s: Ring<T>): seq<T> {
    match s.producer
    case NotPushing => []
    case TailLoaded(event, _) => [event]
    case SlotClaimed(event, _) => [event]
    case SlotWritten(event, _) => [event]
  }

  /** No event is lost, doubled or invented: each offered one is accepted, rejected or in hand. */
  ghost predicate Conserved<T>(s: Ring<T>) {
    multiset(s.offered) == multiset(s.accepted) + multiset(s.rejected) + multiset(InHand(s))
  }

  /** The accepted events keep the order they were offered in. */
  ghost predicate InOrder<T>(s: Ring<T>) {
    if s.producer.NotPushing? then Subseq(s.accepted, s.offered) else
    var last := |s.offered| - 1;
    last >= 0 && s.offered[last] == s.producer.event && Subseq(s.accepted, s.offered[..last])
  }

  ghost predicate Accounted<T>(s: Ring<T>) {
    Conserved(s) && InOrder(s)
  }

  /** What a step does to the books: nothing, one event offered, or one settled. */
  lemma BooksNext<T>(s: Ring<T>, a: Action<T>)
    requires |s.slots| > 0 && Enabled(s, a)
    ensures var s' := Next(s, a);
            if a.BeginPush? then
              && (s'.offered, s'.accepted, s'.rejected) == (s.offered + [a.event], s.accepted, s.rejected)
              && InHand(s) == [] && InHand(s') == [a.event]
            else
              && s'.offered == s.offered
              && ((s'.accepted, s'.rejected, InHand(s')) == (s.accepted, s.rejected, InHand(s))
                  || (InHand(s') == [] &&
                      ((s'.accepted, s'.rejected) == (s.accepted + InHand(s), s.rejected)
                       || (s'.accepted, s'.rejected) == (s.accepted, s.rejected + InHand(s)))))
  {
    hide Wrap;
  }

  lemma OfferOne<T>(offered: seq<T>, a: seq<T>, r: seq<T>, x: T)
    requires multiset(offered) == multiset(a) + multiset(r) + multiset([])
    ensures multiset(offered + [x]) == multiset(a) + multiset(r) + multiset([x])
  {}

  lemma SettleOne<T>(offered: seq<T>, a: seq<T>, r: seq<T>, hand: seq<T>)
    requires multiset(offered) == multiset(a) + multiset(r) + multiset(hand)
    ensures multiset(offered) == multiset(a + hand) + multiset(r) + multiset([])
    ensures multiset(offered) == multiset(a) + multiset(r + hand) + multiset([])
  {}

  lemma ConservedNext<T>(s: Ring<T>, a: Action<T>)
    requires |s.slots| > 0 && Enabled(s, a) && Conserved(s)
    ensures Conserved(Next(s, a))
  {
    hide Next;
    BooksNext(s, a);
    if a.BeginPush? {
      OfferOne(s.offered, s.accepted, s.rejected, a.event);
    } else {
      SettleOne(s.offered, s.accepted, s.rejected, InHand(s));
    }
  }

  lemma InOrderNext<T>(s: Ring<T>, a: Action<T>)
    requires |s.slots| > 0 && Enabled(s, a) && InOrder(s)
    ensures InOrder(Next(s, a))
  {
    if a.BeginPush? {
      assert (s.offered + [a.event])[..|s.offered|] == s.offered;
    } else if a.LoadHead? || a.StoreTail? {
      var last := |s.offered| - 1;
      SubseqGrow(s.accepted, s.offered[..last], s.producer.event);
      assert s.offered[..last] + [s.producer.event] == s.offered;
    }
  }

  lemma AccountedNext<T>(s: Ring<T>, a: Action<T>)
    requires |s.slots| > 0 && Enabled(s, a) && Accounted(s)
    ensures Accounted(Next(s, a))
  {
    ConservedNext(s, a);
    InOrderNext(s, a);
  }

  lemma {:induction false} AccountedAfter<T>(s: Ring<T>, run: seq<Action<T>>)
    requires |s.slots| > 0 && IsRun(s, run) && Accounted(s)
    ensures Accounted(After(s, run))
    decreases |run|
  {
    if run != [] {
      AccountedNext(s, run[0]);
      AccountedAfter(Next(s, run[0]), run[1..]);
    }
  }

  /** In every run each offered event is accepted, rejected or in hand, and acceptance keeps the order. */
  lemma EveryRunIsAccounted<T>(n: nat, run: seq<Action<T>>)
    requires n > 0 && IsRun(Init(n), run)
    ensures Accounted(After(Init(n), run))
  {
    AccountedAfter(Init(n), run);
  }

  // ---- Refinement of a bounded FIFO queue -----------------------------------------------------

  datatype FifoOp<+T> =
    | Internal
    | Enqueue(event: T)
    | RefuseEnqueue(current: bool)    // push returned false; current: its head load was up to date
    | Dequeue(content: Option<T>)   // pop returned this slot content
    | RefuseDequeue(current: bool)    // pop returned None; current: its tail load was up to date

  /** What a queue bounded by `capacity` allows. */
  predicate FifoAllows<T(==)>(capacity: nat, q: seq<T>, op: FifoOp<T>) {
    match op
    case Internal => true
    case Enqueue(_) => |q| < capacity
    case RefuseEnqueue(current) => current ==> |q| == capacity
    case Dequeue(content) => q != [] && content == Some(q[0])
    case RefuseDequeue(current) => current ==> q == []
  }

  function FifoNext<T>(q: seq<T>, op: FifoOp<T>): seq<T> {
    match op
    case Enqueue(event) => q + [event]
    case Dequeue(_) => if q == [] then q else q[1..]
    case _ => q
  }

  predicate FifoAccepts<T(==)>(capacity: nat, q: seq<T>, ops: seq<FifoOp<T>>, end: seq<T>)
    decreases |ops|
  {
    if ops == [] then q == end else
    FifoAllows(capacity, q, ops[0]) && FifoAccepts(capacity, FifoNext(q, ops[0]), ops[1..], end)
  }

  /** The effect of a step as its caller sees it: an operation takes effect at its store. */
  function Effect<T>(s: Ring<T>, a: Action<T>): FifoOp<T>
    requires |s.slots| > 0 && Enabled(s, a)
  {
    match a
    case LoadHead(count) =>
      if Next(s, a).producer.NotPushing? then RefuseEnqueue(count == |s.popped|) else Internal
    case StoreTail => Enqueue(s.producer.event)
    case LoadTail(count) =>
      if Next(s, a).consumer.NotPopping? then RefuseDequeue(count == |s.accepted|) else Internal
    case StoreHead => Dequeue(s.consumer.content)
    case _ => Internal
  }

  function Effects<T>(s: Ring<T>, run: seq<Action<T>>): seq<FifoOp<T>>
    requires |s.slots| > 0 && IsRun(s, run)
    decreases |run|
  {
    if run == [] then [] else [Effect(s, run[0])] + Effects(Next(s, run[0]), run[1..])
  }

  lemma StepRefinesFifo<T>(s: Ring<T>, a: Action<T>)
    requires Inv(s) && Enabled(s, a)
    ensures FifoAllows(|s.slots| - 1, Queue(s), Effect(s, a))
    ensures |Next(s, a).popped| <= |Next(s, a).accepted|
    ensures Queue(Next(s, a)) == FifoNext(Queue(s), Effect(s, a))
  {
    InvNext(s, a);
    match a
    case LoadHead(count) => FullTest(s, count);
    case LoadTail(count) => EmptyTest(s, count);
    case _ =>
  }

  lemma InvPopsFollowPushes<T>(s: Ring<T>)
    requires Inv(s)
    ensures |s.slots| > 0 && |s.popped| <= |s.accepted|
  {}

  lemma {:induction false} RunRefinesFifo<T>(s: Ring<T>, run: seq<Action<T>>)
    requires Inv(s) && IsRun(s, run)
    ensures |After(s, run).popped| <= |After(s, run).accepted|
    ensures FifoAccepts(|s.slots| - 1, Queue(s), Effects(s, run), Queue(After(s, run)))
    decreases |run|
  {
    hide Inv, Wrap, Effect, FifoNext, FifoAllows;
    InvPopsFollowPushes(s);
    if run != [] {
      var s', rest := Next(s, run[0]), run[1..];
      StepRefinesFifo(s, run[0]);
      InvNext(s, run[0]);
      RunRefinesFifo(s', rest);
      var effect, effects := Effect(s, run[0]), Effects(s', rest);
      assert Effects(s, run) == [effect] + effects && ([effect] + effects)[1..] == effects;
    }
  }

  /**
   The verdict of the full test: push gives up exactly when the queue as its load saw it is full.
   So with an up-to-date load it gives up exactly when the queue is full, and a stale load can only
   make it give up too early, never proceed into a full queue.
   */
  lemma PushVerdict<T>(s: Ring<T>, count: nat)
    requires Inv(s) && Enabled(s, LoadHead(count))
    ensures var gaveUp := Next(s, LoadHead(count)).producer.NotPushing?;
            && (gaveUp <==> |s.accepted| - count == |s.slots| - 1)
            && (count == |s.popped| ==> (gaveUp <==> |Queue(s)| == |s.slots| - 1))
            && (!gaveUp ==> |Queue(s)| < |s.slots| - 1)
  {
    FullTest(s, count);
  }

  /** The verdict of the empty test, with the same reading: staleness only makes pop give up early. */
  lemma PopVerdict<T>(s: Ring<T>, count: nat)
    requires Inv(s) && Enabled(s, LoadTail(count))
    ensures var gaveUp := Next(s, LoadTail(count)).consumer.NotPopping?;
            && (gaveUp <==> count == |s.popped|)
            && (count == |s.accepted| ==> (gaveUp <==> Queue(s) == []))
            && (!gaveUp ==> Queue(s) != [])
  {
    EmptyTest(s, count);
  }

  /** From the empty buffer, every run is a run of the FIFO queue of capacity n - 1. */
  lemma EveryRunIsFifo<T>(n: nat, run: seq<Action<T>>)
    requires n > 0 && IsRun(Init(n), run)
    ensures var s := After(Init(n), run);
            && |s.popped| <= |s.accepted|
            && FifoAccepts(n - 1, [], Effects(Init(n), run), Queue(s))
  {
    InvInit<T>(n);
    RunRefinesFifo(Init(n), run);
  }

  // ---- len ------------------------------------------------------------------------------------

  /** What `len` computes from the two indices it loads. */
  function Len(n: nat, head: nat, tail: nat): nat
    requires head < n
  {
    Wrap(tail + n - head, n)
  }

  lemma {:induction false} PopsGrow<T>(s: Ring<T>, run: seq<Action<T>>)
    requires |s.slots| > 0 && IsRun(s, run)
    ensures |s.popped| <= |After(s, run).popped|
    decreases |run|
  {
    if run != [] {
      PopsGrow(Next(s, run[0]), run[1..]);
    }
  }

  /** Where the counters of the two loads stand: `len` is the way from one to the other around the ring. */
  lemma LenCongruent(headCount: nat, tailCount: nat, n: nat)
    requires n > 0
    ensures var len := Len(n, Wrap(headCount, n), Wrap(tailCount, n));
            len < n && Wrap(headCount + len, n) == Wrap(tailCount, n)
  {
    hide Wrap;
    var turns := Turns(headCount, n);
    var around := Wrap(tailCount, n) + n - Wrap(headCount, n);
    var q := Turns(around, n);
    assert headCount + Wrap(around, n) == (turns + 1 - q) * n + Wrap(tailCount, n);
    WrapUnique(headCount + Wrap(around, n), n, turns + 1 - q);
  }

  lemma LenArithmetic(headCount: nat, tailCount: nat, pops: nat, pushes: nat, n: nat)
    requires n > 0 && headCount <= pops && tailCount <= pushes && 0 <= pushes - pops < n
    ensures Len(n, Wrap(headCount, n), Wrap(tailCount, n)) == pushes - pops <==>
            Wrap(pops - headCount, n) == Wrap(pushes - tailCount, n)
  {
    hide Wrap;
    var size, len := pushes - pops, Len(n, Wrap(headCount, n), Wrap(tailCount, n));
    LenCongruent(headCount, tailCount, n);
    if len != size && Wrap(headCount + size, n) == Wrap(tailCount, n) {
      if len < size {
        WrapInjective(headCount + len, headCount + size, n);
      } else {
        WrapInjective(headCount + size, headCount + len, n);
      }
      assert false;
    }
    WrapCancel(headCount + size, tailCount, pops - headCount, n);
    WrapCancel(pushes - tailCount, pops - headCount, tailCount, n);
  }

  /** The indices around `run`, in terms of the counters. */
  lemma IndicesAround<T>(s: Ring<T>, run: seq<Action<T>>)
    requires Inv(s) && IsRun(s, run)
    ensures var end := After(s, run);
            && s.head == Wrap(|s.popped|, |s.slots|) && end.tail == Wrap(|end.accepted|, |s.slots|)
            && |s.popped| <= |end.popped| <= |end.accepted| < |end.popped| + |s.slots|
  {
    InvAfter(s, run);
    PopsGrow(s, run);
  }

  /**
   `len` loads head, then, after the steps of `run`, tail; both loads are relaxed and may return any
   index of the past, that of `headCount` pops and of `tailCount` pushes. Its result leads from the one
   to the other around the ring. It is the number of queued events at the end if and only if both loads
   are out of date by then by the same number modulo n. So up-to-date loads are off by the pops in
   between, and exact when no step falls in between.
   */
  lemma LenExactness<T>(s: Ring<T>, run: seq<Action<T>>, headCount: nat, tailCount: nat)
    requires Inv(s) && IsRun(s, run)
    requires headCount <= |s.popped| && tailCount <= |After(s, run).accepted|
    ensures var n, end := |s.slots|, After(s, run);
            var len := Len(n, Wrap(headCount, n), Wrap(tailCount, n));
            && s.head == Wrap(|s.popped|, n) && end.tail == Wrap(|end.accepted|, n)
            && len < n && Wrap(headCount + len, n) == Wrap(tailCount, n)
            && headCount <= |end.popped| <= |end.accepted|
            && (len == |Queue(end)| <==> Wrap(|end.popped| - headCount, n) == Wrap(|end.accepted| - tailCount, n))
            && (run == [] && headCount == |s.popped| && tailCount == |s.accepted| ==> len == |Queue(s)|)
  {
    hide Wrap;
    var end := After(s, run);
    IndicesAround(s, run);
    LenCongruent(headCount, tailCount, |s.slots|);
    LenArithmetic(headCount, tailCount, |end.popped|, |end.accepted|, |s.slots|);
  }
}
