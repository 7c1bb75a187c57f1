/** What the ring buffer can do: calls always finish, a call alone succeeds as a queue does, and loads can be stale. */
module RingProgress {
  import opened Common
  import opened Modular
  import opened RingMachine
  import opened RingSafety

  // ---- Progress -----------------------------------------------------------------------------------

  /** How many more steps the producer takes inside the current push, at most. */
  function PushStepsLeft<T>(s: Ring<T>): nat {
    match s.producer
    case NotPushing => 0
    case TailLoaded(_, _) => 3
    case SlotClaimed(_, _) => 2
    case SlotWritten(_, _) => 1
  }

  function PopStepsLeft<T>(s: Ring<T>): nat {
    match s.consumer
    case NotPopping => 0
    case HeadLoaded(_) => 3
    case SlotReady(_) => 2
    case SlotRead(_, _) => 1
  }

  predicate OfPush<T>(a: Action<T>) {
    a.BeginPush? || a.LoadHead? || a.WriteSlot? || a.StoreTail?
  }

  /** Whatever the other thread does, each thread can take its next step: any push or pop may begin, none is stuck. */
  lemma NeverStuck<T>(s: Ring<T>, event: T)
    requires Inv(s)
    ensures match s.producer
            case NotPushing => Enabled(s, BeginPush(event))
            case TailLoaded(_, _) => forall count :: s.headSeen <= count <= |s.popped| ==> Enabled(s, LoadHead(count))
            case SlotClaimed(_, _) => Enabled(s, WriteSlot)
            case SlotWritten(_, _) => Enabled(s, StoreTail)
    ensures match s.consumer
            case NotPopping => Enabled(s, BeginPop)
            case HeadLoaded(_) => forall count :: s.tailSeen <= count <= |s.accepted| ==> Enabled(s, LoadTail(count))
            case SlotReady(_) => Enabled(s, ReadSlot)
            case SlotRead(_, _) => Enabled(s, StoreHead)
    ensures s.headSeen <= |s.popped| && s.tailSeen <= |s.accepted|
  {}

  /**
   Both calls are wait-free: every step inside a call brings its end closer, and no step of the other thread
   delays it.
   */
  lemma WaitFree<T>(s: Ring<T>, a: Action<T>)
    requires |s.slots| > 0 && Enabled(s, a)
    ensures OfPush(a) && !a.BeginPush? ==> PushStepsLeft(Next(s, a)) < PushStepsLeft(s)
    ensures !OfPush(a) && !a.BeginPop? ==> PopStepsLeft(Next(s, a)) < PopStepsLeft(s)
    ensures OfPush(a) ==> Next(s, a).consumer == s.consumer
    ensures !OfPush(a) ==> Next(s, a).producer == s.producer
  {}

  /** What a step reports is what the call returns: an event accepted or refused, a content or nothing. */
  lemma EffectIsOutcome<T>(s: Ring<T>, a: Action<T>)
    requires |s.slots| > 0 && Enabled(s, a)
    ensures var s', effect := Next(s, a), Effect(s, a);
            && s'.accepted == (if effect.Enqueue? then s.accepted + [effect.event] else s.accepted)
            && s'.rejected == (if effect.RefuseEnqueue? then s.rejected + [s.producer.event] else s.rejected)
            && s'.popped == (if effect.Dequeue? then s.popped + [effect.content] else s.popped)
            && (effect.Enqueue? || effect.RefuseEnqueue? <==> !s.producer.NotPushing? && s'.producer.NotPushing?)
            && (effect.Dequeue? || effect.RefuseDequeue? <==> !s.consumer.NotPopping? && s'.consumer.NotPopping?)
  {}

  // ---- A call that runs alone -------------------------------------------------------------------------

  lemma RunCons<T>(s: Ring<T>, a: Action<T>, rest: seq<Action<T>>)
    requires |s.slots| > 0 && Enabled(s, a) && IsRun(Next(s, a), rest)
    ensures IsRun(s, [a] + rest)
    ensures After(s, [a] + rest) == After(Next(s, a), rest)
    ensures Effects(s, [a] + rest) == [Effect(s, a)] + Effects(Next(s, a), rest)
  {
    assert ([a] + rest)[1..] == rest;
  }

  predicate Full<T>(s: Ring<T>)
    requires |s.popped| <= |s.accepted|
  {
    |Queue(s)| >= |s.slots| - 1
  }

  /** The steps of a push whose load is up to date. */
  function PushSteps<T>(s: Ring<T>, event: T): seq<Action<T>>
    requires |s.popped| <= |s.accepted|
  {
    [BeginPush(event)] + ([LoadHead(|s.popped|)] + if Full(s) then [] else [WriteSlot] + ([StoreTail] + []))
  }

  function PopSteps<T>(s: Ring<T>): seq<Action<T>>
    requires |s.popped| <= |s.accepted|
  {
    [BeginPop] + ([LoadTail(|s.accepted|)] + if Queue(s) == [] then [] else [ReadSlot] + ([StoreHead] + []))
  }

  /** Past the load, a push that was not refused stores its event. */
  lemma FinishPush<T>(s: Ring<T>)
    requires Inv(s) && s.producer.SlotClaimed?
    ensures var steps := [WriteSlot] + ([StoreTail] + []);
            && IsRun(s, steps) && Inv(After(s, steps))
            && Effects(s, steps) == [Internal, Enqueue(s.producer.event)]
            && After(s, steps) == s.(slots := After(s, steps).slots, tail := After(s, steps).tail,
                                     producer := NotPushing, accepted := s.accepted + [s.producer.event])
  {
    hide Wrap, Counters, ProducerInv, ConsumerInv, Contents;
    NeverStuck(s, s.producer.event);
    InvNext(s, WriteSlot);
    var s1 := Next(s, WriteSlot);
    InvNext(s1, StoreTail);
    RunCons(s1, StoreTail, []);
    RunCons(s, WriteSlot, [StoreTail] + []);
  }

  lemma BeginAndLoad<T>(s: Ring<T>, event: T)
    requires Inv(s) && s.producer.NotPushing?
    ensures |s.popped| <= |s.accepted| && |Queue(s)| <= |s.slots| - 1
    ensures Enabled(s, BeginPush(event))
    ensures var s1 := Next(s, BeginPush(event));
            && Inv(s1) && Enabled(s1, LoadHead(|s.popped|)) && Inv(Next(s1, LoadHead(|s.popped|)))
            && Effect(s, BeginPush(event)) == Internal
            && (if Full(s) then
                  && Effect(s1, LoadHead(|s.popped|)) == RefuseEnqueue(true)
                  && Next(s1, LoadHead(|s.popped|)) ==
                       s.(offered := s.offered + [event], rejected := s.rejected + [event], headSeen := |s.popped|)
                else
                  && Effect(s1, LoadHead(|s.popped|)) == Internal
                  && Next(s1, LoadHead(|s.popped|)) ==
                       s.(offered := s.offered + [event], producer := SlotClaimed(event, s.tail),
                          headSeen := |s.popped|))
  {
    hide Wrap;
    var s1 := Next(s, BeginPush(event));
    InvNext(s, BeginPush(event));
    PushVerdict(s1, |s.popped|);
    InvNext(s1, LoadHead(|s.popped|));
  }

  /**
   From any reachable state between two pushes, wherever the consumer stands, the producer alone can finish
   a push: it is accepted and joins the queue exactly when n - 1 events are not queued already.
   */
  lemma PushAlone<T>(s: Ring<T>, event: T)
    requires Inv(s) && s.producer.NotPushing?
    ensures IsRun(s, PushSteps(s, event)) && Inv(After(s, PushSteps(s, event)))
    ensures var end := After(s, PushSteps(s, event));
            && end.producer.NotPushing? && end.consumer == s.consumer
            && end.popped == s.popped && end.headSeen == |s.popped| && end.tailSeen == s.tailSeen
            && end.offered == s.offered + [event]
            && (|Queue(s)| < |s.slots| - 1 ==>
                  && end.accepted == s.accepted + [event] && end.rejected == s.rejected
                  && Queue(end) == Queue(s) + [event]
                  && Effects(s, PushSteps(s, event)) == [Internal, Internal, Internal, Enqueue(event)])
            && (|Queue(s)| == |s.slots| - 1 ==>
                  && end.accepted == s.accepted && end.rejected == s.rejected + [event] && Queue(end) == Queue(s)
                  && Effects(s, PushSteps(s, event)) == [Internal, RefuseEnqueue(true)])
            && |Queue(s)| <= |s.slots| - 1
  {
    BeginAndLoad(s, event);
    if Full(s) {
      PushRefused(s, event);
    } else {
      PushAccepted(s, event);
    }
  }

  lemma PushRefused<T>(s: Ring<T>, event: T)
    requires Inv(s) && s.producer.NotPushing? && |s.popped| <= |s.accepted| && Full(s)
    ensures IsRun(s, PushSteps(s, event)) && Inv(After(s, PushSteps(s, event)))
    ensures After(s, PushSteps(s, event)) ==
            s.(offered := s.offered + [event], rejected := s.rejected + [event], headSeen := |s.popped|)
    ensures Effects(s, PushSteps(s, event)) == [Internal, RefuseEnqueue(true)]
  {
    BeginAndLoad(s, event);
    hide Next, Enabled, Inv, Effect, Full;
    var s1 := Next(s, BeginPush(event));
    RunCons(s1, LoadHead(|s.popped|), []);
    RunCons(s, BeginPush(event), [LoadHead(|s.popped|)] + []);
  }

  lemma PushAccepted<T>(s: Ring<T>, event: T)
    requires Inv(s) && s.producer.NotPushing? && |s.popped| <= |s.accepted| && !Full(s)
    ensures IsRun(s, PushSteps(s, event)) && Inv(After(s, PushSteps(s, event)))
    ensures var end := After(s, PushSteps(s, event));
            end == s.(slots := end.slots, tail := end.tail, offered := s.offered + [event],
                      accepted := s.accepted + [event], headSeen := |s.popped|)
    ensures Effects(s, PushSteps(s, event)) == [Internal, Internal, Internal, Enqueue(event)]
  {
    BeginAndLoad(s, event);
    hide Next, Enabled, Inv, Effect, Full;
    var s1 := Next(s, BeginPush(event));
    var load: Action<T> := LoadHead(|s.popped|);
    FinishPush(Next(s1, load));
    RunCons(s1, load, [WriteSlot] + ([StoreTail] + []));
    RunCons(s, BeginPush(event), [load] + ([WriteSlot] + ([StoreTail] + [])));
  }

  /** Past the load, a pop that found something takes it. */
  lemma FinishPop<T>(s: Ring<T>)
    requires Inv(s) && s.consumer.SlotReady?
    ensures var steps := [ReadSlot] + ([StoreHead] + []);
            && Queue(s) != [] && IsRun(s, steps) && Inv(After(s, steps))
            && Effects(s, steps) == [Internal, Dequeue(Some(Queue(s)[0]))]
            && After(s, steps) == s.(head := After(s, steps).head, consumer := NotPopping,
                                     popped := s.popped + [Some(Queue(s)[0])])
  {
    hide Wrap;
    NeverStuck(s, s.accepted[0]);
    InvNext(s, ReadSlot);
    var s1 := Next(s, ReadSlot);
    assert s1.consumer == SlotRead(s.head, Some(Queue(s)[0]));
    InvNext(s1, StoreHead);
    hide Inv;
    RunCons(s1, StoreHead, []);
    RunCons(s, ReadSlot, [StoreHead] + []);
  }

  lemma BeginPopAndLoad<T>(s: Ring<T>)
    requires Inv(s) && s.consumer.NotPopping?
    ensures |s.popped| <= |s.accepted| && Enabled(s, BeginPop)
    ensures var s1 := Next(s, BeginPop);
            && Inv(s1) && Enabled(s1, LoadTail(|s.accepted|)) && Inv(Next(s1, LoadTail(|s.accepted|)))
            && Effect(s, BeginPop) == Internal
            && (if Queue(s) == [] then
                  && Effect(s1, LoadTail(|s.accepted|)) == RefuseDequeue(true)
                  && Next(s1, LoadTail(|s.accepted|)) == s.(tailSeen := |s.accepted|)
                else
                  && Effect(s1, LoadTail(|s.accepted|)) == Internal
                  && Next(s1, LoadTail(|s.accepted|)) == s.(consumer := SlotReady(s.head), tailSeen := |s.accepted|))
  {
    hide Wrap;
    var s1 := Next(s, BeginPop);
    InvNext(s, BeginPop);
    PopVerdict(s1, |s.accepted|);
    InvNext(s1, LoadTail(|s.accepted|));
  }

  /** Likewise the consumer alone can finish a pop: it takes the oldest event exactly when there is one. */
  lemma PopAlone<T>(s: Ring<T>)
    requires Inv(s) && s.consumer.NotPopping?
    ensures IsRun(s, PopSteps(s)) && Inv(After(s, PopSteps(s)))
    ensures var end := After(s, PopSteps(s));
            && end.consumer.NotPopping? && end.producer == s.producer
            && end.offered == s.offered && end.accepted == s.accepted && end.rejected == s.rejected
            && end.headSeen == s.headSeen && end.tailSeen == |s.accepted|
            && (Queue(s) != [] ==>
                  && end.popped == s.popped + [Some(Queue(s)[0])] && Queue(end) == Queue(s)[1..]
                  && Effects(s, PopSteps(s)) == [Internal, Internal, Internal, Dequeue(Some(Queue(s)[0]))])
            && (Queue(s) == [] ==>
                  && end.popped == s.popped && Queue(end) == []
                  && Effects(s, PopSteps(s)) == [Internal, RefuseDequeue(true)])
  {
    BeginPopAndLoad(s);
    hide Next, Enabled, Inv, Effect;
    var load: Action<T> := LoadTail(|s.accepted|);
    var s1 := Next(s, BeginPop);
    var s2 := Next(s1, load);
    if Queue(s) == [] {
      RunCons(s1, load, []);
      RunCons(s, BeginPop, [load] + []);
    } else {
      FinishPop(s2);
      RunCons(s1, load, [ReadSlot] + ([StoreHead] + []));
      RunCons(s, BeginPop, [load] + ([ReadSlot] + ([StoreHead] + [])));
    }
  }

  // ---- Stale loads ------------------------------------------------------------------------------------

  /** A push about to load head can be refused exactly when the queue, as last observed, was full. */
  lemma PushMayBeRefused<T>(s: Ring<T>)
    requires Inv(s) && s.producer.TailLoaded?
    ensures (exists count :: Enabled(s, LoadHead(count)) && Next(s, LoadHead(count)).producer.NotPushing?) <==>
            |s.accepted| - s.headSeen == |s.slots| - 1
  {
    hide Wrap;
    forall count | Enabled(s, LoadHead(count))
      ensures Next(s, LoadHead(count)).producer.NotPushing? <==> |s.accepted| - count == |s.slots| - 1
    {
      PushVerdict(s, count);
    }
    assert Enabled(s, LoadHead(s.headSeen));
  }

  /** A pop about to load tail can come back empty exactly when the queue, as last observed, was empty. */
  lemma PopMayBeRefused<T>(s: Ring<T>)
    requires Inv(s) && s.consumer.HeadLoaded?
    ensures (exists count :: Enabled(s, LoadTail(count)) && Next(s, LoadTail(count)).consumer.NotPopping?) <==>
            s.tailSeen == |s.popped|
  {
    hide Wrap;
    forall count | Enabled(s, LoadTail(count))
      ensures Next(s, LoadTail(count)).consumer.NotPopping? <==> count == |s.popped|
    {
      PopVerdict(s, count);
    }
    assert Enabled(s, LoadTail(s.tailSeen));
  }

  lemma {:induction false} RunConcat<T>(s: Ring<T>, a: seq<Action<T>>, b: seq<Action<T>>)
    requires |s.slots| > 0 && IsRun(s, a) && IsRun(After(s, a), b)
    ensures IsRun(s, a + b) && After(s, a + b) == After(After(s, a), b)
    decreases |a|
  {
    hide Next, Enabled;
    if a == [] {
      assert a + b == b;
    } else {
      assert (a + b)[1..] == a[1..] + b;
      RunConcat(Next(s, a[0]), a[1..], b);
    }
  }

  /** k pushes in a row fill k places; neither thread has observed anything of the other yet. */
  lemma {:induction false} FillRun<T>(n: nat, event: T, k: nat) returns (run: seq<Action<T>>)
    requires k < n
    ensures IsRun(Init(n), run)
    ensures var s := After(Init(n), run);
            && Inv(s) && |s.slots| == n && s.producer.NotPushing? && s.consumer.NotPopping?
            && |s.accepted| == k && s.popped == [] && s.headSeen == s.tailSeen == 0
  {
    hide Wrap;
    if k == 0 {
      run := [];
      InvInit<T>(n);
    } else {
      hide Next, Enabled, Inv, Effects;
      run := FillRun(n, event, k - 1);
      var s := After(Init(n), run);
      InvPopsFollowPushes(s);
      PushAlone(s, event);
      RunConcat(Init(n), run, PushSteps(s, event));
      run := run + PushSteps(s, event);
    }
  }

  /** On every ring of two slots or more, a run exists in which push refuses although the queue is not full. */
  lemma StalePushRefused<T>(n: nat, event: T) returns (run: seq<Action<T>>)
    requires n >= 2
    ensures IsRun(Init(n), run) && IsRun(Init(n), run + [LoadHead(0)])
    ensures var s, end := After(Init(n), run), After(Init(n), run + [LoadHead(0)]);
            && Inv(s) && |s.slots| == n && |Queue(s)| == n - 2
            && s.producer.TailLoaded? && end.producer.NotPushing? && end.rejected == s.rejected + [s.producer.event]
  {
    hide Wrap;
    var fill := FillRun(n, event, n - 1);
    var s1 := After(Init(n), fill);
    PopAlone(s1);
    RunConcat(Init(n), fill, PopSteps(s1));
    var s2 := After(s1, PopSteps(s1));
    RunCons(s2, BeginPush(event), []);
    RunConcat(Init(n), fill + PopSteps(s1), [BeginPush(event)] + []);
    run := fill + PopSteps(s1) + ([BeginPush(event)] + []);
    var s := Next(s2, BeginPush(event));
    InvNext(s2, BeginPush(event));
    PushVerdict(s, 0);
    var load: Action<T> := LoadHead(0);
    RunCons(s, load, []);
    assert [load] + [] == [load];
    RunConcat(Init(n), run, [LoadHead(0)]);
  }

  /** And one in which pop comes back empty although an event is queued. */
  lemma StalePopRefused<T>(n: nat, event: T) returns (run: seq<Action<T>>)
    requires n >= 2
    ensures IsRun(Init(n), run) && IsRun(Init(n), run + [LoadTail(0)])
    ensures var s, end := After(Init(n), run), After(Init(n), run + [LoadTail(0)]);
            && Inv(s) && |Queue(s)| == 1
            && s.consumer.HeadLoaded? && end.consumer.NotPopping? && end.popped == s.popped
  {
    hide Wrap;
    var fill := FillRun(n, event, 1);
    var s1 := After(Init(n), fill);
    RunCons(s1, BeginPop, []);
    RunConcat(Init(n), fill, [BeginPop] + []);
    run := fill + ([BeginPop] + []);
    var s := Next(s1, BeginPop);
    InvNext(s1, BeginPop);
    PopVerdict(s, 0);
    var load: Action<T> := LoadTail(0);
    RunCons(s, load, []);
    assert [load] + [] == [load];
    RunConcat(Init(n), run, [LoadTail(0)]);
  }
}
