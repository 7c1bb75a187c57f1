/** Whatever stream of events and finalizes is wanted, some run of the pipeline delivers it, without a loss. */
module PipelineProgress {
  import opened Common
  import opened RingMachine
  import opened RingSafety
  import opened RingProgress
  import P = Pipeline
  import W = WindowBuilders

  function Lift(steps: seq<Action<Event>>): seq<P.Move> {
    if steps == [] then [] else [P.OnRing(steps[0])] + Lift(steps[1..])
  }

  /** What the builder is told by these effects of the ring. */
  function Told(effects: seq<FifoOp<Event>>): seq<W.Op> {
    if effects == [] then [] else
    var rest := Told(effects[1..]);
    if effects[0].Dequeue? && effects[0].content.Some? then [W.Ingest(effects[0].content.value)] + rest else rest
  }

  lemma {:induction false} LiftRun(max: nat, s: P.State, steps: seq<Action<Event>>)
    requires |s.ring.slots| > 0 && IsRun(s.ring, steps)
    ensures P.IsRun(max, s, Lift(steps))
    ensures P.After(max, s, Lift(steps)).ring == After(s.ring, steps)
    ensures P.After(max, s, Lift(steps)).log == s.log + Told(Effects(s.ring, steps))
    decreases |steps|
  {
    hide Next, Enabled;
    if steps != [] {
      var move := P.OnRing(steps[0]);
      LiftStep(max, s, steps[0]);
      var s' := P.Moved(max, s, move);
      LiftRun(max, s', steps[1..]);
      assert ([move] + Lift(steps[1..]))[1..] == Lift(steps[1..]);
      var effect, rest := Effect(s.ring, steps[0]), Effects(s'.ring, steps[1..]);
      assert Effects(s.ring, steps) == [effect] + rest && ([effect] + rest)[1..] == rest;
      assert Told([effect] + rest) == Told([effect]) + Told(rest) by {
        ToldCons(effect, rest);
      }
    }
  }

  lemma LiftStep(max: nat, s: P.State, a: Action<Event>)
    requires |s.ring.slots| > 0 && Enabled(s.ring, a)
    ensures var s' := P.Moved(max, s, P.OnRing(a));
            && s'.ring == Next(s.ring, a) && |s'.ring.slots| > 0
            && s'.log == s.log + Told([Effect(s.ring, a)])
  {
    assert [Effect(s.ring, a)][1..] == [];
    assert s.log + [] == s.log;
  }

  lemma ToldCons(effect: FifoOp<Event>, rest: seq<FifoOp<Event>>)
    ensures Told([effect] + rest) == Told([effect]) + Told(rest)
  {
    assert ([effect] + rest)[1..] == rest && [effect][1..] == [];
  }

  lemma MovedSlots(max: nat, s: P.State, move: P.Move)
    requires |s.ring.slots| > 0 && P.CanMove(s, move)
    ensures |P.Moved(max, s, move).ring.slots| > 0
  {}

  lemma {:induction false} MovesConcat(max: nat, s: P.State, a: seq<P.Move>, b: seq<P.Move>)
    requires |s.ring.slots| > 0 && P.IsRun(max, s, a) && |P.After(max, s, a).ring.slots| > 0
    requires P.IsRun(max, P.After(max, s, a), b)
    ensures P.IsRun(max, s, a + b) && P.After(max, s, a + b) == P.After(max, P.After(max, s, a), b)
    decreases |a|
  {
    if a == [] {
      assert a + b == b;
    } else {
      MovedSlots(max, s, a[0]);
      hide P.Moved, P.CanMove;
      assert (a + b)[1..] == a[1..] + b;
      MovesConcat(max, P.Moved(max, s, a[0]), a[1..], b);
    }
  }

  /** Both threads between two calls, nothing queued, nothing refused so far. */
  ghost predicate Quiet(s: P.State) {
    Inv(s.ring) && |s.ring.slots| >= 2 && s.ring.producer.NotPushing? && s.ring.consumer.NotPopping?
    && Queue(s.ring) == [] && s.ring.rejected == []
  }

  /** One event pushed, popped and ingested. */
  lemma Deliver(max: nat, s: P.State, event: Event) returns (run: seq<P.Move>)
    requires Quiet(s)
    ensures P.IsRun(max, s, run) && Quiet(P.After(max, s, run))
    ensures P.After(max, s, run).log == s.log + [W.Ingest(event)]
  {
    hide Next, Enabled, Inv;
    InvPopsFollowPushes(s.ring);
    var push := PushSteps(s.ring, event);
    PushAlone(s.ring, event);
    LiftRun(max, s, push);
    var s1 := P.After(max, s, Lift(push));
    ToldAfterThree(Enqueue(event));
    ToldOne(Enqueue(event));
    InvPopsFollowPushes(s1.ring);
    var pop := PopSteps(s1.ring);
    PopAlone(s1.ring);
    LiftRun(max, s1, pop);
    ToldAfterThree(Dequeue(Some(event)));
    ToldOne(Dequeue(Some(event)));
    MovesConcat(max, s, Lift(push), Lift(pop));
    run := Lift(push) + Lift(pop);
  }

  lemma ToldAfterThree(last: FifoOp<Event>)
    ensures Told([Internal, Internal, Internal, last]) == Told([last])
  {
    ToldCons(Internal, [last]);
    ToldCons(Internal, [Internal, last]);
    ToldCons(Internal, [Internal, Internal, last]);
    assert [Internal] + [last] == [Internal, last];
    assert [Internal] + [Internal, last] == [Internal, Internal, last];
    assert [Internal] + [Internal, Internal, last] == [Internal, Internal, Internal, last];
    ToldOne(Internal);
  }

  lemma ToldOne(effect: FifoOp<Event>)
    ensures Told([effect]) ==
            if effect.Dequeue? && effect.content.Some? then [W.Ingest(effect.content.value)] else []
  {
    assert [effect][1..] == [];
  }

  lemma Close(max: nat, s: P.State, tx: TransactionId) returns (run: seq<P.Move>)
    requires Quiet(s)
    ensures P.IsRun(max, s, run) && Quiet(P.After(max, s, run))
    ensures P.After(max, s, run).log == s.log + [W.Finalize(tx)]
  {
    run := [P.Close(tx)];
    assert run[1..] == [];
  }

  /**
   On a ring of two slots or more every stream of ingests and finalizes is the log of some run, which ends
   quiet, has refused no event, and has built from the stream what the builder alone would.
   */
  lemma {:induction false} EveryStreamHappens(n: nat, max: nat, ops: seq<W.Op>) returns (run: seq<P.Move>)
    requires n >= 2
    ensures P.IsRun(max, P.Init(n), run)
    ensures var s := P.After(max, P.Init(n), run);
            Quiet(s) && s.log == ops && s.build == W.BuildRun(max, ops) && s.ring.accepted == P.Ingests(ops)
  {
    run := StreamRun(n, max, ops);
    P.InvInitially(n, max);
    P.InvAfterRun(max, P.Init(n), run);
    var s := P.After(max, P.Init(n), run);
    assert s.ring.accepted == P.Delivered(s.ring) + Queue(s.ring);
  }

  lemma {:induction false} SlotsKept(max: nat, s: P.State, run: seq<P.Move>)
    requires |s.ring.slots| > 0 && P.IsRun(max, s, run)
    ensures |P.After(max, s, run).ring.slots| > 0
    decreases |run|
  {
    if run != [] {
      SlotsKept(max, P.Moved(max, s, run[0]), run[1..]);
    }
  }

  lemma {:induction false} StreamRun(n: nat, max: nat, ops: seq<W.Op>) returns (run: seq<P.Move>)
    requires n >= 2
    ensures P.IsRun(max, P.Init(n), run)
    ensures Quiet(P.After(max, P.Init(n), run)) && P.After(max, P.Init(n), run).log == ops
  {
    if ops == [] {
      run := [];
      InvInit<Event>(n);
    } else {
      hide Quiet;
      var before, op := ops[..|ops| - 1], ops[|ops| - 1];
      run := StreamRun(n, max, before);
      var s := P.After(max, P.Init(n), run);
      var more: seq<P.Move>;
      match op {
        case Ingest(event) => more := Deliver(max, s, event);
        case Finalize(tx) => more := Close(max, s, tx);
      }
      assert ops == before + [op] && P.After(max, s, more).log == s.log + [op];
      SlotsKept(max, P.Init(n), run);
      hide *;
      MovesConcat(max, P.Init(n), run, more);
      run := run + more;
    }
  }
}
