/**
 The ring buffer feeding the window builder: the consumer ingests each event it pops, and may finalize
 transactions at any point, while the producer keeps pushing.
 */
module Pipeline {
  import opened Common
  import opened Sequences
  import opened RingMachine
  import opened RingSafety
  import W = WindowBuilders

  datatype Move = OnRing(action: Action<Event>) | Close(tx: TransactionId)

  /** `log` is what the builder has been asked to do, `cut` the events its size limit dropped. */
  datatype State = State(ring: Ring<Event>, build: W.Build, log: seq<W.Op>, cut: seq<Event>)

  function Init(n: nat): State {
    State(RingMachine.Init(n), W.Build(map[], []), [], [])
  }

  predicate CanMove(s: State, move: Move) {
    move.OnRing? ==> Enabled(s.ring, move.action)
  }

  function Moved(max: nat, s: State, move: Move): State
    requires |s.ring.slots| > 0 && CanMove(s, move)
  {
    match move
    case Close(tx) =>
      var op := W.Finalize(tx);
      s.(build := W.BuildStep(max, s.build, op), log := s.log + [op])
    case OnRing(action) =>
      var s' := s.(ring := Next(s.ring, action));
      if action.StoreHead? && s.ring.consumer.content.Some? then
        var event := s.ring.consumer.content.value;
        var op := W.Ingest(event);
        var full := |W.PendingOf(s.build.pending, event.transactionId)| >= max;
        s'.(build := W.BuildStep(max, s.build, op), log := s.log + [op],
            cut := if full then s.cut + [event] else s.cut)
      else s'
  }

  predicate IsRun(max: nat, s: State, run: seq<Move>)
    requires |s.ring.slots| > 0
    decreases |run|
  {
    run == [] || (CanMove(s, run[0]) && IsRun(max, Moved(max, s, run[0]), run[1..]))
  }

  function After(max: nat, s: State, run: seq<Move>): State
    requires |s.ring.slots| > 0 && IsRun(max, s, run)
    decreases |run|
  {
    if run == [] then s else After(max, Moved(max, s, run[0]), run[1..])
  }

  // ---- Where the events are -------------------------------------------------------------------------

  /** All pending events, of all transactions. */
  ghost function Held(pending: W.Pending): multiset<Event> {
    if pending == map[] then multiset{} else
    var tx :| tx in pending;
    multiset(pending[tx]) + Held(pending - {tx})
  }

  function Emitted(windows: seq<W.ExecutionWindow>): multiset<Event> {
    if windows == [] then multiset{} else
    Emitted(windows[..|windows| - 1]) + multiset(windows[|windows| - 1].events)
  }

  lemma {:induction false} HeldSplit(pending: W.Pending, tx: TransactionId)
    requires tx in pending
    ensures Held(pending) == multiset(pending[tx]) + Held(pending - {tx})
    decreases |pending|
  {
    var picked :| picked in pending && Held(pending) == multiset(pending[picked]) + Held(pending - {picked});
    if picked != tx {
      HeldSplit(pending - {picked}, tx);
      HeldSplit(pending - {tx}, picked);
      assert pending - {picked} - {tx} == pending - {tx} - {picked};
    }
  }

  lemma HeldOf(pending: W.Pending, tx: TransactionId)
    ensures Held(pending) == multiset(W.PendingOf(pending, tx)) + Held(pending - {tx})
  {
    if tx in pending {
      HeldSplit(pending, tx);
    } else {
      assert pending - {tx} == pending;
    }
  }

  lemma HeldAfterIngest(max: nat, pending: W.Pending, event: Event)
    ensures var more := W.Ingested(pending, max, event);
            if |W.PendingOf(pending, event.transactionId)| < max then Held(more) == Held(pending) + multiset{event}
            else Held(more) == Held(pending)
  {
    hide Held;
    var tx, more := event.transactionId, W.Ingested(pending, max, event);
    var window := W.PendingOf(pending, tx);
    HeldOf(pending, tx);
    HeldOf(more, tx);
    assert more - {tx} == pending - {tx};
    AddOne(window, event, Held(pending - {tx}));
  }

  lemma AddOne<T>(s: seq<T>, x: T, rest: multiset<T>)
    ensures multiset(s + [x]) + rest == (multiset(s) + rest) + multiset{x}
  {}

  lemma HeldAfterFinalize(max: nat, b: W.Build, tx: TransactionId)
    ensures var b' := W.BuildStep(max, b, W.Finalize(tx));
            Held(b'.pending) + Emitted(b'.emitted) == Held(b.pending) + Emitted(b.emitted)
  {
    HeldOf(b.pending, tx);
    var window := W.WindowOf(tx, W.PendingOf(b.pending, tx));
    if window.Some? {
      assert (b.emitted + [window.value])[..|b.emitted|] == b.emitted;
    } else {
      assert b.emitted + [] == b.emitted;
    }
  }

  // ---- The invariant ----------------------------------------------------------------------------------

  function Ingests(log: seq<W.Op>): seq<Event> {
    if log == [] then [] else
    var rest := Ingests(log[..|log| - 1]);
    match log[|log| - 1]
    case Ingest(event) => rest + [event]
    case Finalize(_) => rest
  }

  /** The builder's half of the invariant. */
  ghost predicate BuildInv(max: nat, s: State, delivered: seq<Event>) {
    && s.build == W.BuildRun(max, s.log)
    && Ingests(s.log) == delivered
    && Tallied(delivered, s.cut, s.build)
  }

  /** Every delivered event was cut, is pending, or has been emitted. */
  ghost predicate Tallied(delivered: seq<Event>, cut: seq<Event>, build: W.Build) {
    multiset(delivered) == multiset(cut) + (Held(build.pending) + Emitted(build.emitted))
  }

  /** The events the ring has delivered, in order. */
  ghost function Delivered(ring: Ring<Event>): seq<Event>
    requires Inv(ring)
  {
    ring.accepted[..|ring.popped|]
  }

  ghost predicate PipelineInv(max: nat, s: State) {
    Inv(s.ring) && Accounted(s.ring) && BuildInv(max, s, Delivered(s.ring))
  }

  lemma BuildInvClose(max: nat, s: State, delivered: seq<Event>, tx: TransactionId)
    requires |s.ring.slots| > 0 && BuildInv(max, s, delivered)
    ensures BuildInv(max, Moved(max, s, Close(tx)), delivered)
  {
    assert Moved(max, s, Close(tx)).log[..|s.log|] == s.log;
    HeldAfterFinalize(max, s.build, tx);
  }

  /** One more event delivered: either cut, or held. */
  lemma DeliverOne<T>(delivered: seq<T>, cut: seq<T>, held: multiset<T>, emitted: multiset<T>, x: T)
    requires multiset(delivered) == multiset(cut) + (held + emitted)
    ensures multiset(delivered + [x]) == multiset(cut + [x]) + (held + emitted)
    ensures multiset(delivered + [x]) == multiset(cut) + ((held + multiset{x}) + emitted)
  {
    assert multiset(delivered + [x]) == multiset(delivered) + multiset{x};
    assert multiset(cut + [x]) == multiset(cut) + multiset{x};
  }

  lemma TalliedIngest(max: nat, delivered: seq<Event>, cut: seq<Event>, build: W.Build, event: Event)
    requires Tallied(delivered, cut, build)
    ensures var full := |W.PendingOf(build.pending, event.transactionId)| >= max;
            Tallied(delivered + [event], if full then cut + [event] else cut, W.BuildStep(max, build, W.Ingest(event)))
  {
    HeldAfterIngest(max, build.pending, event);
    DeliverOne(delivered, cut, Held(build.pending), Emitted(build.emitted), event);
  }

  lemma BuildInvPop(max: nat, s: State, delivered: seq<Event>, event: Event)
    requires |s.ring.slots| > 0 && BuildInv(max, s, delivered)
    requires s.ring.consumer.SlotRead? && s.ring.consumer.content == Some(event)
    ensures BuildInv(max, Moved(max, s, OnRing(StoreHead)), delivered + [event])
  {
    hide Tallied;
    assert Moved(max, s, OnRing(StoreHead)).log[..|s.log|] == s.log;
    TalliedIngest(max, delivered, s.cut, s.build, event);
  }

  lemma DeliveredNext(ring: Ring<Event>, action: Action<Event>)
    requires Inv(ring) && Enabled(ring, action)
    ensures Inv(Next(ring, action))
    ensures !action.StoreHead? ==> Delivered(Next(ring, action)) == Delivered(ring)
    ensures action.StoreHead? ==>
              && ring.consumer.content.Some?
              && Delivered(Next(ring, action)) == Delivered(ring) + [ring.consumer.content.value]
  {
    InvNext(ring, action);
  }

  lemma InvMoved(max: nat, s: State, move: Move)
    requires PipelineInv(max, s) && CanMove(s, move)
    ensures PipelineInv(max, Moved(max, s, move))
  {
    match move
    case Close(tx) => BuildInvClose(max, s, Delivered(s.ring), tx);
    case OnRing(action) =>
      DeliveredNext(s.ring, action);
      AccountedNext(s.ring, action);
      if action.StoreHead? {
        BuildInvPop(max, s, Delivered(s.ring), s.ring.consumer.content.value);
      }
  }

  lemma InvInitially(n: nat, max: nat)
    requires n > 0
    ensures PipelineInv(max, Init(n))
  {
    InvInit<Event>(n);
    assert RingMachine.Init<Event>(n).accepted == [];
  }

  lemma {:induction false} InvAfterRun(max: nat, s: State, run: seq<Move>)
    requires PipelineInv(max, s) && IsRun(max, s, run)
    ensures PipelineInv(max, After(max, s, run))
    decreases |run|
  {
    if run != [] {
      InvMoved(max, s, run[0]);
      InvAfterRun(max, Moved(max, s, run[0]), run[1..]);
    }
  }

  /** Everywhere an offered event can be. */
  ghost function Everywhere(s: State): multiset<Event>
    requires |s.ring.popped| <= |s.ring.accepted|
  {
    multiset(s.ring.rejected) + multiset(InHand(s.ring)) + multiset(Queue(s.ring)) +
    (multiset(s.cut) + (Held(s.build.pending) + Emitted(s.build.emitted)))
  }

  lemma Regroup<T>(a: multiset<T>, b: multiset<T>, c: multiset<T>, d: multiset<T>)
    ensures ((a + b) + c) + d == c + d + b + a
  {}

  lemma OfferedIsEverywhere(max: nat, s: State)
    requires PipelineInv(max, s)
    ensures multiset(s.ring.offered) == Everywhere(s)
    ensures Ingests(s.log) + Queue(s.ring) == s.ring.accepted
  {
    hide Held, Emitted, Ingests;
    assert s.ring.accepted == Delivered(s.ring) + Queue(s.ring);
    Regroup(multiset(Delivered(s.ring)), multiset(Queue(s.ring)), multiset(s.ring.rejected), multiset(InHand(s.ring)));
  }

  /** What the builder holds for a transaction, and where every event is. */
  ghost predicate Lossless(max: nat, s: State, tx: TransactionId) {
    && |s.ring.popped| <= |s.ring.accepted|
    && Ingests(s.log) + Queue(s.ring) == s.ring.accepted
    && W.PendingOf(s.build.pending, tx) == Cut(W.OpenStretch(W.Project(s.log, tx)), max)
    && W.WindowsOf(s.build.emitted, tx) == W.ClosedWindows(max, tx, W.Project(s.log, tx))
    && multiset(s.ring.offered) == Everywhere(s)
  }

  lemma InvLossless(max: nat, s: State, tx: TransactionId)
    requires PipelineInv(max, s)
    ensures Lossless(max, s, tx)
  {
    W.BuildIsPerTransaction(max, s.log, tx);
    OfferedIsEverywhere(max, s);
  }

  /**
   In every interleaving, stale loads included: the builder has ingested a prefix of the accepted
   pushes in their order, each transaction's windows are those of that prefix split at its finalizes,
   and every event ever offered is in exactly one place: rejected, in the producer's hand, in the
   ring, cut by the size limit, pending, or in an emitted window.
   */
  lemma PipelineIsLossless(n: nat, max: nat, run: seq<Move>, tx: TransactionId)
    requires n > 0 && IsRun(max, Init(n), run)
    ensures Lossless(max, After(max, Init(n), run), tx)
  {
    InvInitially(n, max);
    InvAfterRun(max, Init(n), run);
    InvLossless(max, After(max, Init(n), run), tx);
  }

  // ---- A transaction that stays open ------------------------------------------------------------------

  function EventsOf(events: seq<Event>, tx: TransactionId): seq<Event> {
    if events == [] then [] else
    var rest := EventsOf(events[..|events| - 1], tx);
    if events[|events| - 1].transactionId == tx then rest + [events[|events| - 1]] else rest
  }

  /** If tx has not been finalized, its open stretch is all that was ingested for it. */
  lemma {:induction false} OpenStretchOfIngests(log: seq<W.Op>, tx: TransactionId)
    requires W.Finalize(tx) !in log
    ensures W.OpenStretch(W.Project(log, tx)) == EventsOf(Ingests(log), tx)
  {
    if log != [] {
      var shorter, op := log[..|log| - 1], log[|log| - 1];
      OpenStretchOfIngests(shorter, tx);
      var own := W.Project(shorter, tx);
      assert (own + [op])[..|own|] == own;
      if op.Ingest? {
        assert (Ingests(shorter) + [op.event])[..|Ingests(shorter)|] == Ingests(shorter);
      }
    }
  }

  /**
   Once the ring is drained, a transaction not yet finalized has pending its first accepted events,
   whatever was finalized for others meanwhile.
   */
  lemma DrainedPipeline(n: nat, max: nat, run: seq<Move>, tx: TransactionId)
    requires n > 0 && IsRun(max, Init(n), run)
    requires W.Finalize(tx) !in After(max, Init(n), run).log
    requires var ring := After(max, Init(n), run).ring; |ring.popped| == |ring.accepted|
    ensures var s := After(max, Init(n), run);
            W.PendingOf(s.build.pending, tx) == Cut(EventsOf(s.ring.accepted, tx), max)
  {
    PipelineIsLossless(n, max, run, tx);
    var s := After(max, Init(n), run);
    assert Queue(s.ring) == [] && Ingests(s.log) + [] == Ingests(s.log);
    OpenStretchOfIngests(s.log, tx);
  }
}
