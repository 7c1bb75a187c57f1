/** Grouping trace events into per-transaction windows (pipeline/src/window_builder.rs). */
module WindowBuilders {
  import opened Common
  import opened Sequences

  datatype ExecutionWindow = ExecutionWindow(
    transactionId: TransactionId,
    slot: U64,
    events: seq<Event>,
    startTs: U64,
    endTs: U64)

  type Pending = map<TransactionId, seq<Event>>

  /** The window of a transaction's pending events; none if there are none. */
  function WindowOf(tx: TransactionId, events: seq<Event>): Option<ExecutionWindow> {
    if events == [] then None else
    Some(ExecutionWindow(tx, events[0].slot, events, events[0].timestampNs, events[|events| - 1].timestampNs))
  }

  /** A window of these events, in their order, dated by the first and the last of them. */
  predicate IsWindow(w: ExecutionWindow, tx: TransactionId, events: seq<Event>) {
    && events != [] && w.events == events && w.transactionId == tx && w.slot == events[0].slot
    && w.startTs == events[0].timestampNs && w.endTs == events[|events| - 1].timestampNs
  }

  lemma WindowOfMeans(tx: TransactionId, events: seq<Event>)
    ensures WindowOf(tx, events) == None <==> events == []
    ensures forall w :: WindowOf(tx, events) == Some(w) <==> IsWindow(w, tx, events)
  {}

  /** A window of events recorded in time order spans exactly their times. */
  lemma WindowSpansEvents(tx: TransactionId, events: seq<Event>)
    requires events != []
    requires forall i, j :: 0 <= i < j < |events| ==> events[i].timestampNs <= events[j].timestampNs
    ensures var w := WindowOf(tx, events).value;
            && (forall e :: e in events ==> w.startTs <= e.timestampNs <= w.endTs)
            && (exists e :: e in events && e.timestampNs == w.startTs && e.slot == w.slot)
            && (exists e :: e in events && e.timestampNs == w.endTs)
  {
    assert events[0] in events && events[|events| - 1] in events;
  }

  function PendingOf(pending: Pending, tx: TransactionId): seq<Event> {
    if tx in pending then pending[tx] else []
  }

  function Ingested(pending: Pending, max: nat, event: Event): Pending {
    var window := PendingOf(pending, event.transactionId);
    pending[event.transactionId := if |window| < max then window + [event] else window]
  }

  /** Is this exactly one window for each transaction with pending events, in whatever order? */
  ghost predicate DrainsAll(pending: Pending, windows: seq<ExecutionWindow>) {
    && (forall i, j :: 0 <= i < j < |windows| ==> windows[i].transactionId != windows[j].transactionId)
    && (forall w :: w in windows <==> WindowOf(w.transactionId, PendingOf(pending, w.transactionId)) == Some(w))
  }

  class WindowBuilder {
    var pending: Pending
    const maxWindowSize: nat

    constructor (maxWindowSize: nat)
      ensures pending == map[] && this.maxWindowSize == maxWindowSize
    {
      pending := map[];
      this.maxWindowSize := maxWindowSize;
    }

    method Ingest(event: Event)
      modifies this
      ensures pending == Ingested(old(pending), maxWindowSize, event)
      ensures var window := PendingOf(old(pending), event.transactionId);
              PendingOf(pending, event.transactionId) == if |window| < maxWindowSize then window + [event] else window
      ensures forall tx: TransactionId :: tx != event.transactionId ==>
                PendingOf(pending, tx) == PendingOf(old(pending), tx)
    {
      if event.transactionId !in pending {
        pending := pending[event.transactionId := []];
      }
      var window := pending[event.transactionId];
      if |window| < maxWindowSize {
        pending := pending[event.transactionId := window + [event]];
      }
    }

    method Finalize(tx: TransactionId) returns (window: Option<ExecutionWindow>)
      modifies this
      ensures pending == old(pending) - {tx}
      ensures window == WindowOf(tx, PendingOf(old(pending), tx))
      ensures window == None <==> PendingOf(old(pending), tx) == []
      ensures window.Some? ==> IsWindow(window.value, tx, PendingOf(old(pending), tx))
    {
      if tx !in pending {
        return None;
      }
      var events := pending[tx];
      pending := pending - {tx};
      if events == [] {
        return None;
      }
      var startTs := events[0].timestampNs;
      var endTs := events[|events| - 1].timestampNs;
      var slot := events[0].slot;
      return Some(ExecutionWindow(tx, slot, events, startTs, endTs));
    }

    method DrainAll() returns (windows: seq<ExecutionWindow>)
      modifies this
      ensures pending == map[]
      ensures DrainsAll(old(pending), windows)
      ensures forall w :: w in windows ==> IsWindow(w, w.transactionId, PendingOf(old(pending), w.transactionId))
      ensures forall tx: TransactionId :: PendingOf(old(pending), tx) != [] ==>
                exists w :: w in windows && w.transactionId == tx
    {
      ghost var all := pending;
      var keys := pending.Keys;
      windows := [];
      while keys != {}
        invariant pending.Keys == keys <= all.Keys
        invariant forall tx :: tx in keys ==> pending[tx] == all[tx]
        invariant DrainsAll(all - keys, windows)
        decreases |keys|
      {
        var tx :| tx in keys;
        DrainsOneMore(all, keys, windows, tx);
        var window := Finalize(tx);
        if window.Some? {
          windows := windows + [window.value];
        }
        keys := keys - {tx};
      }
      assert all - keys == all;
      DrainedWindows(all, windows);
    }

    method PendingCount() returns (count: nat)
      ensures count == |pending|
    {
      count := |pending|;
    }
  }

  lemma DrainsOneMore(all: Pending, keys: set<TransactionId>, windows: seq<ExecutionWindow>, tx: TransactionId)
    requires tx in keys && keys <= all.Keys && DrainsAll(all - keys, windows)
    ensures DrainsAll(all - (keys - {tx}), windows + OptionSeq(WindowOf(tx, all[tx])))
  {
    var drained, more := all - keys, all - (keys - {tx});
    forall w: ExecutionWindow | w.transactionId != tx
      ensures PendingOf(more, w.transactionId) == PendingOf(drained, w.transactionId) {}
    forall w | w in windows ensures w.transactionId != tx {
      assert WindowOf(w.transactionId, PendingOf(drained, w.transactionId)) == Some(w);
    }
    assert PendingOf(more, tx) == all[tx];
    assert windows + [] == windows;
  }

  lemma DrainedWindows(pending: Pending, windows: seq<ExecutionWindow>)
    requires DrainsAll(pending, windows)
    ensures forall w :: w in windows ==> IsWindow(w, w.transactionId, PendingOf(pending, w.transactionId))
    ensures forall tx: TransactionId :: PendingOf(pending, tx) != [] ==>
              exists w :: w in windows && w.transactionId == tx
  {
    forall tx: TransactionId | PendingOf(pending, tx) != []
      ensures exists w :: w in windows && w.transactionId == tx
    {
      var w := WindowOf(tx, PendingOf(pending, tx)).value;
      assert w in windows;
    }
  }

  /** All orders of draining yield the same windows. */
  lemma DrainOrderIrrelevant(pending: Pending, a: seq<ExecutionWindow>, b: seq<ExecutionWindow>)
    requires DrainsAll(pending, a) && DrainsAll(pending, b)
    ensures multiset(a) == multiset(b)
  {
    forall w ensures multiset(a)[w] == multiset(b)[w] {
      CountsOnce(a, w);
      CountsOnce(b, w);
      assert w in a <==> w in b;
    }
  }

  lemma {:induction false} CountsOnce(s: seq<ExecutionWindow>, w: ExecutionWindow)
    requires forall i, j :: 0 <= i < j < |s| ==> s[i].transactionId != s[j].transactionId
    ensures multiset(s)[w] == if w in s then 1 else 0
  {
    if s != [] {
      CountsOnce(s[1..], w);
      assert s == [s[0]] + s[1..];
      assert s[0] !in s[1..];
    }
  }

  // ---- Streams of ingests and finalizes -------------------------------------------------------------

  datatype Op = Ingest(event: Event) | Finalize(tx: TransactionId)

  function TxOf(op: Op): TransactionId {
    match op
    case Ingest(event) => event.transactionId
    case Finalize(tx) => tx
  }

  /** What is pending, and for each finalize so far the window it emitted, in order. */
  datatype Build = Build(pending: Pending, emitted: seq<ExecutionWindow>)

  function OptionSeq<T>(o: Option<T>): seq<T> {
    match o case None => [] case Some(x) => [x]
  }

  function BuildStep(max: nat, b: Build, op: Op): Build {
    match op
    case Ingest(event) => b.(pending := Ingested(b.pending, max, event))
    case Finalize(tx) =>
      Build(b.pending - {tx}, b.emitted + OptionSeq(WindowOf(tx, PendingOf(b.pending, tx))))
  }

  function BuildRun(max: nat, ops: seq<Op>): Build {
    if ops == [] then Build(map[], []) else
    BuildStep(max, BuildRun(max, ops[..|ops| - 1]), ops[|ops| - 1])
  }

  /** The operations of one transaction. */
  function Project(ops: seq<Op>, tx: TransactionId): seq<Op> {
    if ops == [] then [] else
    var rest := Project(ops[..|ops| - 1], tx);
    if TxOf(ops[|ops| - 1]) == tx then rest + [ops[|ops| - 1]] else rest
  }

  function WindowsOf(windows: seq<ExecutionWindow>, tx: TransactionId): seq<ExecutionWindow> {
    if windows == [] then [] else
    var rest := WindowsOf(windows[..|windows| - 1], tx);
    if windows[|windows| - 1].transactionId == tx then rest + [windows[|windows| - 1]] else rest
  }

  // The reference for one transaction: split its stream at the finalizes, cut each stretch.

  /** The events since the last finalize. */
  function OpenStretch(own: seq<Op>): seq<Event> {
    if own == [] then [] else
    match own[|own| - 1]
    case Ingest(event) => OpenStretch(own[..|own| - 1]) + [event]
    case Finalize(_) => []
  }

  /** The windows of the stretches that a finalize has closed, without the empty ones. */
  function ClosedWindows(max: nat, tx: TransactionId, own: seq<Op>): seq<ExecutionWindow> {
    if own == [] then [] else
    var before := own[..|own| - 1];
    ClosedWindows(max, tx, before) +
    match own[|own| - 1]
    case Ingest(_) => []
    case Finalize(_) => OptionSeq(WindowOf(tx, Cut(OpenStretch(before), max)))
  }

  /** The open stretch, position by position: what was ingested after the last finalize, in order. */
  lemma {:induction false} OpenStretchExact(own: seq<Op>) returns (from: nat)
    ensures from <= |own| && (from == 0 || own[from - 1].Finalize?)
    ensures |OpenStretch(own)| == |own| - from
    ensures forall i :: 0 <= i < |own| - from ==> own[from + i] == Ingest(OpenStretch(own)[i])
  {
    if own == [] {
      from := 0;
    } else if own[|own| - 1].Finalize? {
      from := |own|;
    } else {
      from := OpenStretchExact(own[..|own| - 1]);
    }
  }

  /** The stretches that a finalize has closed, without the empty ones. */
  function ClosedStretches(own: seq<Op>): seq<seq<Event>> {
    if own == [] then [] else
    var before := own[..|own| - 1];
    if own[|own| - 1].Ingest? || OpenStretch(before) == [] then ClosedStretches(before)
    else ClosedStretches(before) + [OpenStretch(before)]
  }

  lemma CutEmpty<T>(s: seq<T>, n: nat)
    requires n > 0
    ensures Cut(s, n) == [] <==> s == []
  {}

  /** The k-th window holds the first `max` events of the k-th closed stretch, in order. */
  lemma {:induction false} ClosedWindowsExact(max: nat, tx: TransactionId, own: seq<Op>)
    requires max > 0
    ensures |ClosedWindows(max, tx, own)| == |ClosedStretches(own)|
    ensures forall k :: 0 <= k < |ClosedStretches(own)| ==>
              IsWindow(ClosedWindows(max, tx, own)[k], tx, Cut(ClosedStretches(own)[k], max))
  {
    hide Cut, WindowOf, IsWindow, OpenStretch;
    if own != [] {
      var before := own[..|own| - 1];
      ClosedWindowsExact(max, tx, before);
      CutEmpty(OpenStretch(before), max);
      WindowOfMeans(tx, Cut(OpenStretch(before), max));
    }
  }

  lemma {:induction false} NoRoomNoWindows(tx: TransactionId, own: seq<Op>)
    ensures ClosedWindows(0, tx, own) == []
  {
    if own != [] {
      NoRoomNoWindows(tx, own[..|own| - 1]);
    }
  }

  /** So each transaction's windows hold its closed stretches, cut to size, in order; with size 0 there are none. */
  lemma EmittedWindowsExact(max: nat, ops: seq<Op>, tx: TransactionId)
    ensures var windows, stretches := WindowsOf(BuildRun(max, ops).emitted, tx), ClosedStretches(Project(ops, tx));
            if max == 0 then windows == [] else
            && |windows| == |stretches|
            && forall k :: 0 <= k < |stretches| ==> IsWindow(windows[k], tx, Cut(stretches[k], max))
  {
    EmittedIsPerTransaction(max, ops, tx);
    if max == 0 {
      NoRoomNoWindows(tx, Project(ops, tx));
    } else {
      ClosedWindowsExact(max, tx, Project(ops, tx));
    }
  }

  lemma {:induction false} PendingIsPerTransaction(max: nat, ops: seq<Op>, tx: TransactionId)
    ensures PendingOf(BuildRun(max, ops).pending, tx) == Cut(OpenStretch(Project(ops, tx)), max)
  {
    if ops != [] {
      var shorter, op := ops[..|ops| - 1], ops[|ops| - 1];
      var own := Project(shorter, tx);
      PendingIsPerTransaction(max, shorter, tx);
      assert (own + [op])[..|own|] == own;
    }
  }

  lemma WindowsSnoc(windows: seq<ExecutionWindow>, w: Option<ExecutionWindow>, tx: TransactionId)
    ensures WindowsOf(windows + OptionSeq(w), tx) ==
            WindowsOf(windows, tx) + if w.Some? && w.value.transactionId == tx then [w.value] else []
  {
    match w
    case None => assert windows + [] == windows;
    case Some(x) => assert (windows + [x])[..|windows|] == windows;
  }

  lemma {:induction false} EmittedIsPerTransaction(max: nat, ops: seq<Op>, tx: TransactionId)
    ensures WindowsOf(BuildRun(max, ops).emitted, tx) == ClosedWindows(max, tx, Project(ops, tx))
  {
    if ops != [] {
      var shorter, op := ops[..|ops| - 1], ops[|ops| - 1];
      var own, before := Project(shorter, tx), BuildRun(max, shorter);
      EmittedIsPerTransaction(max, shorter, tx);
      assert (own + [op])[..|own|] == own;
      if op.Finalize? {
        WindowsSnoc(before.emitted, WindowOf(op.tx, PendingOf(before.pending, op.tx)), tx);
        PendingIsPerTransaction(max, shorter, tx);
      }
    }
  }

  /**
   Each transaction's part of the result is a function of its own operations alone: pending are the
   first `max` events since its last finalize, emitted the windows of its closed stretches, in order.
   */
  lemma BuildIsPerTransaction(max: nat, ops: seq<Op>, tx: TransactionId)
    ensures PendingOf(BuildRun(max, ops).pending, tx) == Cut(OpenStretch(Project(ops, tx)), max)
    ensures WindowsOf(BuildRun(max, ops).emitted, tx) == ClosedWindows(max, tx, Project(ops, tx))
  {
    PendingIsPerTransaction(max, ops, tx);
    EmittedIsPerTransaction(max, ops, tx);
  }

  /** Streams with equal projections yield equal pending events and equal windows per transaction. */
  lemma ProjectionsDetermineWindows(max: nat, a: seq<Op>, b: seq<Op>)
    requires forall tx: TransactionId :: Project(a, tx) == Project(b, tx)
    ensures forall tx: TransactionId ::
              && PendingOf(BuildRun(max, a).pending, tx) == PendingOf(BuildRun(max, b).pending, tx)
              && WindowsOf(BuildRun(max, a).emitted, tx) == WindowsOf(BuildRun(max, b).emitted, tx)
  {
    forall tx: TransactionId
      ensures && PendingOf(BuildRun(max, a).pending, tx) == PendingOf(BuildRun(max, b).pending, tx)
              && WindowsOf(BuildRun(max, a).emitted, tx) == WindowsOf(BuildRun(max, b).emitted, tx)
    {
      BuildIsPerTransaction(max, a, tx);
      BuildIsPerTransaction(max, b, tx);
    }
  }
}
