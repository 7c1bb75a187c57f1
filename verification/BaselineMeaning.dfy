/** What one window contributes to a baseline, said without the loops' recursions: by positions and distances. */
module BaselineMeaning {
  import opened Common
  import opened Baseline

  // ---- Counting -----------------------------------------------------------------------------------

  /** The positions of the calls with these ids. */
  ghost function Positions(events: seq<Event>, ids: set<SyscallId>): set<int> {
    set i | 0 <= i < |events| && events[i].syscallId in ids
  }

  lemma PositionsSnoc(events: seq<Event>, e: Event, ids: set<SyscallId>)
    ensures Positions(events + [e], ids) ==
            if e.syscallId in ids then Positions(events, ids) + {|events|} else Positions(events, ids)
  {
    var longer := events + [e];
    assert longer[|events|] == e;
    assert forall i :: 0 <= i < |events| ==> longer[i] == events[i];
  }

  /** The count of an id is the number of positions where it occurs. */
  lemma {:induction false} CountIsPositions(events: seq<Event>, id: SyscallId)
    ensures Count(events, id) == |Positions(events, {id})|
  {
    if events != [] {
      var shorter, e := events[..|events| - 1], events[|events| - 1];
      CountIsPositions(shorter, id);
      PositionsSnoc(shorter, e, {id});
      assert events == shorter + [e];
    } else {
      assert Positions(events, {id}) == {};
    }
  }

  /** The crypto count is the number of positions with an id from 20 to 23. */
  lemma {:induction false} CryptoCountIsPositions(events: seq<Event>)
    ensures CryptoCount(events) == |Positions(events, {20, 21, 22, 23})|
  {
    if events != [] {
      var shorter, e := events[..|events| - 1], events[|events| - 1];
      CryptoCountIsPositions(shorter);
      PositionsSnoc(shorter, e, {20, 21, 22, 23});
      assert events == shorter + [e];
    } else {
      assert Positions(events, {20, 21, 22, 23}) == {};
    }
  }

  ghost function SumOfCounts(events: seq<Event>, ids: set<SyscallId>): nat {
    if ids == {} then 0 else
    var id :| id in ids;
    Count(events, id) + SumOfCounts(events, ids - {id})
  }

  lemma {:induction false} SumIsPositions(events: seq<Event>, ids: set<SyscallId>)
    ensures SumOfCounts(events, ids) == |Positions(events, ids)|
  {
    if ids == {} {
      assert Positions(events, ids) == {};
    } else {
      var id :| id in ids && SumOfCounts(events, ids) == Count(events, id) + SumOfCounts(events, ids - {id});
      SumIsPositions(events, ids - {id});
      CountIsPositions(events, id);
      assert Positions(events, ids) == Positions(events, {id}) + Positions(events, ids - {id});
      assert Positions(events, {id}) !! Positions(events, ids - {id});
    }
  }

  lemma {:induction false} EveryPosition(events: seq<Event>, ids: set<SyscallId>)
    requires forall i :: 0 <= i < |events| ==> events[i].syscallId in ids
    ensures |Positions(events, ids)| == |events|
  {
    if events == [] {
      assert Positions(events, ids) == {};
    } else {
      var shorter, e := events[..|events| - 1], events[|events| - 1];
      EveryPosition(shorter, ids);
      PositionsSnoc(shorter, e, ids);
      assert events == shorter + [e];
    }
  }

  /** The counts of the ids that occur add up to the number of events. */
  lemma CountsAddUp(events: seq<Event>)
    ensures SumOfCounts(events, IdsOf(events)) == |events|
  {
    SumIsPositions(events, IdsOf(events));
    forall i | 0 <= i < |events| ensures events[i].syscallId in IdsOf(events) {
      assert events[i] in events;
    }
    EveryPosition(events, IdsOf(events));
  }

  // ---- Depth --------------------------------------------------------------------------------------

  /** No event is deeper, and one is as deep; without events the depth is 0. */
  lemma {:induction false} MaxDepthExact(events: seq<Event>)
    ensures forall e :: e in events ==> e.depth <= MaxDepth(events)
    ensures if events == [] then MaxDepth(events) == 0 else exists e :: e in events && e.depth == MaxDepth(events)
  {
    if events != [] {
      var shorter, last := events[..|events| - 1], events[|events| - 1];
      MaxDepthExact(shorter);
      assert events == shorter + [last];
      if last.depth <= MaxDepth(shorter) && shorter != [] {
        var e :| e in shorter && e.depth == MaxDepth(shorter);
        assert e in events;
      } else {
        assert last in events;
      }
    }
  }

  // ---- Delays -------------------------------------------------------------------------------------

  /** The shorter way around the 64-bit clock. */
  function Distance(a: U64, b: U64): nat {
    var d := if a < b then b - a else a - b;
    if d <= 0x8000_0000_0000_0000 then d else 0x1_0000_0000_0000_0000 - d
  }

  /**
   The total delay is that of neighbours: none for one event, the distance for two, and cutting a sequence
   at any event splits it.
   */
  lemma TotalDelayOfTwo(x: Event, y: Event)
    ensures TotalDelay([x]) == 0 && TotalDelay([x, y]) == Distance(x.timestampNs, y.timestampNs)
  {
    assert [x, y][..1] == [x];
  }

  lemma TotalDelaySnoc(events: seq<Event>, y: Event)
    requires events != []
    ensures TotalDelay(events + [y]) ==
            TotalDelay(events) + Delay(events[|events| - 1].timestampNs, y.timestampNs)
  {
    hide Delay;
    assert (events + [y])[..|events|] == events;
  }

  lemma {:induction false} TotalDelaySplits(a: seq<Event>, e: Event, b: seq<Event>)
    ensures TotalDelay(a + [e] + b) == TotalDelay(a + [e]) + TotalDelay([e] + b)
  {
    hide Delay;
    if b == [] {
      assert a + [e] + b == a + [e] && [e] + b == [e];
    } else {
      hide TotalDelay;
      var shorter, y := b[..|b| - 1], b[|b| - 1];
      TotalDelaySplits(a, e, shorter);
      assert b == shorter + [y];
      TotalDelaySnoc(a + [e] + shorter, y);
      TotalDelaySnoc([e] + shorter, y);
      assert a + [e] + b == a + [e] + shorter + [y] && [e] + b == [e] + shorter + [y];
      assert (a + [e] + shorter)[|a + [e] + shorter| - 1] == ([e] + shorter)[|shorter|];
    }
  }

  /** In time order, over at most 2^63 ns, the delays add up to the time from first to last. */
  lemma {:induction false} TotalDelaySpans(events: seq<Event>)
    requires events != []
    requires forall i, j :: 0 <= i < j < |events| ==> events[i].timestampNs <= events[j].timestampNs
    requires events[|events| - 1].timestampNs - events[0].timestampNs <= TWO64 / 2
    ensures TotalDelay(events) == events[|events| - 1].timestampNs - events[0].timestampNs
  {
    if |events| > 1 {
      TotalDelaySpans(events[..|events| - 1]);
    }
  }

  lemma RatioTimes(part: nat, whole: nat)
    requires whole > 0
    ensures Ratio(part, whole) * whole as real == part as real
  {}

  /** So the mean delay of such a window is its span over the number of gaps. */
  lemma MeanDelaySpans(events: seq<Event>)
    requires |events| > 1
    requires forall i, j :: 0 <= i < j < |events| ==> events[i].timestampNs <= events[j].timestampNs
    requires events[|events| - 1].timestampNs - events[0].timestampNs <= TWO64 / 2
    ensures MeanDelay(events) * (|events| - 1) as real ==
            (events[|events| - 1].timestampNs - events[0].timestampNs) as real
  {
    hide Ratio, TotalDelay;
    TotalDelaySpans(events);
    RatioTimes(TotalDelay(events), |events| - 1);
  }

  // ---- The update ---------------------------------------------------------------------------------

  /** Nine tenths of the old value and one tenth of the share of a window. */
  predicate IsBlend(after: real, before: real, part: nat, whole: nat)
    requires whole > 0
  {
    after == 0.9 * before + 0.1 * (part as real / whole as real)
  }

  /** An update blends the frequency of each id that occurs and leaves the others alone. */
  lemma FrequencyUpdate(s: Stats, events: seq<Event>, id: SyscallId)
    requires events != []
    ensures var s' := Updated(s, events);
            && (id in s'.frequencies <==> id in s.frequencies || Positions(events, {id}) != {})
            && (Positions(events, {id}) == {} ==>
                  FrequencyOf(s'.frequencies, id) == FrequencyOf(s.frequencies, id))
            && (Positions(events, {id}) != {} ==>
                  IsBlend(FrequencyOf(s'.frequencies, id), FrequencyOf(s.frequencies, id),
                          |Positions(events, {id})|, |events|))
  {
    CountIsPositions(events, id);
    Occurs(events, id);
    hide Count, CryptoCount, TotalDelay, MaxDepth, Positions, IdsOf;
  }

  /** And what it makes of the other statistics, in terms of positions, depths and delays. */
  lemma UpdateMeans(s: Stats, events: seq<Event>)
    requires events != []
    ensures var s' := Updated(s, events);
            && IsBlend(s'.cryptoRatio, s.cryptoRatio, |Positions(events, {20, 21, 22, 23})|, |events|)
            && (if |events| == 1 then s'.meanDelay == s.meanDelay
                else IsBlend(s'.meanDelay, s.meanDelay, TotalDelay(events), |events| - 1))
            && s'.maxDepth >= s.maxDepth && (forall e :: e in events ==> e.depth <= s'.maxDepth)
            && (s'.maxDepth == s.maxDepth || exists e :: e in events && e.depth == s'.maxDepth)
            && s'.observations == (s.observations + |events|) % 0x1_0000_0000_0000_0000
  {
    hide CryptoCount, TotalDelay, MaxDepth, Positions, BlendIds;
    MaxDepthExact(events);
    CryptoCountIsPositions(events);
  }

  lemma Occurs(events: seq<Event>, id: SyscallId)
    ensures id in IdsOf(events) <==> exists i :: 0 <= i < |events| && events[i].syscallId == id
    ensures id in IdsOf(events) <==> Positions(events, {id}) != {}
  {
    if id in IdsOf(events) {
      var e :| e in events && e.syscallId == id;
      var i :| 0 <= i < |events| && events[i] == e;
      assert i in Positions(events, {id});
    }
    if Positions(events, {id}) != {} {
      var i :| i in Positions(events, {id});
      assert events[i] in events;
    }
    forall i | 0 <= i < |events| && events[i].syscallId == id ensures i in Positions(events, {id}) {}
  }
}
