/** Per-program behavioural baselines: moving averages over trace windows (anomaly/src/baseline.rs). */
module Baseline {
  import opened Common
  import opened Modular

  datatype Stats = Stats(
    frequencies: map<SyscallId, real>,
    meanDelay: real,
    maxDepth: U8,
    cryptoRatio: real,
    observations: U64)

  // ---- What one window contributes ------------------------------------------------------------------

  predicate IsCrypto(id: SyscallId) {
    id in [SOL_SHA256, SOL_KECCAK256, SOL_SECP256K1_RECOVER, SOL_ED25519_VERIFY]
  }

  function Count(events: seq<Event>, id: SyscallId): nat {
    if events == [] then 0 else
    Count(events[..|events| - 1], id) + if events[|events| - 1].syscallId == id then 1 else 0
  }

  function CryptoCount(events: seq<Event>): nat {
    if events == [] then 0 else
    CryptoCount(events[..|events| - 1]) + if IsCrypto(events[|events| - 1].syscallId) then 1 else 0
  }

  function MaxDepth(events: seq<Event>): U8 {
    if events == [] then 0 else
    var before := MaxDepth(events[..|events| - 1]);
    if events[|events| - 1].depth > before then events[|events| - 1].depth else before
  }

  // A u64 timestamp read as i64, and the i64 that a wrapping subtraction of two of them yields.
  function AsI64(t: U64): int {
    if t < TWO64 / 2 then t else t - TWO64
  }

  function WrapI64(difference: int): int {
    if difference >= TWO64 / 2 then difference - TWO64
    else if difference + TWO64 / 2 < 0 then difference + TWO64
    else difference
  }

  function Delay(earlier: U64, later: U64): nat {
    var d := WrapI64(AsI64(later) - AsI64(earlier));
    if d < 0 then -d else d
  }

  /** The sum of the delays between neighbouring events. */
  function TotalDelay(events: seq<Event>): nat {
    if |events| <= 1 then 0 else
    TotalDelay(events[..|events| - 1]) +
    Delay(events[|events| - 2].timestampNs, events[|events| - 1].timestampNs)
  }

  function Ratio(part: nat, whole: nat): real
    requires whole > 0
  {
    part as real / whole as real
  }

  function Share(events: seq<Event>, id: SyscallId): real
    requires events != []
  {
    Ratio(Count(events, id), |events|)
  }

  function CryptoShare(events: seq<Event>): real
    requires events != []
  {
    Ratio(CryptoCount(events), |events|)
  }

  function MeanDelay(events: seq<Event>): real
    requires |events| > 1
  {
    Ratio(TotalDelay(events), |events| - 1)
  }

  // ---- The update -------------------------------------------------------------------------------------

  /** One step of the moving average with learning rate 0.1. */
  function Blend(before: real, sample: real): real {
    0.9 * before + 0.1 * sample
  }

  function FrequencyOf(frequencies: map<SyscallId, real>, id: SyscallId): real {
    if id in frequencies then frequencies[id] else 0.0
  }

  function IdsOf(events: seq<Event>): set<SyscallId> {
    set e | e in events :: e.syscallId
  }

  /** The ids in `ids` are blended with their share of the window, the others keep their value. */
  function BlendIds(frequencies: map<SyscallId, real>, events: seq<Event>, ids: set<SyscallId>): map<SyscallId, real>
    requires events != []
  {
    map id | id in frequencies.Keys + ids ::
      if id in ids then Blend(FrequencyOf(frequencies, id), Share(events, id)) else frequencies[id]
  }

  const NEW: Stats := Stats(map[], 0.0, 0, 0.0, 0)

  function Updated(s: Stats, events: seq<Event>): Stats {
    if events == [] then s else
    var depth := MaxDepth(events);
    Stats(
      BlendIds(s.frequencies, events, IdsOf(events)),
      if |events| > 1 then Blend(s.meanDelay, MeanDelay(events)) else s.meanDelay,
      if depth > s.maxDepth then depth else s.maxDepth,
      Blend(s.cryptoRatio, CryptoShare(events)),
      Wrap(s.observations + |events|, TWO64))
  }

  class ProgramBaseline {
    const programId: Pubkey
    var syscallFrequencies: map<SyscallId, real>
    var meanInterCallDelayNs: real
    var maxCpiDepth: U8
    var cryptoRatio: real
    var totalObservations: U64

    ghost function View(): Stats
      reads this
    {
      Stats(syscallFrequencies, meanInterCallDelayNs, maxCpiDepth, cryptoRatio, totalObservations)
    }

    constructor (programId: Pubkey)
      ensures View() == NEW && this.programId == programId
    {
      this.programId := programId;
      syscallFrequencies, meanInterCallDelayNs, maxCpiDepth, cryptoRatio, totalObservations := map[], 0.0, 0, 0.0, 0;
    }

    method Update(events: seq<Event>)
      modifies this
      ensures View() == Updated(old(View()), events)
    {
      hide Wrap, BlendIds, Count, TotalDelay, CryptoCount, Ratio;
      if events == [] {
        return;
      }
      var counts, cryptoCount, maxDepth := Tally(events);
      var total := |events|;
      BlendCounts(events, counts);
      if |events| > 1 {
        var meanDelay := Mean(events);
        meanInterCallDelayNs := 0.9 * meanInterCallDelayNs + 0.1 * meanDelay;
      }
      var newCryptoRatio := Ratio(cryptoCount, total);
      cryptoRatio := 0.9 * cryptoRatio + 0.1 * newCryptoRatio;
      if maxDepth > maxCpiDepth {
        maxCpiDepth := maxDepth;
      }
      totalObservations := Wrap(totalObservations + total, TWO64);
    }

    // The mean of the delays between neighbours.
    static method Mean(events: seq<Event>) returns (mean: real)
      requires |events| > 1
      ensures mean == MeanDelay(events)
    {
      var sum := 0;
      for i := 1 to |events|
        invariant sum == TotalDelay(events[..i])
      {
        assert events[..i + 1][..i] == events[..i];
        sum := sum + Delay(events[i - 1].timestampNs, events[i].timestampNs);
      }
      assert events[..|events|] == events;
      mean := Ratio(sum, |events| - 1);
    }

    // The counting loop.
    static method Tally(events: seq<Event>)
      returns (counts: map<SyscallId, nat>, cryptoCount: nat, maxDepth: U8)
      ensures counts == Counts(events)
      ensures cryptoCount == CryptoCount(events) && maxDepth == MaxDepth(events)
    {
      counts, cryptoCount, maxDepth := map[], 0, 0;
      for i := 0 to |events|
        invariant counts == Counts(events[..i])
        invariant cryptoCount == CryptoCount(events[..i]) && maxDepth == MaxDepth(events[..i])
      {
        var e := events[i];
        assert events[..i + 1][..i] == events[..i];
        counts := counts[e.syscallId := (if e.syscallId in counts then counts[e.syscallId] else 0) + 1];
        if IsCrypto(e.syscallId) {
          cryptoCount := cryptoCount + 1;
        }
        if e.depth > maxDepth {
          maxDepth := e.depth;
        }
      }
      assert events[..|events|] == events;
    }

    // The blending loop visits the counted ids in no particular order.
    method BlendCounts(events: seq<Event>, counts: map<SyscallId, nat>)
      requires events != [] && counts == Counts(events)
      modifies this`syscallFrequencies
      ensures syscallFrequencies == BlendIds(old(syscallFrequencies), events, IdsOf(events))
    {
      CountsExact(events);
      hide *;
      BlendNone(syscallFrequencies, events);
      var todo := counts.Keys;
      assert counts.Keys - todo == {};
      while todo != {}
        invariant todo <= counts.Keys
        invariant syscallFrequencies == BlendIds(old(syscallFrequencies), events, counts.Keys - todo)
        decreases todo
      {
        var id :| id in todo;
        BlendOneMore(old(syscallFrequencies), events, counts.Keys - todo, id, counts[id]);
        var newFreq := Ratio(counts[id], |events|);
        var oldFreq := if id in syscallFrequencies then syscallFrequencies[id] else 0.0;
        syscallFrequencies := syscallFrequencies[id := Blend(oldFreq, newFreq)];
        assert counts.Keys - (todo - {id}) == (counts.Keys - todo) + {id};
        todo := todo - {id};
      }
      assert counts.Keys - {} == IdsOf(events);
    }
  }

  function Counts(events: seq<Event>): map<SyscallId, nat> {
    if events == [] then map[] else
    var before, id := Counts(events[..|events| - 1]), events[|events| - 1].syscallId;
    before[id := (if id in before then before[id] else 0) + 1]
  }

  lemma {:induction false} CountsExact(events: seq<Event>)
    ensures Counts(events).Keys == IdsOf(events)
    ensures forall id :: id in Counts(events) ==> Counts(events)[id] == Count(events, id)
    ensures forall id: SyscallId :: id !in Counts(events) ==> Count(events, id) == 0
  {
    if events != [] {
      var shorter, e := events[..|events| - 1], events[|events| - 1];
      CountsExact(shorter);
      assert events == shorter + [e];
      assert IdsOf(events) == IdsOf(shorter) + {e.syscallId};
    }
  }

  lemma BlendNone(frequencies: map<SyscallId, real>, events: seq<Event>)
    requires events != []
    ensures BlendIds(frequencies, events, {}) == frequencies
  {}

  lemma BlendOneMore(
    frequencies: map<SyscallId, real>, events: seq<Event>, ids: set<SyscallId>, id: SyscallId, count: nat)
    requires events != [] && id !in ids && count == Count(events, id)
    ensures var before := BlendIds(frequencies, events, ids);
            BlendIds(frequencies, events, ids + {id}) ==
            before[id := Blend(if id in before then before[id] else 0.0, Ratio(count, |events|))]
  {}

  class BaselineStore {
    var baselines: map<Pubkey, ProgramBaseline>

    /** No two programs share a baseline object. */
    ghost predicate Valid()
      reads this
    {
      forall p, q :: p in baselines && q in baselines && p != q ==> baselines[p] != baselines[q]
    }

    ghost function View(): map<Pubkey, Stats>
      reads this, baselines.Values
    {
      map p | p in baselines :: baselines[p].View()
    }

    constructor ()
      ensures Valid() && View() == map[]
    {
      baselines := map[];
    }

    method UpdateProgram(programId: Pubkey, events: seq<Event>)
      requires Valid()
      modifies this, baselines.Values
      ensures Valid()
      ensures View() == old(View())[
                programId := Updated(if programId in old(View()) then old(View())[programId] else NEW, events)]
    {
      hide Updated;
      if programId !in baselines {
        var baseline := new ProgramBaseline(programId);
        baselines := baselines[programId := baseline];
      }
      baselines[programId].Update(events);
    }
  }
}
