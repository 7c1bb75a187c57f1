/** Closed forms of the baseline after any sequence of windows. */
module BaselineRuns {
  import opened Common
  import opened Modular
  import opened Baseline
  import opened BaselineMeaning

  type Window = seq<Event>

  function AfterWindows(windows: seq<Window>): Stats {
    if windows == [] then NEW else
    Updated(AfterWindows(windows[..|windows| - 1]), windows[|windows| - 1])
  }

  // ---- The moving average as a weighted sum -----------------------------------------------------------

  function Pow09(n: nat): real {
    if n == 0 then 1.0 else 0.9 * Pow09(n - 1)
  }

  function Times(weight: real, sample: real): real {
    weight * sample
  }

  /** The sum over k of 0.1 * 0.9^(n - 1 - k) * samples[k]: the oldest sample weighs least. */
  function Weighted(samples: seq<real>): real {
    if samples == [] then 0.0 else
    0.1 * Times(Pow09(|samples| - 1), samples[0]) + Weighted(samples[1..])
  }

  lemma TimesDecay(weight: real, sample: real)
    ensures Times(0.9 * weight, sample) == 0.9 * Times(weight, sample)
    ensures Times(1.0, sample) == sample && Times(weight, 1.0) == weight
  {}

  lemma TimesBounds(weight: real, sample: real)
    requires weight > 0.0 && 0.0 <= sample <= 1.0
    ensures 0.0 <= Times(weight, sample) <= weight
  {
    assert weight * (1.0 - sample) >= 0.0;
  }

  lemma {:induction false} BlendWeighted(samples: seq<real>, x: real)
    ensures Weighted(samples + [x]) == Blend(Weighted(samples), x)
  {
    hide Times;
    if samples == [] {
      assert ([] + [x])[1..] == [];
      TimesDecay(0.0, x);
    } else {
      assert (samples + [x])[1..] == samples[1..] + [x];
      BlendWeighted(samples[1..], x);
      TimesDecay(Pow09(|samples| - 1), samples[0]);
    }
  }

  lemma {:induction false} PowPositive(n: nat)
    ensures 0.0 < Pow09(n) <= 1.0
  {
    if n > 0 {
      PowPositive(n - 1);
    }
  }

  ghost predicate InUnit(samples: seq<real>) {
    forall i :: 0 <= i < |samples| ==> 0.0 <= samples[i] <= 1.0
  }

  /** The average of n samples in [0, 1] lies in [0, 1 - 0.9^n]. */
  lemma {:induction false} WeightedBounds(samples: seq<real>)
    requires InUnit(samples)
    ensures 0.0 <= Weighted(samples) <= 1.0 - Pow09(|samples|)
  {
    hide Times;
    if samples != [] {
      WeightedBounds(samples[1..]);
      PowPositive(|samples| - 1);
      TimesBounds(Pow09(|samples| - 1), samples[0]);
    }
  }

  ghost predicate AllOnes(samples: seq<real>) {
    forall i :: 0 <= i < |samples| ==> samples[i] == 1.0
  }

  /** The upper bound is reached exactly by samples that are all 1. */
  lemma {:induction false} WeightedReached(samples: seq<real>)
    requires InUnit(samples)
    ensures Weighted(samples) == 1.0 - Pow09(|samples|) <==> AllOnes(samples)
  {
    hide Times;
    if samples != [] {
      var weight, x, rest := Pow09(|samples| - 1), samples[0], samples[1..];
      WeightedReached(rest);
      WeightedBounds(rest);
      PowPositive(|samples| - 1);
      TimesBounds(weight, x);
      TimesFull(weight, x);
      assert samples == [x] + rest;
      assert Pow09(|samples|) == 0.9 * weight && Weighted(samples) == 0.1 * Times(weight, x) + Weighted(rest);
      assert Weighted(samples) == 1.0 - Pow09(|samples|) <==> x == 1.0 && Weighted(rest) == 1.0 - weight;
    }
  }

  lemma TimesFull(weight: real, sample: real)
    requires weight > 0.0
    ensures Times(weight, sample) == weight <==> sample == 1.0
  {
    if Times(weight, sample) == weight {
      assert weight * (sample - 1.0) == 0.0;
    }
  }

  // ---- What the windows contribute ----------------------------------------------------------------------

  function CryptoShares(windows: seq<Window>): seq<real> {
    if windows == [] then [] else
    var rest, w := CryptoShares(windows[..|windows| - 1]), windows[|windows| - 1];
    if w == [] then rest else rest + [CryptoShare(w)]
  }

  function Shares(windows: seq<Window>, id: SyscallId): seq<real> {
    if windows == [] then [] else
    var rest, w := Shares(windows[..|windows| - 1], id), windows[|windows| - 1];
    if id in IdsOf(w) then rest + [Share(w, id)] else rest
  }

  function MeanDelays(windows: seq<Window>): seq<real> {
    if windows == [] then [] else
    var rest, w := MeanDelays(windows[..|windows| - 1]), windows[|windows| - 1];
    if |w| > 1 then rest + [MeanDelay(w)] else rest
  }

  function AllEvents(windows: seq<Window>): seq<Event> {
    if windows == [] then [] else AllEvents(windows[..|windows| - 1]) + windows[|windows| - 1]
  }

  /**
   The ratio of crypto calls is the weighted sum of the shares of all non-empty windows; the mean delay
   that of the windows with at least two events.
   */
  lemma {:induction false} AveragesClosedForm(windows: seq<Window>)
    ensures AfterWindows(windows).cryptoRatio == Weighted(CryptoShares(windows))
    ensures AfterWindows(windows).meanDelay == Weighted(MeanDelays(windows))
  {
    hide Wrap;
    if windows != [] {
      var before, w := windows[..|windows| - 1], windows[|windows| - 1];
      AveragesClosedForm(before);
      if w != [] {
        BlendWeighted(CryptoShares(before), CryptoShare(w));
      }
      if |w| > 1 {
        BlendWeighted(MeanDelays(before), MeanDelay(w));
      }
    }
  }

  /**
   An id has a frequency once it has occurred, and its frequency is the weighted sum of its shares in
   the windows where it occurs: windows without it do not decay it.
   */
  lemma {:induction false} FrequencyClosedForm(windows: seq<Window>, id: SyscallId)
    ensures id in AfterWindows(windows).frequencies <==> exists w :: w in windows && id in IdsOf(w)
    ensures FrequencyOf(AfterWindows(windows).frequencies, id) == Weighted(Shares(windows, id))
  {
    hide Wrap;
    if windows != [] {
      var before, w := windows[..|windows| - 1], windows[|windows| - 1];
      FrequencyClosedForm(before, id);
      assert windows == before + [w];
      if id in IdsOf(w) {
        BlendWeighted(Shares(before, id), Share(w, id));
      }
    }
  }

  lemma {:induction false} CryptoSharesBounded(windows: seq<Window>)
    ensures forall i :: 0 <= i < |CryptoShares(windows)| ==> 0.0 <= CryptoShares(windows)[i] <= 1.0
  {
    if windows != [] {
      var w := windows[|windows| - 1];
      CryptoSharesBounded(windows[..|windows| - 1]);
      CryptoCountBounded(w);
      if w != [] {
        RatioBounded(CryptoCount(w), |w|);
      }
    }
  }

  lemma RatioBounded(part: nat, whole: nat)
    requires part <= whole && whole > 0
    ensures 0.0 <= Ratio(part, whole) <= 1.0
  {}

  lemma {:induction false} CryptoCountBounded(events: seq<Event>)
    ensures CryptoCount(events) <= |events|
  {
    if events != [] {
      CryptoCountBounded(events[..|events| - 1]);
    }
  }

  /** After n non-empty windows the crypto ratio lies in [0, 1 - 0.9^n]. */
  lemma CryptoRatioBounds(windows: seq<Window>)
    ensures 0.0 <= AfterWindows(windows).cryptoRatio <= 1.0 - Pow09(|CryptoShares(windows)|)
  {
    AveragesClosedForm(windows);
    CryptoSharesBounded(windows);
    WeightedBounds(CryptoShares(windows));
  }

  lemma {:induction false} CryptoCountFull(events: seq<Event>)
    ensures CryptoCount(events) == |events| <==> AllCrypto(events)
  {
    if events != [] {
      CryptoCountFull(events[..|events| - 1]);
      CryptoCountBounded(events[..|events| - 1]);
      AllCryptoConcat(events[..|events| - 1], [events[|events| - 1]]);
      assert events == events[..|events| - 1] + [events[|events| - 1]];
    }
  }

  lemma RatioFull(part: nat, whole: nat)
    requires whole > 0
    ensures Ratio(part, whole) == 1.0 <==> part == whole
  {}

  ghost predicate AllCrypto(events: seq<Event>) {
    forall i :: 0 <= i < |events| ==> SOL_SHA256 <= events[i].syscallId <= SOL_ED25519_VERIFY
  }

  lemma AllCryptoConcat(a: seq<Event>, b: seq<Event>)
    ensures AllCrypto(a + b) <==> AllCrypto(a) && AllCrypto(b)
  {
    if AllCrypto(a + b) {
      assert forall i :: 0 <= i < |a| ==> a[i] == (a + b)[i];
      assert forall i :: 0 <= i < |b| ==> b[i] == (a + b)[|a| + i];
    }
  }

  lemma AllOnesSnoc(samples: seq<real>, x: real)
    ensures AllOnes(samples + [x]) <==> AllOnes(samples) && x == 1.0
  {
    if AllOnes(samples + [x]) {
      assert forall i :: 0 <= i < |samples| ==> samples[i] == (samples + [x])[i];
      assert (samples + [x])[|samples|] == x;
    }
  }

  lemma {:induction false} CryptoSharesFull(windows: seq<Window>)
    ensures AllOnes(CryptoShares(windows)) <==> AllCrypto(AllEvents(windows))
  {
    if windows != [] {
      var before, w := windows[..|windows| - 1], windows[|windows| - 1];
      CryptoSharesFull(before);
      CryptoCountFull(w);
      AllCryptoConcat(AllEvents(before), w);
      if w != [] {
        RatioFull(CryptoCount(w), |w|);
        AllOnesSnoc(CryptoShares(before), CryptoShare(w));
      }
    }
  }

  lemma {:induction false} AllCryptoWindows(windows: seq<Window>)
    requires forall i :: 0 <= i < |windows| ==> windows[i] != [] && AllCrypto(windows[i])
    ensures |CryptoShares(windows)| == |windows| && AllCrypto(AllEvents(windows))
  {
    if windows != [] {
      AllCryptoWindows(windows[..|windows| - 1]);
      AllCryptoConcat(AllEvents(windows[..|windows| - 1]), windows[|windows| - 1]);
    }
  }

  /** The bound of `CryptoRatioBounds` is reached exactly when every event seen is crypto. */
  lemma CryptoBoundReached(windows: seq<Window>)
    ensures AfterWindows(windows).cryptoRatio == 1.0 - Pow09(|CryptoShares(windows)|) <==>
            AllCrypto(AllEvents(windows))
  {
    AveragesClosedForm(windows);
    CryptoSharesBounded(windows);
    WeightedReached(CryptoShares(windows));
    CryptoSharesFull(windows);
  }

  /** So n non-empty windows that are all crypto give 1 - 0.9^n. */
  lemma CryptoWindowsRatio(windows: seq<Window>)
    requires forall i :: 0 <= i < |windows| ==> windows[i] != [] && AllCrypto(windows[i])
    ensures AfterWindows(windows).cryptoRatio == 1.0 - Pow09(|windows|)
  {
    AllCryptoWindows(windows);
    CryptoBoundReached(windows);
  }

  // ---- Frequencies ------------------------------------------------------------------------------------------

  lemma {:induction false} CountBounded(events: seq<Event>, id: SyscallId)
    ensures Count(events, id) <= |events|
  {
    if events != [] {
      CountBounded(events[..|events| - 1], id);
    }
  }

  lemma {:induction false} SharesBounded(windows: seq<Window>, id: SyscallId)
    ensures InUnit(Shares(windows, id))
  {
    if windows != [] {
      var w := windows[|windows| - 1];
      SharesBounded(windows[..|windows| - 1], id);
      if id in IdsOf(w) {
        CountBounded(w, id);
        RatioBounded(Count(w, id), |w|);
      }
    }
  }

  /** After k windows with the id, its frequency lies in [0, 1 - 0.9^k]. */
  lemma FrequencyBounds(windows: seq<Window>, id: SyscallId)
    ensures 0.0 <= FrequencyOf(AfterWindows(windows).frequencies, id) <= 1.0 - Pow09(|Shares(windows, id)|)
  {
    FrequencyClosedForm(windows, id);
    SharesBounded(windows, id);
    WeightedBounds(Shares(windows, id));
  }

  /** n windows of nothing but e, followed by n windows of nothing but f. */
  function TwoPhases(e: Event, f: Event, n: nat): seq<Window> {
    seq(n, _ => [e]) + seq(n, _ => [f])
  }

  lemma {:induction false} SharesConcat(a: seq<Window>, b: seq<Window>, id: SyscallId)
    ensures Shares(a + b, id) == Shares(a, id) + Shares(b, id)
  {
    if b == [] {
      assert a + b == a;
    } else {
      assert (a + b)[..|a + b| - 1] == a + b[..|b| - 1];
      SharesConcat(a, b[..|b| - 1], id);
    }
  }

  lemma {:induction false} SharesOfSingles(e: Event, n: nat, id: SyscallId)
    ensures Shares(seq(n, _ => [e]), id) == seq(if e.syscallId == id then n else 0, _ => 1.0)
  {
    if n > 0 {
      var windows := seq(n, _ => [e]);
      assert windows[..n - 1] == seq(n - 1, _ => [e]) && windows[n - 1] == [e];
      SharesOfSingles(e, n - 1, id);
      if e.syscallId == id {
        assert [e][..0] == [] && [e][0] == e;
        assert Count([e], id) == 1;
      }
    }
  }

  lemma TwoPhasesFrequency(e: Event, f: Event, n: nat, id: SyscallId)
    requires e.syscallId != f.syscallId && id in {e.syscallId, f.syscallId}
    ensures FrequencyOf(AfterWindows(TwoPhases(e, f, n)).frequencies, id) == 1.0 - Pow09(n)
  {
    hide Pow09, Weighted, AfterWindows, FrequencyOf;
    var windows := TwoPhases(e, f, n);
    SharesConcat(seq(n, _ => [e]), seq(n, _ => [f]), id);
    SharesOfSingles(e, n, id);
    SharesOfSingles(f, n, id);
    FrequencyClosedForm(windows, id);
    assert Shares(windows, id) == seq(n, _ => 1.0);
    WeightedReached(Shares(windows, id));
  }

  /**
   Frequencies are no distribution: an id keeps its frequency through windows without it, so two ids in
   turn reach 1 - 0.9^n each, which is more than 1 together exactly from n = 7 on.
   */
  lemma FrequenciesExceedOne(e: Event, f: Event, n: nat)
    requires e.syscallId != f.syscallId
    ensures var frequencies := AfterWindows(TwoPhases(e, f, n)).frequencies;
            var first, second := FrequencyOf(frequencies, e.syscallId), FrequencyOf(frequencies, f.syscallId);
            && first == second == 1.0 - Pow09(n)
            && (first + second > 1.0 <==> n >= 7)
  {
    TwoPhasesFrequency(e, f, n, e.syscallId);
    TwoPhasesFrequency(e, f, n, f.syscallId);
    HalfLife(n);
  }

  /** 0.9^n falls below one half at n = 7. */
  lemma HalfLife(n: nat)
    ensures Pow09(n) < 0.5 <==> n >= 7
  {
    assert Pow09(1) == 0.9 && Pow09(2) == 0.81 && Pow09(3) == 0.729 && Pow09(4) == 0.6561;
    assert Pow09(5) == 0.59049 && Pow09(6) == 0.531441 && Pow09(7) == 0.4782969;
    if n >= 7 {
      PowFalls(7, n);
    }
  }

  lemma {:induction false} PowFalls(k: nat, n: nat)
    requires k <= n
    ensures Pow09(n) <= Pow09(k)
  {
    if k < n {
      PowFalls(k, n - 1);
      PowPositive(n - 1);
    }
  }

  /** The depth is the greatest depth of any event seen: none is deeper, and one is as deep. */
  lemma DepthIsMaximal(windows: seq<Window>)
    ensures var depth, all := AfterWindows(windows).maxDepth, AllEvents(windows);
            && (forall e :: e in all ==> e.depth <= depth)
            && (if all == [] then depth == 0 else exists e :: e in all && e.depth == depth)
  {
    DepthOfAll(windows);
    MaxDepthExact(AllEvents(windows));
  }

  lemma {:induction false} DepthOfAll(windows: seq<Window>)
    ensures AfterWindows(windows).maxDepth == MaxDepth(AllEvents(windows))
  {
    hide Wrap, BlendIds;
    if windows != [] {
      var before, w := windows[..|windows| - 1], windows[|windows| - 1];
      DepthOfAll(before);
      MaxDepthConcat(AllEvents(before), w);
    }
  }

  /** Every event is counted, modulo 2^64. */
  lemma {:induction false} ObservationsCountEvents(windows: seq<Window>)
    ensures AfterWindows(windows).observations == Wrap(|AllEvents(windows)|, TWO64)
  {
    hide Wrap, BlendIds, MaxDepth;
    if windows == [] {
      WrapSmall(0, TWO64);
    } else {
      var before, w := windows[..|windows| - 1], windows[|windows| - 1];
      ObservationsCountEvents(before);
      WrapAccumulate(|AllEvents(before)|, |w|, TWO64);
    }
  }

  lemma {:induction false} MaxDepthConcat(a: seq<Event>, b: seq<Event>)
    ensures MaxDepth(a + b) == if MaxDepth(b) > MaxDepth(a) then MaxDepth(b) else MaxDepth(a)
  {
    if b == [] {
      assert a + b == a;
    } else {
      assert (a + b)[..|a + b| - 1] == a + b[..|b| - 1];
      MaxDepthConcat(a, b[..|b| - 1]);
    }
  }

  // ---- Delays between 64-bit timestamps -------------------------------------------------------------------

  /**
   The signed subtraction makes the delay the shorter way around the 64-bit clock; it is the plain
   distance exactly when that is at most 2^63, in either direction.
   */
  lemma DelayIsCircular(a: U64, b: U64)
    ensures var distance := if a < b then b - a else a - b;
            && Delay(a, b) == (if distance <= TWO64 / 2 then distance else TWO64 - distance)
            && (Delay(a, b) == distance <==> distance <= TWO64 / 2)
            && Delay(a, b) == Delay(b, a)
  {}
}
