/** The loss estimator and the controller that adapts the number of parity shards (internal/fec/adaptive.go). */
module Adaptive {
  import opened Basics
  import opened ErasureCode
  import opened Fec

  // The loss estimator, over the reals

  const ALPHA := 0.125

  datatype Estimate = Estimate(lossRate: real, sent: nat, lost: nat)

  datatype Sample = Sent(count: nat) | Lost(count: nat) | ResetAll

  const FRESH := Estimate(0.0, 0, 0)

  function Ratio(lost: nat, sent: nat): real
    requires sent > 0
  {
    lost as real / sent as real
  }

  function Smooth(rate: real, current: real): real {
    if rate == 0.0 then current else rate * (1.0 - ALPHA) + current * ALPHA
  }

  function Observe(e: Estimate, s: Sample): Estimate {
    match s
    case Sent(count) => e.(sent := e.sent + count)
    case Lost(count) =>
      var lost := e.lost + count;
      if e.sent == 0 then e.(lost := lost) else Estimate(Smooth(e.lossRate, Ratio(lost, e.sent)), e.sent, lost)
    case ResetAll => FRESH
  }

  function ObserveAll(e: Estimate, samples: seq<Sample>): Estimate
    decreases samples
  {
    if samples == [] then e else ObserveAll(Observe(e, samples[0]), samples[1..])
  }

  /** Every cumulative loss ratio sampled along the way lies between lo and hi. */
  predicate RatiosWithin(e: Estimate, samples: seq<Sample>, lo: real, hi: real)
    decreases samples
  {
    samples != [] ==>
      && (samples[0].Lost? && e.sent > 0 ==> lo <= Ratio(e.lost + samples[0].count, e.sent) <= hi)
      && RatiosWithin(Observe(e, samples[0]), samples[1..], lo, hi)
  }

  /** The estimate never leaves the range of the ratios sampled since the last reset, the special
      treatment of an estimate of zero included. */
  lemma {:induction false} EstimateWithin(e: Estimate, samples: seq<Sample>, lo: real, hi: real)
    requires 0.0 <= lo <= hi && RatiosWithin(e, samples, lo, hi)
    requires e.lossRate == 0.0 || lo <= e.lossRate <= hi
    ensures var rate := ObserveAll(e, samples).lossRate; rate == 0.0 || lo <= rate <= hi
    decreases samples
  {
    if samples != [] {
      EstimateWithin(Observe(e, samples[0]), samples[1..], lo, hi);
    }
  }

  /** After at least one sample since the reset the estimate itself lies in the range, zero or not. */
  lemma {:induction false} SampledWithin(e: Estimate, samples: seq<Sample>, last: nat, lo: real, hi: real)
    requires 0.0 <= lo <= hi && RatiosWithin(e, samples + [Lost(last)], lo, hi)
    requires e.lossRate == 0.0 || lo <= e.lossRate <= hi
    requires ObserveAll(e, samples).sent > 0
    ensures lo <= ObserveAll(e, samples + [Lost(last)]).lossRate <= hi
    decreases samples
  {
    if samples == [] {
      assert samples + [Lost(last)] == [Lost(last)];
      assert ObserveAll(Observe(e, Lost(last)), []) == Observe(e, Lost(last));
      assert [Lost(last)][1..] == [];
    } else {
      assert (samples + [Lost(last)])[1..] == samples[1..] + [Lost(last)];
      SampledWithin(Observe(e, samples[0]), samples[1..], last, lo, hi);
    }
  }

  predicate NoReset(samples: seq<Sample>) {
    forall i :: 0 <= i < |samples| ==> !samples[i].ResetAll?
  }

  /** How often the estimate is updated: by every loss reported once something has been sent. */
  function Updates(e: Estimate, samples: seq<Sample>): nat
    decreases samples
  {
    if samples == [] then 0
    else (if samples[0].Lost? && e.sent > 0 then 1 else 0) + Updates(Observe(e, samples[0]), samples[1..])
  }

  /** The n-th power of seven eighths. */
  function Decay(n: nat): real {
    if n == 0 then 1.0 else Decay(n - 1) * 7.0 / 8.0
  }

  /** While all ratios sampled are the same, every update takes away an eighth of what separates the estimate from them. */
  lemma {:induction false} Converges(e: Estimate, samples: seq<Sample>, ratio: real)
    requires e.lossRate > 0.0 && ratio >= 0.0 && NoReset(samples) && RatiosWithin(e, samples, ratio, ratio)
    ensures ObserveAll(e, samples).lossRate - ratio == (e.lossRate - ratio) * Decay(Updates(e, samples))
    decreases samples
  {
    if samples != [] {
      var e1 := Observe(e, samples[0]);
      assert forall i :: 0 <= i < |samples| - 1 ==> samples[1..][i] == samples[i + 1];
      Converges(e1, samples[1..], ratio);
      if samples[0].Lost? && e.sent > 0 {
        var n := Updates(e1, samples[1..]);
        assert e1.lossRate - ratio == (e.lossRate - ratio) * 7.0 / 8.0;
        assert (e.lossRate - ratio) * 7.0 / 8.0 * Decay(n) == (e.lossRate - ratio) * Decay(n + 1);
      }
    }
  }

  lemma ShortStep(e: Estimate, sample: Sample, ratio: real, highest: real, gap: real)
    requires ratio >= 0.0 && gap >= 0.0 && !sample.ResetAll? && e.lossRate >= 0.0 && e.lossRate >= ratio - gap
    requires sample.Lost? && e.sent > 0 ==> ratio <= Ratio(e.lost + sample.count, e.sent) <= highest
    ensures var e1 := Observe(e, sample);
      e1.lossRate >= 0.0 && e1.lossRate >= if sample.Lost? && e.sent > 0 then ratio - gap * 7.0 / 8.0 else ratio - gap
  {
    hide Ratio;
  }

  lemma NextDecay(gap: real, n: nat)
    ensures gap * 7.0 / 8.0 * Decay(n) == gap * Decay(n + 1)
  {
  }

  /** While all ratios sampled are at least so much, the estimate falls short of it by an eighth less after every update. */
  lemma {:induction false} FallsShort(e: Estimate, samples: seq<Sample>, ratio: real, highest: real, gap: real)
    requires ratio >= 0.0 && gap >= 0.0 && NoReset(samples) && RatiosWithin(e, samples, ratio, highest)
    requires e.lossRate >= 0.0 && e.lossRate >= ratio - gap
    ensures ObserveAll(e, samples).lossRate >= ratio - gap * Decay(Updates(e, samples))
    decreases samples
  {
    if samples != [] {
      var e1 := Observe(e, samples[0]);
      assert forall i :: 0 <= i < |samples| - 1 ==> samples[1..][i] == samples[i + 1];
      ShortStep(e, samples[0], ratio, highest, gap);
      hide Observe, Decay, Ratio;
      if samples[0].Lost? && e.sent > 0 {
        FallsShort(e1, samples[1..], ratio, highest, gap * 7.0 / 8.0);
        NextDecay(gap, Updates(e1, samples[1..]));
      } else {
        FallsShort(e1, samples[1..], ratio, highest, gap);
      }
    }
  }

  lemma {:induction false} DecayBound(n: nat)
    ensures 0.0 < Decay(n) && Decay(n) * (7.0 + n as real) <= 7.0
  {
    if n > 0 {
      DecayBound(n - 1);
      var d, x := Decay(n - 1), n as real;
      assert d * 7.0 / 8.0 * (7.0 + x) == d * (6.0 + x) - d * (x - 1.0) / 8.0;
      assert d * (x - 1.0) >= 0.0;
    }
  }

  class LossEstimator {
    var lossRate: real
    var sentPackets: nat
    var lostPackets: nat

    function State(): Estimate
      reads this
    {
      Estimate(lossRate, sentPackets, lostPackets)
    }

    constructor ()
      ensures State() == FRESH
    {
      lossRate, sentPackets, lostPackets := 0.0, 0, 0;
    }

    method RecordSent(count: nat)
      modifies this
      ensures State() == Observe(old(State()), Sent(count))
      ensures sentPackets == old(sentPackets) + count && lostPackets == old(lostPackets) && lossRate == old(lossRate)
    {
      sentPackets := sentPackets + count;
    }

    method RecordLost(count: nat)
      modifies this
      ensures State() == Observe(old(State()), Lost(count))
      ensures sentPackets == old(sentPackets) && lostPackets == old(lostPackets) + count
      ensures sentPackets == 0 ==> lossRate == old(lossRate)
      ensures sentPackets > 0 ==>
        var ratio := lostPackets as real / sentPackets as real;
        lossRate == if old(lossRate) == 0.0 then ratio else old(lossRate) + (ratio - old(lossRate)) / 8.0
    {
      lostPackets := lostPackets + count;
      UpdateEstimate();
    }

    method UpdateEstimate()
      modifies this
      ensures State() == if sentPackets == 0 then old(State())
                         else old(State()).(lossRate := Smooth(old(lossRate), Ratio(lostPackets, sentPackets)))
    {
      if sentPackets == 0 {
        return;
      }
      var currentLoss := lostPackets as real / sentPackets as real;
      if lossRate == 0.0 {
        lossRate := currentLoss;
      } else {
        lossRate := lossRate * (1.0 - ALPHA) + currentLoss * ALPHA;
      }
    }

    method Reset()
      modifies this
      ensures State() == Observe(old(State()), ResetAll)
      ensures lossRate == 0.0 && sentPackets == 0 && lostPackets == 0
    {
      lossRate, sentPackets, lostPackets := 0.0, 0, 0;
    }
  }

  // The controller

  function Apart(a: int, b: int): nat { if a < b then b - a else a - b }

  datatype Config = Config(
    dataShards: int, minParity: int, maxParity: int, initialParity: int,
    increaseThreshold: real, decreaseThreshold: real, stepUp: int, stepDown: int)
  {
    /** The clamping NewAdaptiveFEC does before anything else. */
    function Normalize(): (c: Config)
      ensures 1 <= c.minParity <= c.initialParity <= c.maxParity
      ensures c == this.(minParity := c.minParity, maxParity := c.maxParity, initialParity := c.initialParity)
      ensures 1 <= minParity <= initialParity <= maxParity ==> c == this
      ensures c.minParity == Max(minParity, 1) && c.maxParity == Max(maxParity, c.minParity)
      ensures forall p :: c.minParity <= p <= c.maxParity ==> Apart(c.initialParity, initialParity) <= Apart(p, initialParity)
    {
      var c1 := if minParity < 1 then this.(minParity := 1) else this;
      var c2 := if c1.maxParity < c1.minParity then c1.(maxParity := c1.minParity) else c1;
      var c3 := if c2.initialParity < c2.minParity then c2.(initialParity := c2.minParity) else c2;
      if c3.initialParity > c3.maxParity then c3.(initialParity := c3.maxParity) else c3
    }
  }

  datatype ParityRecord = ParityRecord(oldParity: int, newParity: int, lossRate: real)

  const HISTORY := 100

  datatype Controller = Controller(parity: int, adjustCount: nat, history: seq<ParityRecord>)

  /** The parity that adjust aims for. */
  function Target(cfg: Config, parity: int, lossRate: real): int {
    if lossRate > cfg.increaseThreshold then Min(parity + cfg.stepUp, cfg.maxParity)
    else if lossRate < cfg.decreaseThreshold && parity > cfg.minParity then Max(parity - cfg.stepDown, cfg.minParity)
    else parity
  }

  function Remember(history: seq<ParityRecord>, r: ParityRecord): (h: seq<ParityRecord>)
    ensures |h| <= |history| + 1
  {
    var longer := history + [r];
    if |longer| > HISTORY then longer[1..] else longer
  }

  /** One call of adjust. A target for which no encoder is cached is ignored. */
  function Adjust(cfg: Config, c: Controller, lossRate: real): Controller {
    var target := Target(cfg, c.parity, lossRate);
    if target != c.parity && cfg.minParity <= target <= cfg.maxParity
    then Controller(target, c.adjustCount + 1, Remember(c.history, ParityRecord(c.parity, target, lossRate)))
    else c
  }

  function AdjustAll(cfg: Config, c: Controller, lossRates: seq<real>): Controller
    decreases lossRates
  {
    if lossRates == [] then c else AdjustAll(cfg, Adjust(cfg, c, lossRates[0]), lossRates[1..])
  }

  /** Each record starts where the one before it ended and moves, and the last one ends at the current parity. */
  ghost predicate Linked(c: Controller) {
    && (forall i :: 0 <= i < |c.history| ==> c.history[i].oldParity != c.history[i].newParity)
    && (forall i, j :: 0 <= i && j == i + 1 && j < |c.history| ==> c.history[i].newParity == c.history[j].oldParity)
    && (c.history != [] ==> c.history[|c.history| - 1].newParity == c.parity)
  }

  ghost predicate Sound(cfg: Config, c: Controller) {
    && cfg.minParity <= c.parity <= cfg.maxParity
    && |c.history| == Min(c.adjustCount, 100)
    && Linked(c)
  }

  /** For any thresholds, any steps (even negative ones) and any loss rates: the parity stays within its
      bounds, and the history is the linked chain of the last hundred changes. */
  lemma {:induction false} AdjustAllSound(cfg: Config, c: Controller, lossRates: seq<real>)
    requires Sound(cfg, c)
    ensures Sound(cfg, AdjustAll(cfg, c, lossRates))
    decreases lossRates
  {
    if lossRates != [] {
      AdjustAllSound(cfg, Adjust(cfg, c, lossRates[0]), lossRates[1..]);
    }
  }

  lemma AdjustSound(cfg: Config, c: Controller, lossRate: real)
    requires Sound(cfg, c)
    ensures Sound(cfg, Adjust(cfg, c, lossRate))
  {
  }

  /** adjust never looks up a missing encoder, whatever the loss, exactly when neither step that a loss rate
      can trigger leads out of the range: no loss rate is negative. */
  lemma LookupHits(cfg: Config, parity: int)
    requires cfg.minParity <= parity <= cfg.maxParity
    ensures (forall lossRate :: lossRate >= 0.0 ==> cfg.minParity <= Target(cfg, parity, lossRate) <= cfg.maxParity)
       <==> && parity + cfg.stepUp >= cfg.minParity
            && (parity > cfg.minParity && cfg.decreaseThreshold > 0.0 && cfg.increaseThreshold >= 0.0 ==>
                  parity - cfg.stepDown <= cfg.maxParity)
  {
    var much := if cfg.increaseThreshold >= 0.0 then cfg.increaseThreshold + 1.0 else 0.0;
    var high, low := Target(cfg, parity, much), Target(cfg, parity, 0.0);
  }

  /** All changes of the parity over some loss rates, each with the loss rate that brought it about. */
  function Log(cfg: Config, parity: int, lossRates: seq<real>): seq<ParityRecord>
    decreases lossRates
  {
    if lossRates == [] then []
    else
      var target := Target(cfg, parity, lossRates[0]);
      if target != parity && cfg.minParity <= target <= cfg.maxParity
      then [ParityRecord(parity, target, lossRates[0])] + Log(cfg, target, lossRates[1..])
      else Log(cfg, parity, lossRates[1..])
  }

  function Last<T>(s: seq<T>, n: nat): seq<T> {
    if |s| > n then s[|s| - n..] else s
  }

  lemma LastOf<T>(s: seq<T>, x: T, rest: seq<T>, n: nat)
    requires |s| <= n
    ensures Last(Last(s + [x], n) + rest, n) == Last(s + ([x] + rest), n)
  {
    assert s + [x] + rest == s + ([x] + rest);
    if |s| == n {
      assert Last(s + [x], n) + rest == (s + [x] + rest)[1..];
    }
  }

  /** The history holds the last hundred of all changes, and the counter counts all of them. */
  lemma {:induction false} HistoryIs(cfg: Config, c: Controller, lossRates: seq<real>)
    requires |c.history| <= 100
    ensures var log := Log(cfg, c.parity, lossRates);
      && AdjustAll(cfg, c, lossRates).history == Last(c.history + log, 100)
      && AdjustAll(cfg, c, lossRates).adjustCount == c.adjustCount + |log|
    decreases lossRates
  {
    if lossRates == [] {
      assert c.history + [] == c.history;
    } else {
      var c1 := Adjust(cfg, c, lossRates[0]);
      var log := Log(cfg, c1.parity, lossRates[1..]);
      if c1.parity != c.parity {
        LastOf(c.history, ParityRecord(c.parity, c1.parity, lossRates[0]), log, 100);
      }
      hide Target, Last;
      assert c1.history == Last(c.history + if c1.parity != c.parity then [ParityRecord(c.parity, c1.parity, lossRates[0])] else [], 100);
      HistoryIs(cfg, c1, lossRates[1..]);
    }
  }

  lemma OneStepMore(n: nat, step: nat)
    ensures (n + 1) * step == n * step + step && n * step >= 0
  {
  }

  /** n adjustments under high loss raise the parity n steps, up to the maximum. */
  lemma {:induction false} RisesTo(cfg: Config, c: Controller, lossRates: seq<real>)
    requires cfg.minParity <= c.parity <= cfg.maxParity && cfg.stepUp > 0
    requires forall i :: 0 <= i < |lossRates| ==> lossRates[i] > cfg.increaseThreshold
    ensures AdjustAll(cfg, c, lossRates).parity == Min(c.parity + |lossRates| * cfg.stepUp, cfg.maxParity)
    decreases lossRates
  {
    if lossRates != [] {
      RisesTo(cfg, Adjust(cfg, c, lossRates[0]), lossRates[1..]);
      OneStepMore(|lossRates| - 1, cfg.stepUp);
    }
  }

  // The estimator and the controller together

  datatype Happening = Sampled(sample: Sample) | Tick

  function Samples(hs: seq<Happening>): seq<Sample> {
    if hs == [] then [] else (if hs[0].Sampled? then [hs[0].sample] else []) + Samples(hs[1..])
  }

  function Ticks(hs: seq<Happening>): nat {
    if hs == [] then 0 else (if hs[0].Tick? then 1 else 0) + Ticks(hs[1..])
  }

  function Live(cfg: Config, c: Controller, e: Estimate, hs: seq<Happening>): (Controller, Estimate)
    decreases hs
  {
    if hs == [] then (c, e)
    else
      match hs[0]
      case Sampled(sample) => Live(cfg, c, Observe(e, sample), hs[1..])
      case Tick => Live(cfg, Adjust(cfg, c, e.lossRate), e, hs[1..])
  }

  lemma {:induction false} LiveInRange(cfg: Config, c: Controller, e: Estimate, hs: seq<Happening>)
    requires cfg.minParity <= c.parity <= cfg.maxParity
    ensures cfg.minParity <= Live(cfg, c, e, hs).0.parity <= cfg.maxParity
    ensures Live(cfg, c, e, hs).1 == ObserveAll(e, Samples(hs))
    decreases hs
  {
    if hs != [] {
      if hs[0].Sampled? {
        LiveInRange(cfg, c, Observe(e, hs[0].sample), hs[1..]);
        assert Samples(hs)[1..] == Samples(hs[1..]);
      } else {
        LiveInRange(cfg, Adjust(cfg, c, e.lossRate), e, hs[1..]);
        assert [] + Samples(hs[1..]) == Samples(hs[1..]);
      }
    }
  }

  /** With the estimate above the threshold, and no lower ratios sampled, every tick raises the parity. */
  lemma {:induction false} TicksRaise(cfg: Config, c: Controller, e: Estimate, hs: seq<Happening>, ratio: real, highest: real, gap: real)
    requires cfg.minParity <= c.parity <= cfg.maxParity && cfg.stepUp > 0
    requires ratio >= 0.0 && gap >= 0.0 && NoReset(Samples(hs)) && RatiosWithin(e, Samples(hs), ratio, highest)
    requires e.lossRate >= 0.0 && e.lossRate >= ratio - gap > cfg.increaseThreshold
    ensures Live(cfg, c, e, hs).0.parity == Min(c.parity + Ticks(hs) * cfg.stepUp, cfg.maxParity)
    decreases hs
  {
    if hs != [] {
      if hs[0].Sampled? {
        var e1 := Observe(e, hs[0].sample);
        assert Samples(hs)[0] == hs[0].sample && Samples(hs)[1..] == Samples(hs[1..]);
        assert forall i :: 0 <= i < |Samples(hs[1..])| ==> Samples(hs[1..])[i] == Samples(hs)[i + 1];
        ShortStep(e, hs[0].sample, ratio, highest, gap);
        TicksRaise(cfg, c, e1, hs[1..], ratio, highest, gap);
      } else {
        assert [] + Samples(hs[1..]) == Samples(hs[1..]);
        TicksRaise(cfg, Adjust(cfg, c, e.lossRate), e, hs[1..], ratio, highest, gap);
        OneStepMore(Ticks(hs[1..]), cfg.stepUp);
      }
    }
  }

  lemma EnoughUpdates(ratio: real, threshold: real, n: nat)
    requires ratio >= 0.0 && (7.0 + n as real) * (ratio - threshold) > 7.0 * ratio
    ensures ratio - ratio * Decay(n) > threshold
  {
    DecayBound(n);
    var d, x, excess := Decay(n), 7.0 + n as real, ratio - threshold;
    assert ratio * (d * x) <= ratio * 7.0 by { assert ratio * (7.0 - d * x) >= 0.0; }
    assert (excess - ratio * d) * x == excess * x - ratio * (d * x);
    Positive(excess - ratio * d, x);
  }

  lemma Positive(a: real, b: real)
    requires b > 0.0 && a * b > 0.0
    ensures a > 0.0
  {
  }

  /** Loss that stays above the threshold brings the parity to its maximum, from any estimate and any parity: once the
      estimate has been updated n times, with (7 + n) (ratio - threshold) > 7 ratio, as many ticks are enough as it takes
      steps from the minimum to the maximum. Losses may be reported between the ticks, and ticks come between the updates. */
  lemma LossRaisesParity(
    cfg: Config, c: Controller, e: Estimate, before: seq<Happening>, after: seq<Happening>, ratio: real, highest: real)
    requires cfg.minParity <= c.parity <= cfg.maxParity && cfg.stepUp > 0 && e.lossRate >= 0.0
    requires NoReset(Samples(before)) && NoReset(Samples(after)) && ratio >= 0.0
    requires RatiosWithin(e, Samples(before), ratio, highest)
    requires RatiosWithin(ObserveAll(e, Samples(before)), Samples(after), ratio, highest)
    requires (7.0 + Updates(e, Samples(before)) as real) * (ratio - cfg.increaseThreshold) > 7.0 * ratio
    requires Ticks(after) * cfg.stepUp >= cfg.maxParity - cfg.minParity
    ensures var (c1, e1) := Live(cfg, c, e, before); Live(cfg, c1, e1, after).0.parity == cfg.maxParity
  {
    hide *;
    var n := Updates(e, Samples(before));
    var (c1, e1) := Live(cfg, c, e, before);
    LiveInRange(cfg, c, e, before);
    FallsShort(e, Samples(before), ratio, highest, ratio);
    NotNegative(e, Samples(before), ratio, highest);
    EnoughUpdates(ratio, cfg.increaseThreshold, n);
    var gap := Gap(ratio, n);
    TicksRaise(cfg, c1, e1, after, ratio, highest, gap);
    AtMost(c1.parity, Ticks(after), cfg.stepUp, cfg.minParity, cfg.maxParity);
  }

  lemma Gap(ratio: real, n: nat) returns (gap: real)
    requires ratio >= 0.0
    ensures gap == ratio * Decay(n) >= 0.0
  {
    DecayBound(n);
    gap := ratio * Decay(n);
  }

  lemma AtMost(parity: int, ticks: nat, step: int, low: int, high: int)
    requires ticks * step >= high - low && low <= parity <= high
    ensures Min(parity + ticks * step, high) == high
  {
  }

  lemma {:induction false} NotNegative(e: Estimate, samples: seq<Sample>, lo: real, hi: real)
    requires 0.0 <= lo && e.lossRate >= 0.0 && RatiosWithin(e, samples, lo, hi)
    ensures ObserveAll(e, samples).lossRate >= 0.0
    decreases samples
  {
    if samples != [] {
      NotNegative(Observe(e, samples[0]), samples[1..], lo, hi);
    }
  }

  /** n adjustments under low loss lower the parity n steps, down to the minimum. */
  lemma {:induction false} FallsTo(cfg: Config, c: Controller, lossRates: seq<real>)
    requires cfg.minParity <= c.parity <= cfg.maxParity && cfg.stepDown > 0
    requires forall i :: 0 <= i < |lossRates| ==> lossRates[i] < cfg.decreaseThreshold && lossRates[i] <= cfg.increaseThreshold
    ensures AdjustAll(cfg, c, lossRates).parity == Max(c.parity - |lossRates| * cfg.stepDown, cfg.minParity)
    decreases lossRates
  {
    if lossRates != [] {
      FallsTo(cfg, Adjust(cfg, c, lossRates[0]), lossRates[1..]);
      OneStepMore(|lossRates| - 1, cfg.stepDown);
    }
  }

  /** Loss between the thresholds never moves the parity, and leaves no record. */
  lemma {:induction false} Holds(cfg: Config, c: Controller, lossRates: seq<real>)
    requires forall i :: 0 <= i < |lossRates| ==> cfg.decreaseThreshold <= lossRates[i] <= cfg.increaseThreshold
    ensures AdjustAll(cfg, c, lossRates) == c
    decreases lossRates
  {
    if lossRates != [] {
      Holds(cfg, c, lossRates[1..]);
    }
  }

  // The encoder

  /** A library encoder for a given number of data and parity shards. */
  datatype Encoder = Encoder(k: int, p: int)

  class AdaptiveFEC {
    const lib: Library
    const config: Config
    const estimator: LossEstimator
    var currentParity: int
    var encoder: Encoder
    var encoderCache: map<int, Encoder>
    var adjustCount: nat
    var parityHistory: seq<ParityRecord>

    /** The active encoder is the cached one for the current parity, and the cache has one for every parity in range. */
    ghost predicate Valid()
      reads this
    {
      && 1 <= config.minParity <= config.maxParity
      && Sound(config, State())
      && encoder == Encoder(config.dataShards, currentParity)
      && (forall p :: p in encoderCache <==> config.minParity <= p <= config.maxParity)
      && (forall p :: p in encoderCache ==> encoderCache[p] == Encoder(config.dataShards, p) && lib.accepts(config.dataShards, p))
    }

    ghost function State(): Controller
      reads this
    {
      Controller(currentParity, adjustCount, parityHistory)
    }

    constructor (lib: Library, config: Config, encoderCache: map<int, Encoder>)
      requires config == config.Normalize()
      requires forall p :: p in encoderCache <==> config.minParity <= p <= config.maxParity
      requires forall p :: p in encoderCache ==> encoderCache[p] == Encoder(config.dataShards, p) && lib.accepts(config.dataShards, p)
      ensures Valid() && fresh(estimator)
      ensures this.lib == lib && this.config == config && State() == Controller(config.initialParity, 0, [])
    {
      this.lib := lib;
      this.config := config;
      this.estimator := new LossEstimator();
      this.currentParity := config.initialParity;
      this.encoder := Encoder(config.dataShards, config.initialParity);
      this.encoderCache := encoderCache;
      this.adjustCount := 0;
      this.parityHistory := [];
    }

    /** One tick of the adjustment loop. */
    method AdjustParity()
      requires Valid()
      modifies this
      ensures Valid() && State() == Adjust(config, old(State()), estimator.lossRate)
    {
      var lossRate := estimator.lossRate;
      var oldParity := currentParity;
      var newParity := oldParity;
      if lossRate > config.increaseThreshold {
        newParity := Min(oldParity + config.stepUp, config.maxParity);
      } else if lossRate < config.decreaseThreshold && oldParity > config.minParity {
        newParity := Max(oldParity - config.stepDown, config.minParity);
      }
      assert config.minParity <= currentParity <= config.maxParity;
      AdjustSound(config, State(), lossRate);
      hide Sound;
      if newParity != oldParity {
        if newParity in encoderCache {
          encoder := encoderCache[newParity];
          currentParity := newParity;
          adjustCount := adjustCount + 1;
          parityHistory := parityHistory + [ParityRecord(oldParity, newParity, lossRate)];
          if |parityHistory| > HISTORY {
            parityHistory := parityHistory[1..];
          }
        }
      }
      assert State() == Adjust(config, old(State()), lossRate);
    }

    /** Encodes with whatever parity the controller has reached, and counts the shards as sent. The library may refuse
        only when there are more than 256 shards. */
    method Encode(data: Bytes) returns (r: Result<(array<Shard>, nat), FecError>)
      requires Valid() && Contract(lib)
      modifies estimator
      ensures config.dataShards >= 1 && currentParity >= 1
      ensures data == [] ==> r == Err(EmptyData) && estimator.State() == old(estimator.State())
      ensures data != [] && Legal(config.dataShards, currentParity) ==> r.Ok?
      ensures data != [] && !lib.encodes(config.dataShards, currentParity, ShardSize(|data|, config.dataShards)) ==>
                r == Err(EncodeFailed) && estimator.State() == old(estimator.State())
      ensures data != [] && lib.encodes(config.dataShards, currentParity, ShardSize(|data|, config.dataShards)) ==>
                && r.Ok? && r.value.1 == currentParity && fresh(r.value.0)
                && r.value.0.Length == config.dataShards + currentParity
                && r.value.0[..] == Word(lib, config.dataShards, currentParity, data)
                && estimator.State() == Observe(old(estimator.State()), Sent(config.dataShards + currentParity))
    {
      assert currentParity in encoderCache;
      if |data| == 0 {
        return Err(EmptyData);
      }
      var encoded := EncodeShards(lib, encoder.k, encoder.p, data);
      if encoded.Err? {
        return Err(encoded.error);
      }
      estimator.RecordSent(encoder.k + encoder.p);
      return Ok((encoded.value, currentParity));
    }

    /** Decodes with the parity the sender used, in range or not; missing shards are reported as lost. */
    method Decode(shards: array<Option<Shard>>, dataLen: nat, parityUsed: int) returns (r: Result<Bytes, FecError>)
      requires Valid() && Contract(lib)
      modifies shards, estimator
      ensures var count, accepted := config.dataShards + parityUsed, lib.accepts(config.dataShards, parityUsed);
        && (shards.Length != count ==> r == Err(WrongCount))
        && (shards.Length == count && !accepted ==> r == Err(LibraryRefused))
        && (shards.Length == count && accepted ==>
              config.dataShards >= 1 && parityUsed >= 0 &&
              Decoding(shards[..], r) == DecodeShards(lib, config.dataShards, parityUsed, old(shards[..]), dataLen))
        && (shards.Length != count || !accepted ==> shards[..] == old(shards[..]))
      ensures var lost := shards.Length - CountPresent(old(shards[..]));
        estimator.State() ==
          if shards.Length == config.dataShards + parityUsed && lib.accepts(config.dataShards, parityUsed) && lost > 0
          then Observe(old(estimator.State()), Lost(lost)) else old(estimator.State())
    {
      if shards.Length != config.dataShards + parityUsed {
        return Err(WrongCount);
      }
      if parityUsed !in encoderCache && !lib.accepts(config.dataShards, parityUsed) {
        return Err(LibraryRefused);
      }
      assert lib.accepts(config.dataShards, parityUsed);
      var received := Count(shards);
      if shards.Length - received > 0 {
        estimator.RecordLost(shards.Length - received);
      }
      var fec := FEC(config.dataShards, parityUsed, lib);
      r := fec.Decode(shards, dataLen);
    }
  }

  /** Clamps the configuration and builds one encoder for every parity in range. */
  method NewAdaptiveFEC(lib: Library, config: Config) returns (r: Result<AdaptiveFEC, FecError>)
    ensures r.Ok? <==> forall p :: config.Normalize().minParity <= p <= config.Normalize().maxParity ==> lib.accepts(config.dataShards, p)
    ensures r.Ok? ==> fresh(r.value) && fresh(r.value.estimator) && r.value.Valid() && r.value.lib == lib
                      && r.value.config == config.Normalize() && r.value.State() == Controller(config.Normalize().initialParity, 0, [])
  {
    var cfg := config.Normalize();
    if !lib.accepts(cfg.dataShards, cfg.initialParity) {
      return Err(LibraryRefused);
    }
    var cache: map<int, Encoder> := map[];
    var p := cfg.minParity;
    while p <= cfg.maxParity
      invariant cfg.minParity <= p <= cfg.maxParity + 1
      invariant forall q :: q in cache <==> cfg.minParity <= q < p
      invariant forall q :: q in cache ==> cache[q] == Encoder(cfg.dataShards, q)
      invariant forall q :: cfg.minParity <= q < p ==> lib.accepts(cfg.dataShards, q)
    {
      if !lib.accepts(cfg.dataShards, p) {
        return Err(LibraryRefused);
      }
      cache := cache[p := Encoder(cfg.dataShards, p)];
      p := p + 1;
    }
    var af := new AdaptiveFEC(lib, cfg, cache);
    return Ok(af);
  }
}
