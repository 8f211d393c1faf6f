/** Exactly how accurate percentile estimates are. */
module Accuracy {
  import opened Arith
  import opened Histogram

  /** `e` is within `percent` per cent of `v`. */
  predicate Close(e: nat, v: nat, percent: nat) {
    100 * e <= (100 + percent) * v && (100 - percent) * v <= 100 * e
  }

  /** Whatever the history, a percentile whose true value is `v` is estimated within `percent` per cent. */
  ghost predicate Accurate(v: nat, percent: nat) {
    forall samples, p: nat ::
      p <= 100 && IsRank(samples, |samples| * p / 100, v) ==> Close(Estimate(samples, p), v, percent)
  }

  function LowerEdge(v: nat): nat {
    BinToLatency(LatencyToBin(v))
  }

  function UpperEdge(v: nat): nat {
    BinToLatency(LatencyToBin(v) + 1)
  }

  lemma EstimateBetweenEdges(samples: seq<nat>, p: nat, v: nat)
    requires p <= 100 && IsRank(samples, |samples| * p / 100, v)
    ensures LowerEdge(v) <= Estimate(samples, p) <= UpperEdge(v)
  {
    hide Estimate, LatencyToBin, BinToLatency;
    FoundBinHoldsRank(samples, Target(samples, p), v);
    ScanFindsBin(samples, p);
    EstimateInFoundBin(samples, p);
  }

  // ---------- histories that reach the edges ----------

  function Copies(v: nat, k: nat): (s: seq<nat>)
    ensures |s| == k
  {
    if k == 0 then [] else Copies(v, k - 1) + [v]
  }

  /** `m` samples of zero, and `k` of `v`. */
  function Mixed(v: nat, m: nat, k: nat): (s: seq<nat>)
    ensures |s| == m + k
  {
    if k == 0 then Copies(0, m) else Mixed(v, m, k - 1) + [v]
  }

  lemma CountsStep(s: seq<nat>, v: nat, bin: nat, x: nat)
    ensures CountBelow(s + [v], bin) == CountBelow(s, bin) + (if LatencyToBin(v) < bin then 1 else 0)
    ensures CountLess(s + [v], x) == CountLess(s, x) + (if v < x then 1 else 0)
  {
    hide LatencyToBin;
    assert (s + [v])[..|s|] == s;
  }

  lemma {:induction false} CopiesCounts(v: nat, k: nat, bin: nat, x: nat)
    ensures CountBelow(Copies(v, k), bin) == if LatencyToBin(v) < bin then k else 0
    ensures CountLess(Copies(v, k), x) == if v < x then k else 0
  {
    hide LatencyToBin;
    if k > 0 {
      hide CountBelow, CountLess;
      CopiesCounts(v, k - 1, bin, x);
      CountsStep(Copies(v, k - 1), v, bin, x);
    }
  }

  lemma {:induction false} MixedCounts(v: nat, m: nat, k: nat, bin: nat, x: nat)
    ensures CountBelow(Mixed(v, m, k), bin) == (if 0 < bin then m else 0) + (if LatencyToBin(v) < bin then k else 0)
    ensures CountLess(Mixed(v, m, k), x) == (if 0 < x then m else 0) + (if v < x then k else 0)
  {
    hide LatencyToBin, CountBelow, CountLess, Copies;
    if k == 0 {
      CopiesCounts(0, m, bin, x);
      ZeroBin();
    } else {
      MixedCounts(v, m, k - 1, bin, x);
      CountsStep(Mixed(v, m, k - 1), v, bin, x);
    }
  }

  lemma ZeroBin()
    ensures LatencyToBin(0) == 0
  {
  }

  lemma PositiveBin(v: nat)
    requires v > 0
    ensures 0 < LatencyToBin(v) < BINS
  {
    hide LatencyToBin;
    BinOf(v);
    LatencyToBinMono(v, v);
  }

  lemma EstimateIs(samples: seq<nat>, p: nat, bin: nat)
    requires samples != [] && bin < BINS && FindBin(samples, Target(samples, p), 0) == bin
    ensures CountBelow(samples, bin) <= Target(samples, p)
    ensures Estimate(samples, p) == Interpolate(samples, bin, Target(samples, p))
  {
    hide Interpolate, FindBin, Target, CountBelow;
    FoundBinStartsBelow(samples, Target(samples, p));
  }

  lemma InterpolateIs(samples: seq<nat>, bin: nat, target: nat, n: nat)
    requires CountBelow(samples, bin) <= target && n > 0
    requires CountBelow(samples, bin + 1) == CountBelow(samples, bin) + n
    ensures BinToLatency(bin) <= BinToLatency(bin + 1)
    ensures Interpolate(samples, bin, target) ==
            BinToLatency(bin) + Share(target - CountBelow(samples, bin), BinToLatency(bin + 1) - BinToLatency(bin), n)
  {
    hide BinToLatency, Share, CountBelow;
    BinToLatencyStep(bin);
  }

  lemma MixedRank(v: nat, m: nat, k: nat)
    requires v > 0 && k > 0
    ensures IsRank(Mixed(v, m, k), m + 1, v)
    ensures CountBelow(Mixed(v, m, k), LatencyToBin(v)) == m
    ensures CountBelow(Mixed(v, m, k), LatencyToBin(v) + 1) == m + k
  {
    hide LatencyToBin, Mixed;
    PositiveBin(v);
    MixedCounts(v, m, k, LatencyToBin(v), v);
    MixedCounts(v, m, k, LatencyToBin(v) + 1, v + 1);
  }

  /** In a history of zeros and `v`s the rank just past the zeros is `v`, and its estimate its bin's edge plus a
      share. */
  lemma MixedEstimate(v: nat, m: nat, k: nat, p: nat)
    requires v > 0 && k > 0 && p <= 100 && Target(Mixed(v, m, k), p) == m + 1
    ensures IsRank(Mixed(v, m, k), m + 1, v)
    ensures LowerEdge(v) <= UpperEdge(v)
    ensures Estimate(Mixed(v, m, k), p) == LowerEdge(v) + Share(1, UpperEdge(v) - LowerEdge(v), k)
  {
    hide LatencyToBin, BinToLatency, Mixed, Share, Target, Estimate, Interpolate, IsRank, CountBelow, FindBin;
    var s := Mixed(v, m, k);
    PositiveBin(v);
    MixedRank(v, m, k);
    FoundBinHoldsRank(s, m + 1, v);
    EstimateIs(s, p, LatencyToBin(v));
    InterpolateIs(s, LatencyToBin(v), m + 1, k);
  }

  lemma UpperEdgeReached(v: nat)
    requires v > 0
    ensures IsRank(Mixed(v, 0, 1), |Mixed(v, 0, 1)| * 100 / 100, v) && Estimate(Mixed(v, 0, 1), 100) == UpperEdge(v)
  {
    hide Estimate, IsRank, LowerEdge, UpperEdge;
    assert Target(Mixed(v, 0, 1), 100) == 1;
    MixedEstimate(v, 0, 1, 100);
    assert Share(1, UpperEdge(v) - LowerEdge(v), 1) == UpperEdge(v) - LowerEdge(v);
  }

  lemma LowerEdgeReached(v: nat)
    requires v > 0
    ensures var s := Mixed(v, UpperEdge(v), UpperEdge(v) + 2);
            IsRank(s, |s| * 50 / 100, v) && Estimate(s, 50) == LowerEdge(v)
  {
    hide Estimate, IsRank, LowerEdge, UpperEdge;
    var m := UpperEdge(v);
    assert Target(Mixed(v, m, m + 2), 50) == m + 1;
    MixedEstimate(v, m, m + 2, 50);
    SmallShare(UpperEdge(v) - LowerEdge(v), m + 2);
  }

  lemma SmallShare(width: nat, n: nat)
    requires width < n
    ensures Share(1, width, n) == 0
  {
  }

  // ---------- the exact condition ----------

  lemma CloseBetween(low: nat, e: nat, high: nat, v: nat, percent: nat)
    requires low <= e <= high && Close(low, v, percent) && Close(high, v, percent)
    ensures Close(e, v, percent)
  {
  }

  /** A value is estimated within a given percentage on every history iff both edges of its bin are that close to it:
      every estimate lies between the edges, and some history reaches each. */
  lemma AccurateIff(v: nat, percent: nat)
    requires v > 0
    ensures Accurate(v, percent) <==> Close(LowerEdge(v), v, percent) && Close(UpperEdge(v), v, percent)
  {
    hide Estimate, IsRank, LowerEdge, UpperEdge, Target, Close, Mixed;
    if Accurate(v, percent) {
      UpperEdgeReached(v);
      LowerEdgeReached(v);
    } else {
      var samples, p: nat :|
        p <= 100 && IsRank(samples, |samples| * p / 100, v) && !Close(Estimate(samples, p), v, percent);
      EstimateBetweenEdges(samples, p, v);
      if Close(LowerEdge(v), v, percent) && Close(UpperEdge(v), v, percent) {
        CloseBetween(LowerEdge(v), Estimate(samples, p), UpperEdge(v), v, percent);
      }
    }
  }

  /** Below one second the documented ten per cent hold iff the value is at least ten elevenths of its bin's upper edge
      and at most ten ninths of the lower. So they never hold below 10 us, nor for a leading digit under five. */
  lemma TenPercentIff(v: nat)
    requires 0 < v < 1000000
    ensures Accurate(v, 10) <==> 10 * (UpperEdge(v) - v) <= v && 10 * (v - LowerEdge(v)) <= v
    ensures v < 10 || v / Pow(10, Log10(v)) < 5 ==> !Accurate(v, 10)
  {
    hide LatencyToBin, BinToLatency, Accurate, Log10;
    AccurateIff(v, 10);
    BinHoldsLatency(v);
    BinEdges(v);
    var unit := Pow(10, Log10(v));
    var digit := v / unit;
    if v < 10 {
      SmallUnit(v);
    } else if digit < 5 {
      NotWithinTenth(v, unit, digit);
    }
  }

  lemma SmallUnit(v: nat)
    requires v < 10
    ensures Pow(10, Log10(v)) == 1
  {
  }

  /** With a leading digit under five the edges are more than a tenth apart on one side or the other. */
  lemma NotWithinTenth(v: nat, unit: nat, digit: nat)
    requires 0 < digit < 5 && unit * digit <= v && unit > 0
    ensures 10 * (unit * (digit + 1) - v) > v || 10 * (v - unit * digit) > v
  {
    if digit == 1 {
    } else if digit == 2 {
    } else if digit == 3 {
    } else {
      assert digit == 4;
    }
  }

  /** The factors of two and ten are reached: one sample of 10 us is estimated at 20 us, one of a second at ten. */
  lemma FactorsReached()
    ensures IsRank([10], 1, 10) && Estimate([10], 100) == 20
    ensures IsRank([1000000], 1, 1000000) && Estimate([1000000], 100) == 10000000
  {
    hide Estimate, IsRank, Target, LatencyToBin, BinToLatency;
    Powers();
    AlwaysUpper(10);
    AlwaysUpper(1000000);
    Decade(10);
    BinEdges(10);
    BinOf(1000000);
    Decade(1000000);
    TenthBin();
  }

  lemma AlwaysUpper(v: nat)
    requires v > 0
    ensures IsRank([v], 1, v) && Estimate([v], 100) == UpperEdge(v)
  {
    hide Estimate, IsRank, UpperEdge;
    assert Mixed(v, 0, 1) == [v];
    UpperEdgeReached(v);
  }

  lemma TenthBin()
    ensures BinToLatency(70) == 10000000
  {
    Powers();
  }
}
