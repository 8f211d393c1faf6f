/** The latency histogram: bin layout, percentile estimates, and what they say about the recorded samples. */
module Histogram {
  import opened Arith

  const BINS := 100

  // ---------- bin layout ----------

  /** floor(log10(n)), and 0 for 0. */
  function Log10(n: nat): nat {
    if n < 10 then 0 else 1 + Log10(n / 10)
  }

  /** `latency_to_bin`. */
  function LatencyToBin(us: nat): nat {
    if us == 0 then 0 else
      var scale :=
        if us < 10 then us
        else if us < 100 then us / 10
        else if us < 1000 then us / 100
        else if us < 10000 then us / 1000
        else if us < 100000 then us / 10000
        else if us < 1000000 then us / 100000
        else 10 + Min(Log10(us / 1000000), 3) * 10;
      Min(Log10(us) * 10 + Min(scale, 9), BINS - 1)
  }

  /** `bin_to_latency`: the lower bound of a bin. */
  function BinToLatency(bin: nat): nat {
    if bin == 0 then 1 else Pow(10, bin / 10) * Max(bin % 10, 1)
  }

  lemma PowStep(k: nat)
    ensures Pow(10, k + 1) == 10 * Pow(10, k) && Pow(10, k) >= 1
  {
    if k > 0 {
      PowStep(k - 1);
    }
  }

  lemma {:induction false} PowMono(j: nat, k: nat)
    requires j <= k
    ensures Pow(10, j) <= Pow(10, k)
  {
    if j < k {
      PowMono(j, k - 1);
      PowStep(k - 1);
    }
  }

  lemma {:induction false} Log10Bounds(n: nat)
    requires n > 0
    ensures Pow(10, Log10(n)) <= n < Pow(10, Log10(n) + 1)
  {
    if n >= 10 {
      Log10Bounds(n / 10);
      PowStep(Log10(n / 10));
      PowStep(Log10(n));
    }
  }

  lemma Log10Is(n: nat, k: nat)
    requires Pow(10, k) <= n < Pow(10, k + 1)
    ensures Log10(n) == k
  {
    PowStep(k);
    Log10Bounds(n);
    if Log10(n) < k {
      PowMono(Log10(n) + 1, k);
    } else if k < Log10(n) {
      PowMono(k + 1, Log10(n));
    }
  }

  lemma {:induction false} Log10Mono(m: nat, n: nat)
    requires m <= n
    ensures Log10(m) <= Log10(n)
  {
    if m >= 10 {
      Log10Mono(m / 10, n / 10);
    }
  }

  lemma Powers()
    ensures Pow(10, 0) == 1 && Pow(10, 1) == 10 && Pow(10, 2) == 100 && Pow(10, 3) == 1000 && Pow(10, 4) == 10000
    ensures Pow(10, 5) == 100000 && Pow(10, 6) == 1000000 && Pow(10, 7) == 10000000 && Pow(10, 8) == 100000000
    ensures Pow(10, 9) == 1000000000 && Pow(10, 10) == 10000000000
  {
    PowStep(0); PowStep(1); PowStep(2); PowStep(3); PowStep(4);
    PowStep(5); PowStep(6); PowStep(7); PowStep(8); PowStep(9);
  }

  /** Decade of a latency below 10^10, and the bin that follows from it. */
  lemma Decade(us: nat)
    requires 0 < us < 10000000000
    ensures us < 10 ==> Log10(us) == 0
    ensures 10 <= us < 100 ==> Log10(us) == 1
    ensures 100 <= us < 1000 ==> Log10(us) == 2
    ensures 1000 <= us < 10000 ==> Log10(us) == 3
    ensures 10000 <= us < 100000 ==> Log10(us) == 4
    ensures 100000 <= us < 1000000 ==> Log10(us) == 5
    ensures 1000000 <= us < 10000000 ==> Log10(us) == 6
    ensures 10000000 <= us < 100000000 ==> Log10(us) == 7
    ensures 100000000 <= us < 1000000000 ==> Log10(us) == 8
    ensures 1000000000 <= us ==> Log10(us) == 9
  {
    Powers();
    if us < 10 { Log10Is(us, 0); }
    else if us < 100 { Log10Is(us, 1); }
    else if us < 1000 { Log10Is(us, 2); }
    else if us < 10000 { Log10Is(us, 3); }
    else if us < 100000 { Log10Is(us, 4); }
    else if us < 1000000 { Log10Is(us, 5); }
    else if us < 10000000 { Log10Is(us, 6); }
    else if us < 100000000 { Log10Is(us, 7); }
    else if us < 1000000000 { Log10Is(us, 8); }
    else { Log10Is(us, 9); }
  }

  /** In words: a tenth of a decade per bin up to one second, then one bin, the tenth, per decade. */
  lemma BinOf(us: nat)
    ensures us == 0 ==> LatencyToBin(us) == 0
    ensures 0 < us < 1000000 ==>
      && LatencyToBin(us) == Log10(us) * 10 + us / Pow(10, Log10(us))
      && 1 <= us / Pow(10, Log10(us)) <= 9 && Log10(us) <= 5
    ensures 1000000 <= us < 10000000000 ==> LatencyToBin(us) == Log10(us) * 10 + 9 && 6 <= Log10(us) <= 9
    ensures 10000000000 <= us ==> LatencyToBin(us) == 99
  {
    Powers();
    if 0 < us < 10000000000 {
      Decade(us);
    } else if us > 0 {
      Log10Is(10000000000, 10) by { PowStep(10); }
      Log10Mono(10000000000, us);
    }
  }

  lemma LeadingDigitMono(m: nat, n: nat, d: nat)
    requires m <= n && d <= 5
    ensures m / Pow(10, d) <= n / Pow(10, d)
  {
    Powers();
    match d
    case 0 => assert m / 1 <= n / 1;
    case 1 => assert m / 10 <= n / 10;
    case 2 => assert m / 100 <= n / 100;
    case 3 => assert m / 1000 <= n / 1000;
    case 4 => assert m / 10000 <= n / 10000;
    case _ => assert m / 100000 <= n / 100000;
  }

  /** Larger latencies go into no earlier bins. */
  lemma LatencyToBinMono(m: nat, n: nat)
    requires m <= n
    ensures LatencyToBin(m) <= LatencyToBin(n) < BINS
  {
    hide LatencyToBin;
    BinOf(m);
    BinOf(n);
    Log10Mono(m, n);
    if 0 < m && Log10(m) == Log10(n) <= 5 {
      LeadingDigitMono(m, n, Log10(m));
    }
  }

  lemma BinToLatencyStep(bin: nat)
    ensures BinToLatency(bin) <= BinToLatency(bin + 1)
  {
    PowStep(bin / 10);
    Powers();
    if bin % 10 == 9 {
      assert (bin + 1) / 10 == bin / 10 + 1 && (bin + 1) % 10 == 0;
    } else {
      assert (bin + 1) / 10 == bin / 10 && (bin + 1) % 10 == bin % 10 + 1;
      assert Pow(10, bin / 10) * Max(bin % 10, 1) <= Pow(10, bin / 10) * (bin % 10 + 1) by {
        TimesMono(Pow(10, bin / 10), Max(bin % 10, 1), bin % 10 + 1);
      }
    }
  }

  lemma {:induction false} BinToLatencyMono(b: nat, b': nat)
    requires b <= b'
    ensures 1 <= BinToLatency(b) <= BinToLatency(b')
  {
    if b < b' {
      BinToLatencyMono(b, b' - 1);
      BinToLatencyStep(b' - 1);
    } else if b > 0 {
      PowStep(b / 10);
      TimesMono(Pow(10, b / 10), 1, Max(b % 10, 1));
    }
  }

  lemma DivBounds(n: nat, d: nat)
    requires d > 0
    ensures d * (n / d) <= n < d * (n / d + 1)
    ensures d <= n ==> d * (n / d + 1) <= 2 * (d * (n / d))
  {
    if d <= n {
      TimesMono(d, 1, n / d);
    }
  }

  lemma BinEdges(us: nat)
    requires 0 < us < 1000000
    ensures var b, unit := LatencyToBin(us), Pow(10, Log10(us));
      && BinToLatency(b) == unit * (us / unit)
      && BinToLatency(b + 1) == unit * (us / unit + 1)
  {
    BinOf(us);
    var d, digit, b := Log10(us), us / Pow(10, Log10(us)), LatencyToBin(us);
    PowStep(d);
    assert b / 10 == d && b % 10 == digit;
    if digit == 9 {
      assert (b + 1) / 10 == d + 1 && (b + 1) % 10 == 0;
    } else {
      assert (b + 1) / 10 == d && (b + 1) % 10 == digit + 1;
    }
  }

  /** Below one second a sample lies in its bin's interval, which spans at most a factor of two. */
  lemma BinHoldsLatency(us: nat)
    requires 0 < us < 1000000
    ensures var b := LatencyToBin(us);
      BinToLatency(b) <= us < BinToLatency(b + 1) <= 2 * BinToLatency(b)
  {
    hide LatencyToBin, BinToLatency, Log10;
    BinEdges(us);
    Log10Bounds(us);
    DivBounds(us, Pow(10, Log10(us)));
  }

  /** From one second to ten thousand, a bin estimate is within its sample's decade. */
  lemma BinNearLatency(us: nat)
    requires 1000000 <= us < 10000000000
    ensures var b := LatencyToBin(us);
      && BinToLatency(b + 1) <= 10 * us && us < BinToLatency(b + 1)
      && 10 * BinToLatency(b) == 9 * BinToLatency(b + 1)
  {
    BinOf(us);
    Log10Bounds(us);
    var d, b := Log10(us), LatencyToBin(us);
    PowStep(d);
    assert b / 10 == d && b % 10 == 9 && (b + 1) / 10 == d + 1 && (b + 1) % 10 == 0;
  }

  // ---------- samples ----------

  /** Samples that fall into bins before `bin`. */
  function CountBelow(samples: seq<nat>, bin: nat): nat {
    if samples == [] then 0
    else CountBelow(samples[..|samples| - 1], bin) + (if LatencyToBin(samples[|samples| - 1]) < bin then 1 else 0)
  }

  function CountIn(samples: seq<nat>, bin: nat): nat {
    CountBelowMono(samples, bin, bin + 1);
    CountBelow(samples, bin + 1) - CountBelow(samples, bin)
  }

  lemma {:induction false} CountBelowMono(samples: seq<nat>, b: nat, b': nat)
    requires b <= b'
    ensures CountBelow(samples, b) <= CountBelow(samples, b') <= |samples|
  {
    if samples != [] {
      CountBelowMono(samples[..|samples| - 1], b, b');
    }
  }

  // ---------- percentile estimates ----------

  function Target(samples: seq<nat>, percentile: nat): nat {
    |samples| * percentile / 100
  }

  /** The first bin, from `from` on, at which the cumulated count reaches `target`; BINS if there is none. */
  function FindBin(samples: seq<nat>, target: nat, from: nat): (b: nat)
    requires from <= BINS
    ensures from <= b <= BINS
    ensures b < BINS ==> CountBelow(samples, b + 1) >= target
    ensures forall b' :: from < b' <= b ==> CountBelow(samples, b') < target
    decreases BINS - from
  {
    if from == BINS then BINS
    else if CountBelow(samples, from + 1) >= target then from
    else FindBin(samples, target, from + 1)
  }

  /** `offset` of `n` equal steps across `width`, rounded down. */
  function Share(offset: nat, width: nat, n: nat): nat
    requires n > 0
  {
    offset * width / n
  }

  /** Position `target` of the bin's own samples, spread evenly over the bin. */
  function Interpolate(samples: seq<nat>, bin: nat, target: nat): nat
    requires CountBelow(samples, bin) <= target
  {
    BinToLatencyStep(bin);
    var from, to, n := BinToLatency(bin), BinToLatency(bin + 1), CountIn(samples, bin);
    if n == 0 then (from + to) / 2
    else from + Share(target - CountBelow(samples, bin), to - from, n)
  }

  lemma {:induction false} NoneBelowZero(samples: seq<nat>)
    ensures CountBelow(samples, 0) == 0
  {
    if samples != [] {
      NoneBelowZero(samples[..|samples| - 1]);
    }
  }

  lemma {:induction false} AllBelowBins(samples: seq<nat>)
    ensures CountBelow(samples, BINS) == |samples|
  {
    if samples != [] {
      AllBelowBins(samples[..|samples| - 1]);
      LatencyToBinMono(samples[|samples| - 1], samples[|samples| - 1]);
    }
  }

  lemma FoundBinStartsBelow(samples: seq<nat>, target: nat)
    ensures CountBelow(samples, FindBin(samples, target, 0)) <= target
  {
    NoneBelowZero(samples);
  }

  /** `estimate_percentile`, in exact arithmetic. */
  function Estimate(samples: seq<nat>, percentile: nat): nat {
    if samples == [] then 0 else
      var target := Target(samples, percentile);
      var b := FindBin(samples, target, 0);
      FoundBinStartsBelow(samples, target);
      if b == BINS then BinToLatency(BINS) else Interpolate(samples, b, target)
  }

  /** The scan never runs off the end for a real percentage. */
  lemma ScanFindsBin(samples: seq<nat>, percentile: nat)
    requires percentile <= 100
    ensures FindBin(samples, Target(samples, percentile), 0) < BINS
  {
    hide CountBelow, Target;
    AllBelowBins(samples);
    TargetWithin(samples, percentile);
  }

  lemma TargetWithin(samples: seq<nat>, percentile: nat)
    requires percentile <= 100
    ensures Target(samples, percentile) <= |samples|
  {
    PercentOf(|samples|, percentile);
  }

  lemma PercentOf(n: nat, percentile: nat)
    requires percentile <= 100
    ensures n * percentile / 100 <= n
  {
    TimesMono(n, percentile, 100);
    DivLe(n * percentile, n * 100, 100);
  }

  lemma ShareOfBin(offset: nat, width: nat, n: nat)
    requires 0 < n && offset <= n
    ensures Share(offset, width, n) <= width
  {
    assert offset * width <= n * width by { TimesMono(width, offset, n); }
    assert n * width / n == width;
    DivLe(offset * width, n * width, n);
  }

  /** An estimate lies between the edges of the bin it was found in. */
  lemma InterpolateInBin(samples: seq<nat>, bin: nat, target: nat)
    requires CountBelow(samples, bin) <= target <= CountBelow(samples, bin + 1)
    ensures BinToLatency(bin) <= Interpolate(samples, bin, target) <= BinToLatency(bin + 1)
  {
    hide BinToLatency, CountBelow, Share;
    BinToLatencyStep(bin);
    var n := CountIn(samples, bin);
    if n > 0 {
      ShareOfBin(target - CountBelow(samples, bin), BinToLatency(bin + 1) - BinToLatency(bin), n);
    }
  }

  lemma InterpolateMono(samples: seq<nat>, bin: nat, t: nat, t': nat)
    requires CountBelow(samples, bin) <= t <= t'
    ensures Interpolate(samples, bin, t) <= Interpolate(samples, bin, t')
  {
    hide BinToLatency, CountIn, CountBelow;
    BinToLatencyStep(bin);
    var width, n := BinToLatency(bin + 1) - BinToLatency(bin), CountIn(samples, bin);
    if n > 0 {
      var o, o' := t - CountBelow(samples, bin), t' - CountBelow(samples, bin);
      TimesMono(width, o, o');
      DivLe(o * width, o' * width, n);
    }
  }

  lemma EstimateInFoundBin(samples: seq<nat>, percentile: nat)
    requires samples != []
    ensures var b := FindBin(samples, Target(samples, percentile), 0);
      if b == BINS then Estimate(samples, percentile) == BinToLatency(BINS)
      else BinToLatency(b) <= Estimate(samples, percentile) <= BinToLatency(b + 1)
  {
    var target := Target(samples, percentile);
    FoundBinStartsBelow(samples, target);
    var b := FindBin(samples, target, 0);
    if b < BINS {
      InterpolateInBin(samples, b, target);
    }
  }

  /** Estimates never decrease with the percentile. */
  lemma EstimateMono(samples: seq<nat>, p: nat, q: nat)
    requires p <= q
    ensures Estimate(samples, p) <= Estimate(samples, q)
  {
    if samples != [] {
      TimesMono(|samples|, p, q);
      var t, t' := Target(samples, p), Target(samples, q);
      assert t <= t';
      var b, b' := FindBin(samples, t, 0), FindBin(samples, t', 0);
      assert b <= b' by {
        if b' < b { assert CountBelow(samples, b' + 1) < t; }
      }
      FoundBinStartsBelow(samples, t);
      FoundBinStartsBelow(samples, t');
      EstimateInFoundBin(samples, p);
      EstimateInFoundBin(samples, q);
      if b == b' {
        if b < BINS {
          InterpolateMono(samples, b, t, t');
        }
      } else {
        BinToLatencyMono(b + 1, b');
      }
    }
  }

  // ---------- accuracy against the true order statistics ----------

  function CountLess(samples: seq<nat>, x: nat): nat {
    if samples == [] then 0
    else CountLess(samples[..|samples| - 1], x) + (if samples[|samples| - 1] < x then 1 else 0)
  }

  /** `v` is the k-th smallest sample. */
  predicate IsRank(samples: seq<nat>, k: nat, v: nat) {
    CountLess(samples, v) < k <= CountLess(samples, v + 1)
  }

  lemma {:induction false} CountLessMax(samples: seq<nat>) returns (x: nat)
    ensures CountLess(samples, x) == |samples|
    ensures forall y :: x <= y ==> CountLess(samples, y) == |samples|
  {
    if samples == [] {
      x := 0;
    } else {
      x := CountLessMax(samples[..|samples| - 1]);
      x := Max(x, samples[|samples| - 1] + 1);
    }
  }

  /** Every rank from 1 to the number of samples has a sample. */
  lemma RankExists(samples: seq<nat>, k: nat) returns (v: nat)
    requires 1 <= k <= |samples|
    ensures IsRank(samples, k, v) && v in samples
  {
    var x := CountLessMax(samples);
    NoneLessThanZero(samples);
    v := 0;
    while CountLess(samples, v + 1) < k
      invariant CountLess(samples, v) < k
      decreases x - v
    {
      v := v + 1;
    }
    RankIsSample(samples, v);
  }

  lemma {:induction false} NoneLessThanZero(samples: seq<nat>)
    ensures CountLess(samples, 0) == 0
  {
    if samples != [] {
      NoneLessThanZero(samples[..|samples| - 1]);
    }
  }

  lemma {:induction false} RankIsSample(samples: seq<nat>, v: nat)
    requires CountLess(samples, v) != CountLess(samples, v + 1)
    ensures v in samples
  {
    var last := |samples| - 1;
    if samples[last] != v {
      RankIsSample(samples[..last], v);
    }
  }

  lemma {:induction false} BinsRespectOrder(samples: seq<nat>, v: nat)
    ensures CountBelow(samples, LatencyToBin(v)) <= CountLess(samples, v)
    ensures CountLess(samples, v + 1) <= CountBelow(samples, LatencyToBin(v) + 1)
  {
    if samples != [] {
      var x := samples[|samples| - 1];
      BinsRespectOrder(samples[..|samples| - 1], v);
      if x <= v {
        LatencyToBinMono(x, v);
      } else {
        LatencyToBinMono(v, x);
      }
    }
  }

  /** The bin in which the scan stops is the bin of the true order statistic. */
  lemma FoundBinHoldsRank(samples: seq<nat>, target: nat, v: nat)
    requires IsRank(samples, target, v)
    ensures FindBin(samples, target, 0) == LatencyToBin(v)
  {
    BinsRespectOrder(samples, v);
    LatencyToBinMono(v, v);
    var b, f := LatencyToBin(v), FindBin(samples, target, 0);
    if f < b {
      CountBelowMono(samples, f + 1, b);
    }
  }

  /** How far a percentile estimate can be from the sample `v` of that rank, the rank being that share of the samples,
      rounded down. */
  lemma PercentileAccuracy(samples: seq<nat>, percentile: nat, v: nat)
    requires percentile <= 100 && IsRank(samples, |samples| * percentile / 100, v)
    ensures var e := Estimate(samples, percentile);
      && (v == 0 ==> e == 1)
      && (1 <= v < 1000000 ==> e <= 2 * v && v <= 2 * e)
      && (1000000 <= v < 10000000000 ==> e <= 10 * v && v <= 2 * e)
      && (10000000000 <= v ==> 9000000000 <= e <= 10000000000)
  {
    var b := LatencyToBin(v);
    FoundBinHoldsRank(samples, Target(samples, percentile), v);
    ScanFindsBin(samples, percentile);
    EstimateInFoundBin(samples, percentile);
    BinOf(v);
    if v == 0 {
      Powers();
    } else if v < 1000000 {
      BinHoldsLatency(v);
    } else if v < 10000000000 {
      BinNearLatency(v);
    } else {
      Powers();
    }
  }

  /** Below one sample per percentile step there is no rank to estimate: the answer is the first bin's edge. */
  lemma SmallTargetIsOne(samples: seq<nat>, percentile: nat)
    requires samples != [] && |samples| * percentile < 100
    ensures Estimate(samples, percentile) == 1
  {
    Powers();
    NoneBelowZero(samples);
  }
}
