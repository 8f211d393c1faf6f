/** The histogram as the program keeps it: an array of counters updated in place. */
module LatencyHistograms {
  import opened Arith
  import opened Histogram

  /** `ilog10`. */
  method ILog10(n: nat) returns (log: nat)
    ensures log == Log10(n)
  {
    if n == 0 {
      return 0;
    }
    var m := n;
    log := 0;
    while m >= 10
      invariant log + Log10(m) == Log10(n)
    {
      m := m / 10;
      log := log + 1;
    }
  }

  /** `latency_to_bin`, with its logarithms computed. */
  method BinFor(us: nat) returns (bin: nat)
    ensures bin == LatencyToBin(us) < BINS
  {
    LatencyToBinMono(us, us);
    if us == 0 {
      return 0;
    }
    var log := ILog10(us);
    var scale: nat;
    if us < 10 {
      scale := us;
    } else if us < 100 {
      scale := us / 10;
    } else if us < 1000 {
      scale := us / 100;
    } else if us < 10000 {
      scale := us / 1000;
    } else if us < 100000 {
      scale := us / 10000;
    } else if us < 1000000 {
      scale := us / 100000;
    } else {
      var seconds := ILog10(us / 1000000);
      scale := 10 + Min(seconds, 3) * 10;
    }
    bin := Min(log * 10 + Min(scale, 9), BINS - 1);
  }

  lemma CountStep(samples: seq<nat>, us: nat, bin: nat)
    ensures CountIn(samples + [us], bin) == CountIn(samples, bin) + (if LatencyToBin(us) == bin then 1 else 0)
  {
    assert (samples + [us])[..|samples|] == samples;
  }

  /** Interpolation with fractions, rounded down, is the integer share. */
  lemma FractionIsShare(offset: nat, width: nat, n: nat, from: nat)
    requires n > 0
    ensures (from as real + (offset as real / n as real) * width as real).Floor == from + Share(offset, width, n)
  {
    var q, r := offset * width / n, offset * width % n;
    FractionSplit(offset, width, n, q, r);
    var part := r as real / n as real;
    assert 0.0 <= part < 1.0 by { FractionBelowOne(r, n); }
  }

  lemma FractionBelowOne(r: nat, n: nat)
    requires r < n
    ensures 0.0 <= r as real / n as real < 1.0
  {
  }

  lemma FractionSplit(offset: nat, width: nat, n: nat, q: nat, r: nat)
    requires n > 0 && offset * width == n * q + r
    ensures (offset as real / n as real) * width as real == q as real + r as real / n as real
  {
    var x := offset as real / n as real;
    assert x * n as real == offset as real;
    assert (offset * width) as real == offset as real * width as real;
    assert (n * q) as real == n as real * q as real;
    var y := r as real / n as real;
    assert y * n as real == r as real;
    SameProduct(x * width as real, q as real + y, n as real);
  }

  lemma SameProduct(x: real, y: real, n: real)
    requires n > 0.0 && x * n == y * n
    ensures x == y
  {
    assert (x - y) * n == 0.0;
  }

  method LinearInterpolation(from: nat, to: nat, offset: nat, count: nat) returns (estimate: nat)
    requires from <= to && count > 0
    ensures estimate == from + Share(offset, to - from, count)
  {
    var fraction := offset as real / count as real;
    var interpolated := from as real + fraction * (to - from) as real;
    FractionIsShare(offset, to - from, count, from);
    estimate := interpolated.Floor;
  }

  lemma EmptyEstimate(percentile: nat)
    ensures Estimate([], percentile) == 0
  {
  }

  class LatencyHistogram {
    const bins: array<nat>
    var totalLatency: nat
    var sampleCount: nat
    ghost var samples: seq<nat>

    ghost predicate Valid()
      reads this, bins
    {
      && bins.Length == BINS
      && (forall b :: 0 <= b < BINS ==> bins[b] == CountIn(samples, b))
      && totalLatency == Sum(samples)
      && sampleCount == |samples|
    }

    constructor ()
      ensures Valid() && samples == [] && fresh(bins)
    {
      bins := new nat[BINS](_ => 0);
      totalLatency := 0;
      sampleCount := 0;
      samples := [];
    }

    method Record(us: nat)
      requires Valid()
      modifies this, bins
      ensures Valid() && samples == old(samples) + [us]
    {
      var bin := BinFor(us);
      bins[bin] := bins[bin] + 1;
      totalLatency := totalLatency + us;
      sampleCount := sampleCount + 1;
      forall b | 0 <= b < BINS ensures bins[b] == CountIn(samples + [us], b) {
        CountStep(samples, us, b);
      }
      assert (samples + [us])[..|samples|] == samples;
      samples := samples + [us];
    }

    method EstimatePercentile(percentile: nat) returns (estimate: nat)
      requires Valid()
      ensures estimate == Estimate(samples, percentile)
    {
      hide BinToLatency, Share, CountBelow;
      if sampleCount == 0 {
        return 0;
      }
      var target := sampleCount * percentile / 100;
      var cumulative := 0;
      NoneBelowZero(samples);
      for bin := 0 to BINS
        invariant cumulative == CountBelow(samples, bin)
        invariant FindBin(samples, target, 0) == FindBin(samples, target, bin)
        invariant cumulative <= target
      {
        var count := bins[bin];
        if cumulative + count >= target {
          var from, to := BinToLatency(bin), BinToLatency(bin + 1);
          if count == 0 {
            return (from + to) / 2;
          }
          BinToLatencyStep(bin);
          estimate := LinearInterpolation(from, to, target - cumulative, count);
          return;
        }
        cumulative := cumulative + count;
      }
      estimate := BinToLatency(BINS);
    }

    method CalculatePercentiles() returns (avg: nat, p50: nat, p95: nat, p99: nat)
      requires Valid()
      ensures samples == [] ==> avg == p50 == p95 == p99 == 0
      ensures samples != [] ==> |samples| * avg <= Sum(samples) < |samples| * (avg + 1)
      ensures p50 == Estimate(samples, 50) && p95 == Estimate(samples, 95) && p99 == Estimate(samples, 99)
      ensures p50 <= p95 <= p99
    {
      hide Estimate, Sum, CountIn;
      if sampleCount == 0 {
        EmptyEstimate(50);
        EmptyEstimate(95);
        EmptyEstimate(99);
        return 0, 0, 0, 0;
      }
      EstimateMono(samples, 50, 95);
      EstimateMono(samples, 95, 99);
      avg := totalLatency / sampleCount;
      DivBounds(totalLatency, sampleCount);
      p50 := EstimatePercentile(50);
      p95 := EstimatePercentile(95);
      p99 := EstimatePercentile(99);
    }
  }
}
