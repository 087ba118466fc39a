/**
 * The arithmetic of the speaking visualizer's band analysis, after the
 * Fourier transform: the power-law bin boundaries, the per-band target
 * level, the attack/release blend, the bounded history with its linear
 * weights, the peak-hold register and the fade.  All values are exact
 * reals; the visualizer class applies these functions band by band.
 */
module BandAnalysis {
  import opened Common

  /** Number of frequency bands the visualizer draws. */
  const BandCount: nat := 64
  /** Number of past frames the temporal smoothing keeps. */
  const HistoryLength: nat := 8
  /** Factor a peak decays by on a frame where the band does not exceed it. */
  const PeakDecay: real := 0.97
  /** Factor every band shrinks by on a frame without analysable audio. */
  const FadeFactor: real := 0.93

  predicate InUnit(x: real) { 0.0 <= x <= 1.0 }

  predicate AllInUnit(s: seq<real>) {
    forall i :: 0 <= i < |s| ==> InUnit(s[i])
  }

  predicate AllNonNegative(s: seq<real>) {
    forall i :: 0 <= i < |s| ==> 0.0 <= s[i]
  }

  // ---------------------------------------------------------------------
  // Bin boundaries
  // ---------------------------------------------------------------------

  /** The integer square root: the largest `r` with `r * r <= x`. */
  function ISqrt(x: nat): (r: nat)
    ensures r * r <= x < (r + 1) * (r + 1)
  {
    if x < 4 then (if x == 0 then 0 else 1)
    else
      var q := ISqrt(x / 4);
      DoubleRoot(x, q);
      if (2 * q + 1) * (2 * q + 1) <= x then 2 * q + 1 else 2 * q
  }

  /** A root of x / 4, doubled, is a root of x or one below it. */
  lemma DoubleRoot(x: nat, q: nat)
    requires q * q <= x / 4 < (q + 1) * (q + 1)
    ensures (2 * q) * (2 * q) <= x < (2 * q + 2) * (2 * q + 2)
  {
    var d := x / 4;
    assert 4 * d <= x < 4 * d + 4;
    Quadruple(q);
  }

  lemma Quadruple(q: nat)
    ensures (2 * q) * (2 * q) == 4 * (q * q)
    ensures (2 * q + 2) * (2 * q + 2) == 4 * ((q + 1) * (q + 1))
  {
  }

  lemma SquareMonotone(a: nat, b: nat)
    requires a <= b
    ensures a * a <= b * b
  {
    assert a * a <= a * b by { MulLeft(a, a, b); }
    assert a * b <= b * b by { MulLeft(b, a, b); }
  }

  lemma MulLeft(c: nat, a: nat, b: nat)
    requires a <= b
    ensures c * a <= c * b
  {
  }

  /** Two integer square roots of the same number are equal. */
  lemma RootUnique(x: nat, r: nat, s: nat)
    requires r * r <= x < (r + 1) * (r + 1)
    requires s * s <= x < (s + 1) * (s + 1)
    ensures r == s
  {
    if r < s {
      SquareMonotone(r + 1, s);
    } else if s < r {
      SquareMonotone(s + 1, r);
    }
  }

  /** The square root of a perfect square is its root. */
  lemma ISqrtOfSquare(a: nat)
    ensures ISqrt(a * a) == a
  {
    var x := a * a;
    assert x < (a + 1) * (a + 1) by { Quadruple(a); assert (a + 1) * (a + 1) == x + 2 * a + 1; }
    RootUnique(x, ISqrt(x), a);
  }

  lemma ISqrtMonotone(x: nat, y: nat)
    requires x <= y
    ensures ISqrt(x) <= ISqrt(y)
  {
    var r, s := ISqrt(x), ISqrt(y);
    if r > s {
      SquareMonotone(s + 1, r);
    }
  }

  /**
   * The first bin of band `i` among `numBins` bins: the whole part of
   * (i / 64) ** 1.5 * numBins, computed exactly as
   * floor(sqrt(i^3 * numBins^2) / 512) since 64 ** 1.5 == 512.
   */
  function Boundary(i: nat, numBins: nat): nat {
    ISqrt(i * i * i * (numBins * numBins)) / 512
  }

  /** The first band starts at bin 0. */
  lemma BoundaryZero(numBins: nat)
    ensures Boundary(0, numBins) == 0
  {
    ISqrtOfSquare(0);
  }

  /** The last band ends at the last bin. */
  lemma BoundaryFull(numBins: nat)
    ensures Boundary(BandCount, numBins) == numBins
  {
    var m := 512 * numBins;
    assert BandCount * BandCount * BandCount * (numBins * numBins) == m * m;
    ISqrtOfSquare(m);
  }

  lemma CubeMonotone(i: nat, j: nat)
    requires i <= j
    ensures i * i * i <= j * j * j
  {
    SquareMonotone(i, j);
    MulLeft(i, i * i, j * j);
    MulLeft(j * j, i, j);
  }

  /** Later bands never start before earlier ones. */
  lemma BoundaryMonotone(i: nat, j: nat, numBins: nat)
    requires i <= j
    ensures Boundary(i, numBins) <= Boundary(j, numBins)
  {
    var n2 := numBins * numBins;
    CubeMonotone(i, j);
    MulLeft(n2, i * i * i, j * j * j);
    ISqrtMonotone(i * i * i * n2, j * j * j * n2);
  }

  // ---------------------------------------------------------------------
  // Per-band target level and attack/release blend
  // ---------------------------------------------------------------------

  function Sum(s: seq<real>): real {
    if s == [] then 0.0 else Sum(s[..|s| - 1]) + s[|s| - 1]
  }

  /** The arithmetic mean of a non-empty run of magnitudes. */
  function Mean(s: seq<real>): real
    requires s != []
  {
    Sum(s) / (|s| as real)
  }

  lemma {:induction false} SumAtLeast(s: seq<real>, lo: real)
    requires forall i :: 0 <= i < |s| ==> lo <= s[i]
    ensures (|s| as real) * lo <= Sum(s)
  {
    if s != [] {
      SumAtLeast(s[..|s| - 1], lo);
    }
  }

  lemma {:induction false} SumAtMost(s: seq<real>, hi: real)
    requires forall i :: 0 <= i < |s| ==> s[i] <= hi
    ensures Sum(s) <= (|s| as real) * hi
  {
    if s != [] {
      SumAtMost(s[..|s| - 1], hi);
    }
  }

  /** A mean of values at least `lo` is at least `lo`. */
  lemma MeanAtLeast(s: seq<real>, lo: real)
    requires s != []
    requires forall i :: 0 <= i < |s| ==> lo <= s[i]
    ensures lo <= Mean(s)
  {
    SumAtLeast(s, lo);
    var n := |s| as real;
    assert n * (Sum(s) / n) == Sum(s);
  }

  /** A mean of values at most `hi` is at most `hi`. */
  lemma MeanAtMost(s: seq<real>, hi: real)
    requires s != []
    requires forall i :: 0 <= i < |s| ==> s[i] <= hi
    ensures Mean(s) <= hi
  {
    SumAtMost(s, hi);
    var n := |s| as real;
    assert n * (Sum(s) / n) == Sum(s);
  }

  /** The level a band aims at: the mean magnitude over 100, capped at 1. */
  function Normalize(avg: real): (r: real)
    requires 0.0 <= avg
    ensures InUnit(r)
    ensures r == 1.0 || r == avg / 100.0
    ensures r <= avg / 100.0
  {
    if 1.0 <= avg / 100.0 then 1.0 else avg / 100.0
  }

  /**
   * The target of band `i` for the magnitudes `mags` (the spectrum with
   * the DC bin dropped), or None when the band's bin range is empty or
   * starts past the last bin.
   */
  function Target(mags: seq<real>, i: nat): (r: Option<real>)
    requires AllNonNegative(mags)
    ensures r.Some? ==> InUnit(r.value)
  {
    var numBins := |mags|;
    var lo := Boundary(i, numBins);
    var hi := Boundary(i + 1, numBins);
    if lo < numBins && hi > lo then
      var run := mags[lo..if hi <= numBins then hi else numBins];
      MeanAtLeast(run, 0.0);
      Some(Normalize(Mean(run)))
    else None
  }

  /** For a band below the last, the bin range always lies within the spectrum. */
  lemma TargetRange(mags: seq<real>, i: nat)
    requires i < BandCount
    ensures Boundary(i, |mags|) <= Boundary(i + 1, |mags|) <= |mags|
  {
    BoundaryMonotone(i, i + 1, |mags|);
    BoundaryMonotone(i + 1, BandCount, |mags|);
    BoundaryFull(|mags|);
  }

  /** Rise fast (weight 0.8 on the target), fall slowly (weight 0.25). */
  function Blend(current: real, target: real): real {
    if target > current then current * 0.2 + target * 0.8
    else current * 0.75 + target * 0.25
  }

  /** A blend moves towards the target without passing it. */
  lemma BlendBetween(current: real, target: real)
    ensures target > current ==> current < Blend(current, target) < target
    ensures target <= current ==> target <= Blend(current, target) <= current
    ensures InUnit(current) && InUnit(target) ==> InUnit(Blend(current, target))
  {
  }

  /** The smoothing pass: each band blends towards its target, if it has one. */
  function SmoothBand(current: real, target: Option<real>): (r: real) {
    if target.Some? then Blend(current, target.value) else current
  }

  function Smoothed(bands: seq<real>, mags: seq<real>): (r: seq<real>)
    requires AllNonNegative(mags)
    ensures |r| == |bands|
  {
    seq(|bands|, i requires 0 <= i < |bands| => SmoothBand(bands[i], Target(mags, i)))
  }

  /**
   * The smoothing pass keeps every band in [0, 1], and leaves a band
   * whose bin range is empty unchanged.
   */
  lemma SmoothedShape(bands: seq<real>, mags: seq<real>)
    requires AllNonNegative(mags) && AllInUnit(bands)
    ensures AllInUnit(Smoothed(bands, mags))
    ensures forall i :: 0 <= i < |bands| && Target(mags, i).None? ==> Smoothed(bands, mags)[i] == bands[i]
  {
    var r := Smoothed(bands, mags);
    forall i | 0 <= i < |bands| ensures InUnit(r[i]) {
      var t := Target(mags, i);
      if t.Some? { BlendBetween(bands[i], t.value); }
    }
  }

  /** An empty bin range, or one starting at or past the last bin, gives no target. */
  lemma NoTargetWhenEmpty(mags: seq<real>, i: nat)
    requires AllNonNegative(mags)
    ensures Target(mags, i).None? <==>
      Boundary(i, |mags|) >= |mags| || Boundary(i + 1, |mags|) <= Boundary(i, |mags|)
  {
  }

  // ---------------------------------------------------------------------
  // History and its linear weights
  // ---------------------------------------------------------------------

  /** Append the newest frame; drop the oldest once there are more than eight. */
  function Push(history: seq<seq<real>>, frame: seq<real>): (r: seq<seq<real>>)
    ensures |history| <= HistoryLength ==> |r| <= HistoryLength
    ensures r != [] && r[|r| - 1] == frame
  {
    var h := history + [frame];
    if |h| > HistoryLength then h[1..] else h
  }

  /** The history is a sliding window: the last entries of the old one, then the new frame. */
  lemma PushWindow(history: seq<seq<real>>, frame: seq<real>)
    requires |history| <= HistoryLength
    ensures |history| < HistoryLength ==> Push(history, frame) == history + [frame]
    ensures |history| == HistoryLength ==> Push(history, frame) == history[1..] + [frame]
  {
  }

  /** `linspace(0.5, 1.0, n)[k]`: 0.5 for the oldest entry, rising evenly to 1.0. */
  function Weight(k: nat, n: nat): real
    requires 1 < n
  {
    0.5 + (k as real) / (2.0 * ((n - 1) as real))
  }

  lemma WeightShape(k: nat, l: nat, n: nat)
    requires 1 < n && k <= l < n
    ensures Weight(0, n) == 0.5 && Weight(n - 1, n) == 1.0
    ensures 0.5 <= Weight(k, n) <= Weight(l, n) <= 1.0
  {
    var e := (n - 1) as real;
    HalfOf(e);
    DivMonotone(k as real, l as real, 2.0 * e);
    DivMonotone(l as real, e, 2.0 * e);
  }

  lemma HalfOf(e: real)
    requires 0.0 < e
    ensures e / (2.0 * e) == 0.5
  {
  }

  lemma DivMonotone(a: real, b: real, d: real)
    requires 0.0 <= a <= b && 0.0 < d
    ensures 0.0 <= a / d <= b / d
  {
  }

  /** The sum of the first `m` weights of an `n`-entry history. */
  function WeightSum(m: nat, n: nat): real
    requires 1 < n && m <= n
  {
    if m == 0 then 0.0 else WeightSum(m - 1, n) + Weight(m - 1, n)
  }

  lemma {:induction false} WeightSumPositive(m: nat, n: nat)
    requires 1 < n && 0 < m <= n
    ensures 0.5 * (m as real) <= WeightSum(m, n)
  {
    WeightShape(m - 1, m - 1, n);
    if m > 1 { WeightSumPositive(m - 1, n); }
  }

  /** The weight of entry `k` after dividing by the sum of all weights. */
  function NormWeight(k: nat, n: nat): real
    requires 1 < n && k < n
  {
    WeightSumPositive(n, n);
    Weight(k, n) / WeightSum(n, n)
  }

  /** The sum of the first `m` normalised weights. */
  function NormWeightSum(m: nat, n: nat): real
    requires 1 < n && m <= n
  {
    if m == 0 then 0.0 else NormWeightSum(m - 1, n) + NormWeight(m - 1, n)
  }

  lemma {:induction false} NormWeightSumScaled(m: nat, n: nat)
    requires 1 < n && m <= n
    ensures 0.0 < WeightSum(n, n)
    ensures NormWeightSum(m, n) == WeightSum(m, n) / WeightSum(n, n)
  {
    WeightSumPositive(n, n);
    if m > 0 {
      NormWeightSumScaled(m - 1, n);
    }
  }

  lemma NormWeightPositive(k: nat, n: nat)
    requires 1 < n && k < n
    ensures 0.0 < NormWeight(k, n)
  {
    WeightSumPositive(n, n);
    WeightShape(k, k, n);
  }

  /** The normalised weights are positive, grow with recency and add up to one. */
  lemma NormWeightsShape(k: nat, l: nat, n: nat)
    requires 1 < n && k <= l < n
    ensures 0.0 < NormWeight(k, n) <= NormWeight(l, n)
    ensures NormWeightSum(n, n) == 1.0
  {
    WeightSumPositive(n, n);
    WeightShape(k, l, n);
    NormWeightSumScaled(n, n);
  }

  /** Weighted sum of band `j` over the first `m` history entries. */
  function WeightedPrefix(history: seq<seq<real>>, j: nat, m: nat): real
    requires 1 < |history| && m <= |history|
    requires forall k :: 0 <= k < |history| ==> j < |history[k]|
  {
    if m == 0 then 0.0
    else WeightedPrefix(history, j, m - 1) + history[m - 1][j] * NormWeight(m - 1, |history|)
  }

  /** Band `j` of the temporally smoothed frame. */
  function Averaged(history: seq<seq<real>>, j: nat): real
    requires 1 < |history|
    requires forall k :: 0 <= k < |history| ==> j < |history[k]|
  {
    WeightedPrefix(history, j, |history|)
  }

  lemma {:induction false} WeightedPrefixAtLeast(history: seq<seq<real>>, j: nat, m: nat, lo: real)
    requires 1 < |history| && m <= |history|
    requires forall k :: 0 <= k < |history| ==> j < |history[k]| && lo <= history[k][j]
    ensures lo * NormWeightSum(m, |history|) <= WeightedPrefix(history, j, m)
  {
    if m > 0 {
      var n := |history|;
      WeightedPrefixAtLeast(history, j, m - 1, lo);
      var w := NormWeight(m - 1, n);
      NormWeightPositive(m - 1, n);
      StepAtLeast(WeightedPrefix(history, j, m - 1), NormWeightSum(m - 1, n), w, history[m - 1][j], lo);
    }
  }

  lemma {:induction false} WeightedPrefixAtMost(history: seq<seq<real>>, j: nat, m: nat, hi: real)
    requires 1 < |history| && m <= |history|
    requires forall k :: 0 <= k < |history| ==> j < |history[k]| && history[k][j] <= hi
    ensures WeightedPrefix(history, j, m) <= hi * NormWeightSum(m, |history|)
  {
    if m > 0 {
      var n := |history|;
      WeightedPrefixAtMost(history, j, m - 1, hi);
      var w := NormWeight(m - 1, n);
      NormWeightPositive(m - 1, n);
      StepAtMost(WeightedPrefix(history, j, m - 1), NormWeightSum(m - 1, n), w, history[m - 1][j], hi);
    }
  }

  /** Adding one weighted value keeps a weighted sum above its lower bound. */
  lemma StepAtLeast(p: real, a: real, w: real, x: real, lo: real)
    requires lo * a <= p && 0.0 <= w && lo <= x
    ensures lo * (a + w) <= p + x * w
  {
    MulReal(w, lo, x);
    assert lo * (a + w) == lo * a + lo * w;
  }

  /** Adding one weighted value keeps a weighted sum below its upper bound. */
  lemma StepAtMost(p: real, a: real, w: real, x: real, hi: real)
    requires p <= hi * a && 0.0 <= w && x <= hi
    ensures p + x * w <= hi * (a + w)
  {
    MulReal(w, x, hi);
    assert hi * (a + w) == hi * a + hi * w;
  }

  lemma MulReal(w: real, a: real, b: real)
    requires 0.0 <= w && a <= b
    ensures a * w <= b * w
  {
  }

  /** An averaged band lies between the smallest and largest value that band had in the history. */
  lemma AveragedBetween(history: seq<seq<real>>, j: nat, lo: real, hi: real)
    requires 1 < |history|
    requires forall k :: 0 <= k < |history| ==> j < |history[k]| && lo <= history[k][j] <= hi
    ensures lo <= Averaged(history, j) <= hi
  {
    WeightedPrefixAtLeast(history, j, |history|, lo);
    WeightedPrefixAtMost(history, j, |history|, hi);
    NormWeightsShape(0, 0, |history|);
  }

  // ---------------------------------------------------------------------
  // Peak hold and fade
  // ---------------------------------------------------------------------

  /**
   * One band of the peak pass: a band above its peak raises the peak to
   * itself; otherwise the peak decays and the band is floored at it.
   */
  function PeakStep(band: real, peak: real): (r: (real, real)) {
    if band > peak then (band, band)
    else var p := peak * PeakDecay; (if band >= p then band else p, p)
  }

  /** After the peak pass a band is at least its peak; a peak only rises to the band's value. */
  lemma PeakStepShape(band: real, peak: real)
    ensures PeakStep(band, peak).0 >= PeakStep(band, peak).1
    ensures 0.0 <= peak && PeakStep(band, peak).1 > peak ==> PeakStep(band, peak).1 == band
    ensures band <= peak && 0.0 <= peak ==> PeakStep(band, peak).1 <= peak
    ensures InUnit(band) && InUnit(peak) ==> InUnit(PeakStep(band, peak).0) && InUnit(PeakStep(band, peak).1)
  {
  }

  /** Fading only shrinks a band, and keeps it in [0, 1]. */
  lemma FadeShrinks(band: real)
    requires InUnit(band)
    ensures InUnit(band * FadeFactor) && band * FadeFactor <= band
  {
  }

  // ---------------------------------------------------------------------
  // Whole frames
  // ---------------------------------------------------------------------

  /** A band vector of the right length with every value in [0, 1]. */
  predicate IsFrame(s: seq<real>) {
    |s| == BandCount && AllInUnit(s)
  }

  predicate AllFrames(history: seq<seq<real>>) {
    forall k :: 0 <= k < |history| ==> IsFrame(history[k])
  }

  /** The temporally smoothed frame: every band averaged over the history. */
  function AverageFrame(history: seq<seq<real>>): (r: seq<real>)
    requires 1 < |history| && AllFrames(history)
    ensures |r| == BandCount
  {
    seq(BandCount, j requires 0 <= j < BandCount => Averaged(history, j))
  }

  lemma AverageFrameIsFrame(history: seq<seq<real>>)
    requires 1 < |history| && AllFrames(history)
    ensures IsFrame(AverageFrame(history))
  {
    forall j | 0 <= j < BandCount ensures InUnit(AverageFrame(history)[j]) {
      AveragedBetween(history, j, 0.0, 1.0);
    }
  }

  /** The bands after the peak pass. */
  function PeakBands(bands: seq<real>, peaks: seq<real>): (r: seq<real>)
    requires |peaks| == |bands|
    ensures |r| == |bands|
  {
    seq(|bands|, i requires 0 <= i < |bands| => PeakStep(bands[i], peaks[i]).0)
  }

  /** The peaks after the peak pass. */
  function PeakValues(bands: seq<real>, peaks: seq<real>): (r: seq<real>)
    requires |peaks| == |bands|
    ensures |r| == |bands|
  {
    seq(|bands|, i requires 0 <= i < |bands| => PeakStep(bands[i], peaks[i]).1)
  }

  /**
   * The peak pass keeps bands and peaks in [0, 1], leaves every band at
   * least its peak, and raises a peak only to its band's value.
   */
  lemma PeakPassShape(bands: seq<real>, peaks: seq<real>)
    requires IsFrame(bands) && IsFrame(peaks)
    ensures IsFrame(PeakBands(bands, peaks)) && IsFrame(PeakValues(bands, peaks))
    ensures forall i :: 0 <= i < BandCount ==> PeakBands(bands, peaks)[i] >= PeakValues(bands, peaks)[i]
    ensures forall i :: 0 <= i < BandCount && PeakValues(bands, peaks)[i] > peaks[i] ==>
      PeakValues(bands, peaks)[i] == bands[i]
  {
    forall i | 0 <= i < BandCount
      ensures InUnit(PeakBands(bands, peaks)[i]) && InUnit(PeakValues(bands, peaks)[i])
      ensures PeakBands(bands, peaks)[i] >= PeakValues(bands, peaks)[i]
      ensures PeakValues(bands, peaks)[i] > peaks[i] ==> PeakValues(bands, peaks)[i] == bands[i]
    {
      PeakStepShape(bands[i], peaks[i]);
    }
  }

  /** The bands after a frame without analysable audio. */
  function Faded(bands: seq<real>): (r: seq<real>)
    ensures |r| == |bands|
  {
    seq(|bands|, i requires 0 <= i < |bands| => bands[i] * FadeFactor)
  }

  lemma FadedIsFrame(bands: seq<real>)
    requires IsFrame(bands)
    ensures IsFrame(Faded(bands))
    ensures forall i :: 0 <= i < BandCount ==> Faded(bands)[i] <= bands[i]
  {
    forall i | 0 <= i < BandCount ensures InUnit(Faded(bands)[i]) && Faded(bands)[i] <= bands[i] {
      FadeShrinks(bands[i]);
    }
  }

  /** The analyser's state: bands, peaks and the frame history. */
  datatype Analysis = Analysis(bands: seq<real>, peaks: seq<real>, history: seq<seq<real>>)

  predicate WellFormed(a: Analysis) {
    IsFrame(a.bands) && IsFrame(a.peaks) && |a.history| <= HistoryLength && AllFrames(a.history)
  }

  /** The history after the smoothing pass has been pushed. */
  function PushedHistory(a: Analysis, mags: seq<real>): seq<seq<real>>
    requires AllNonNegative(mags)
  {
    Push(a.history, Smoothed(a.bands, mags))
  }

  /** The bands after smoothing and, with more than one history entry, averaging. */
  function AveragedBands(a: Analysis, mags: seq<real>): (r: seq<real>)
    requires WellFormed(a) && AllNonNegative(mags)
    ensures |r| == BandCount
  {
    var h := PushedHistory(a, mags);
    SmoothedShape(a.bands, mags);
    assert AllFrames(h);
    if |h| > 1 then AverageFrame(h) else Smoothed(a.bands, mags)
  }

  /** One analysis step on the band magnitudes of a chunk. */
  function Analyze(a: Analysis, mags: seq<real>): Analysis
    requires WellFormed(a) && AllNonNegative(mags)
  {
    var b := AveragedBands(a, mags);
    Analysis(PeakBands(b, a.peaks), PeakValues(b, a.peaks), PushedHistory(a, mags))
  }

  /**
   * An analysis step keeps every band, peak and history entry a 64-band
   * vector in [0, 1], keeps at most eight history entries with the newly
   * smoothed bands last, and leaves every band at least its peak.
   */
  lemma AnalyzeShape(a: Analysis, mags: seq<real>)
    requires WellFormed(a) && AllNonNegative(mags)
    ensures WellFormed(Analyze(a, mags))
    ensures Analyze(a, mags).history[|Analyze(a, mags).history| - 1] == Smoothed(a.bands, mags)
    ensures forall i :: 0 <= i < BandCount ==> Analyze(a, mags).bands[i] >= Analyze(a, mags).peaks[i]
  {
    SmoothedShape(a.bands, mags);
    var h := PushedHistory(a, mags);
    assert AllFrames(h);
    var b := AveragedBands(a, mags);
    if |h| > 1 { AverageFrameIsFrame(h); }
    PeakPassShape(b, a.peaks);
  }
}
