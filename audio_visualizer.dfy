/**
 * The speaking visualizer: on each timer tick it maps the elapsed
 * milliseconds to a sample position, analyses the next frame of samples
 * or fades the bands, and keeps 64 band levels, 64 peak-hold values and a
 * bounded history of recent band vectors.  The Fourier transform is a
 * parameter (`spectrum`), the stopwatch reading is a parameter, and the
 * decoded file comes from the WAV decoders.
 */
module AudioVisualizer {
  import opened Common
  import opened BandAnalysis
  import opened WavDecoder

  /** What one tick does with the bands. */
  datatype TickAction =
    | AnalyseChunk(chunk: seq<Sample>) // a frame of more than 32 samples to analyse
    | FadeBands                        // past the end, or too short a frame
    | IdleBands                        // no audio: the idle animation

  /** The whole part of elapsed seconds times the rate. */
  function SamplePos(elapsedMs: nat, rate: nat): nat {
    elapsedMs * rate / 1000
  }

  /** The choice `update_animation` makes for an active visualizer. */
  function ChooseAction(data: Option<seq<Sample>>, rate: nat, perFrame: nat, elapsedMs: nat): TickAction {
    if data.Some? && |data.value| > 0 then
      var pos := SamplePos(elapsedMs, rate);
      if pos < |data.value| then
        var end := Min(pos + perFrame, |data.value|);
        var chunk := data.value[pos..end];
        if |chunk| > 32 then AnalyseChunk(chunk) else FadeBands
      else FadeBands
    else IdleBands
  }

  /**
   * A chunk is the run of at most one frame of samples starting at the
   * sample position, and holds more than 32 of them; fading happens
   * exactly when the position is past the end or fewer than 33 samples
   * remain in the frame; idling exactly when there is no audio.
   */
  lemma ChooseActionShape(data: Option<seq<Sample>>, rate: nat, perFrame: nat, elapsedMs: nat)
    ensures var act := ChooseAction(data, rate, perFrame, elapsedMs);
      var pos := SamplePos(elapsedMs, rate);
      && (act.IdleBands? <==> data.None? || data.value == [])
      && (act.AnalyseChunk? ==>
            32 < |act.chunk| <= perFrame && pos + |act.chunk| <= |data.value| &&
            act.chunk == data.value[pos..pos + |act.chunk|])
      && (act.FadeBands? <==>
            data.Some? && data.value != [] &&
            (pos >= |data.value| || Min(pos + perFrame, |data.value|) - pos <= 32))
  {
  }

  /** Samples per 60th of a second, as the whole part of rate / 60. */
  function SamplesPerFrame(rate: nat): nat {
    rate / 60
  }

  class SpeakingVisualizer {
    var active: bool
    var audioData: Option<seq<Sample>>
    var sampleRate: nat
    var samplesPerFrame: nat
    var frameCount: nat
    var bands: array<real>
    var peaks: array<real>
    var history: seq<seq<real>>

    /** The analyser state the arrays and the history hold. */
    function State(): Analysis
      reads this, bands, peaks
    {
      Analysis(bands[..], peaks[..], history)
    }

    ghost predicate Valid()
      reads this, bands, peaks
    {
      bands != peaks && WellFormed(State())
    }

    constructor()
      ensures Valid() && fresh(bands) && fresh(peaks)
      ensures !active && audioData.None? && sampleRate == 44100 && samplesPerFrame == 735
      ensures frameCount == 0 && history == []
      ensures forall i :: 0 <= i < BandCount ==> bands[i] == 0.0 && peaks[i] == 0.0
    {
      active := false;
      audioData := None;
      sampleRate := 44100;
      samplesPerFrame := 735;
      frameCount := 0;
      bands := new real[BandCount](_ => 0.0);
      peaks := new real[BandCount](_ => 0.0);
      history := [];
    }

    /**
     * `set_audio_data`: decode the file (the `wave` module's frames if it
     * could open the file and they are 16-bit, else the manual reader on
     * the raw bytes) and start the animation.  A rate of 0 fails when the
     * duration is computed, after the rate has been stored.
     */
    method SetAudioData(wave: Option<WaveFrames>, raw: seq<byte>)
      modifies this`audioData, this`sampleRate, this`samplesPerFrame, this`frameCount, this`active
      ensures Decode(wave, raw).Err? ==>
        audioData.None? && unchanged(this`sampleRate, this`samplesPerFrame, this`frameCount, this`active)
      ensures Decode(wave, raw).Ok? && Decode(wave, raw).value.rate == 0 ==>
        audioData.None? && sampleRate == 0 && unchanged(this`samplesPerFrame, this`frameCount, this`active)
      ensures Decode(wave, raw).Ok? && Decode(wave, raw).value.rate > 0 ==>
        var a := Decode(wave, raw).value;
        audioData == Some(a.samples) && sampleRate == a.rate &&
        samplesPerFrame == SamplesPerFrame(a.rate) && frameCount == 0 && active
    {
      audioData := None;
      var decoded := Decode(wave, raw);
      if decoded.Err? {
        return;
      }
      sampleRate := decoded.value.rate;
      if sampleRate == 0 {
        return;
      }
      audioData := Some(decoded.value.samples);
      samplesPerFrame := SamplesPerFrame(sampleRate);
      frameCount := 0;
      active := true;
    }

    /** `start`: activate and clear the bands. */
    method Start()
      requires Valid()
      modifies this`active, this`frameCount, bands
      ensures Valid() && active && frameCount == 0
      ensures forall i :: 0 <= i < BandCount ==> bands[i] == 0.0
    {
      active := true;
      frameCount := 0;
      for i := 0 to BandCount
        invariant active && frameCount == 0
        invariant forall k :: 0 <= k < i ==> bands[k] == 0.0
        invariant forall k :: i <= k < BandCount ==> bands[k] == old(bands[k])
      {
        bands[i] := 0.0;
      }
      assert forall k :: 0 <= k < BandCount ==> InUnit(bands[..][k]);
    }

    /** `stop`: deactivate and drop the audio. */
    method Stop()
      modifies this`active, this`audioData
      ensures !active && audioData.None?
    {
      active := false;
      audioData := None;
    }

    /** `fade_out_bands`: every band shrinks by the fade factor. */
    method FadeOutBands()
      requires Valid()
      modifies bands
      ensures bands[..] == Faded(old(bands[..]))
      ensures Valid()
    {
      ghost var b0 := bands[..];
      for i := 0 to BandCount
        invariant forall k :: 0 <= k < i ==> bands[k] == b0[k] * FadeFactor
        invariant forall k :: i <= k < BandCount ==> bands[k] == b0[k]
      {
        bands[i] := bands[i] * FadeFactor;
      }
      FadedIsFrame(b0);
    }

    /** The smoothing loop: each band with a bin range blends towards its target. */
    method SmoothBands(mags: seq<real>)
      requires bands.Length == BandCount && AllNonNegative(mags)
      modifies bands
      ensures bands[..] == Smoothed(old(bands[..]), mags)
    {
      ghost var b0 := bands[..];
      var numBins := |mags|;
      for i := 0 to BandCount
        invariant forall k :: 0 <= k < i ==> bands[k] == SmoothBand(b0[k], Target(mags, k))
        invariant forall k :: i <= k < BandCount ==> bands[k] == b0[k]
      {
        var lo := Boundary(i, numBins);
        var hi := Boundary(i + 1, numBins);
        if lo < numBins && hi > lo {
          TargetRange(mags, i);
          MeanAtLeast(mags[lo..hi], 0.0);
          var normalized := Normalize(Mean(mags[lo..hi]));
          if normalized > bands[i] {
            bands[i] := bands[i] * 0.2 + normalized * 0.8;
          } else {
            bands[i] := bands[i] * 0.75 + normalized * 0.25;
          }
        }
      }
    }

    /** The averaging loop: every band becomes its weighted average over the history. */
    method AverageBands()
      requires bands.Length == BandCount && 1 < |history| && AllFrames(history)
      modifies bands
      ensures bands[..] == AverageFrame(history)
    {
      for i := 0 to BandCount
        invariant forall k :: 0 <= k < i ==> bands[k] == Averaged(history, k)
      {
        bands[i] := Averaged(history, i);
      }
    }

    /** The peak loop: raise a peak to its band, or decay it and floor the band at it. */
    method HoldPeaks()
      requires bands.Length == BandCount && peaks.Length == BandCount && bands != peaks
      modifies bands, peaks
      ensures bands[..] == PeakBands(old(bands[..]), old(peaks[..]))
      ensures peaks[..] == PeakValues(old(bands[..]), old(peaks[..]))
    {
      ghost var b0, p0 := bands[..], peaks[..];
      for i := 0 to BandCount
        invariant forall k :: 0 <= k < i ==> bands[k] == PeakStep(b0[k], p0[k]).0 && peaks[k] == PeakStep(b0[k], p0[k]).1
        invariant forall k :: i <= k < BandCount ==> bands[k] == b0[k] && peaks[k] == p0[k]
      {
        if bands[i] > peaks[i] {
          peaks[i] := bands[i];
        } else {
          peaks[i] := peaks[i] * PeakDecay;
          bands[i] := if bands[i] >= peaks[i] then bands[i] else peaks[i];
        }
      }
    }

    /** `analyze_frequencies` after the transform, on the band magnitudes `mags`. */
    method AnalyzeFrequencies(mags: seq<real>)
      requires Valid() && AllNonNegative(mags)
      modifies bands, peaks, this`history
      ensures State() == Analyze(old(State()), mags)
      ensures Valid()
    {
      ghost var s0 := State();
      SmoothBands(mags);
      history := Push(history, bands[..]);
      assert history == PushedHistory(s0, mags);
      assert AllFrames(history) by { SmoothedShape(s0.bands, mags); }
      if |history| > 1 {
        AverageBands();
      }
      assert bands[..] == AveragedBands(s0, mags);
      HoldPeaks();
      AnalyzeShape(s0, mags);
    }

    /** The idle animation: every band takes the given level. */
    method IdleLevels(levels: seq<real>)
      requires Valid() && |levels| == BandCount
      requires forall i :: 0 <= i < |levels| ==> 0.0 <= levels[i] <= 0.04
      modifies bands
      ensures bands[..] == levels
      ensures Valid()
    {
      for i := 0 to BandCount
        invariant forall k :: 0 <= k < i ==> bands[k] == levels[k]
      {
        bands[i] := levels[i];
      }
    }

    /**
     * `update_animation`: count the tick; if active, analyse the frame at
     * the elapsed time, fade, or show the idle levels.
     */
    method UpdateAnimation(elapsedMs: nat, spectrum: seq<Sample> -> seq<real>, idle: seq<real>)
      requires Valid()
      requires forall c :: AllNonNegative(spectrum(c))
      requires |idle| == BandCount && forall i :: 0 <= i < |idle| ==> 0.0 <= idle[i] <= 0.04
      modifies this`frameCount, bands, peaks, this`history
      ensures Valid() && frameCount == old(frameCount) + 1
      ensures !active ==> unchanged(bands, peaks) && history == old(history)
      ensures active ==>
        match ChooseAction(audioData, sampleRate, samplesPerFrame, elapsedMs)
        case AnalyseChunk(chunk) => State() == Analyze(old(State()), spectrum(chunk))
        case FadeBands => bands[..] == Faded(old(bands[..])) && unchanged(peaks) && history == old(history)
        case IdleBands => bands[..] == idle && unchanged(peaks) && history == old(history)
    {
      frameCount := frameCount + 1;
      if !active {
        return;
      }
      match ChooseAction(audioData, sampleRate, samplesPerFrame, elapsedMs)
      case AnalyseChunk(chunk) => AnalyzeFrequencies(spectrum(chunk));
      case FadeBands => FadeOutBands();
      case IdleBands => IdleLevels(idle);
    }
  }
}
