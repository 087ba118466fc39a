/**
 * The decoders that turn a WAV file into the visualizer's sample list:
 * the strict reader (the frames the standard `wave` module hands over,
 * 16-bit only) and the manual fallback that reads the RIFF/WAVE header
 * at fixed little-endian offsets, finds the `data` chunk and converts
 * 16-bit or 32-bit samples, keeping one channel out of `channels`.
 */
module WavDecoder {
  import opened Common

  type byte = b: int | 0 <= b < 256

  /** A decoded sample: PCM scaled to [-1, 1), or an IEEE float kept by its bit pattern. */
  datatype Sample = Pcm(value: real) | Float32(bits: nat)

  datatype DecodeError =
    | HeaderTooShort          // a header field lies past the end of the file
    | OffsetPastEnd           // the payload would start past the end of the file
    | RaggedPayload           // the payload is not a whole number of samples
    | UnsupportedWidth(n: nat) // a sample width other than 16 or 32 bits

  /** What a decoder produces: the sample rate and the samples. */
  datatype Audio = Audio(rate: nat, samples: seq<Sample>)

  // ---------------------------------------------------------------------
  // Little-endian fields
  // ---------------------------------------------------------------------

  function LE16(raw: seq<byte>, off: nat): (r: nat)
    requires off + 2 <= |raw|
    ensures r < 0x1_0000
  {
    (raw[off] as int) + 256 * (raw[off + 1] as int)
  }

  function LE32(raw: seq<byte>, off: nat): (r: nat)
    requires off + 4 <= |raw|
    ensures r < 0x1_0000_0000
  {
    LE16(raw, off) + 0x1_0000 * LE16(raw, off + 2)
  }

  /** The two bytes of a 16-bit field, low byte first. */
  function Put16(v: nat): (r: seq<byte>)
    requires v < 0x1_0000
    ensures |r| == 2
  {
    [v % 256, v / 256]
  }

  /** The four bytes of a 32-bit field, low byte first. */
  function Put32(v: nat): (r: seq<byte>)
    requires v < 0x1_0000_0000
    ensures |r| == 4
  {
    Put16(v % 0x1_0000) + Put16(v / 0x1_0000)
  }

  lemma Read16Put16(v: nat, pre: seq<byte>, post: seq<byte>)
    requires v < 0x1_0000
    ensures LE16(pre + Put16(v) + post, |pre|) == v
  {
    var s := pre + Put16(v) + post;
    assert s[|pre|] == v % 256 && s[|pre| + 1] == v / 256;
  }

  lemma Read32Put32(v: nat, pre: seq<byte>, post: seq<byte>)
    requires v < 0x1_0000_0000
    ensures LE32(pre + Put32(v) + post, |pre|) == v
  {
    var lo, hi := v % 0x1_0000, v / 0x1_0000;
    assert pre + Put32(v) + post == pre + Put16(lo) + (Put16(hi) + post);
    assert pre + Put32(v) + post == (pre + Put16(lo)) + Put16(hi) + post;
    Read16Put16(lo, pre, Put16(hi) + post);
    Read16Put16(hi, pre + Put16(lo), post);
  }

  // ---------------------------------------------------------------------
  // Two's-complement samples
  // ---------------------------------------------------------------------

  /** A little-endian 16-bit two's-complement value. */
  function Int16(lo: byte, hi: byte): (v: int)
    ensures -0x8000 <= v < 0x8000
  {
    var u := (lo as int) + 256 * (hi as int);
    if u >= 0x8000 then u - 0x1_0000 else u
  }

  /** A little-endian 32-bit two's-complement value. */
  function Int32(raw: seq<byte>, off: nat): (v: int)
    requires off + 4 <= |raw|
    ensures -0x8000_0000 <= v < 0x8000_0000
  {
    var u := LE32(raw, off);
    if u >= 0x8000_0000 then u - 0x1_0000_0000 else u
  }

  /** The two bytes that store a 16-bit signed value. */
  function PutInt16(v: int): (r: seq<byte>)
    requires -0x8000 <= v < 0x8000
    ensures |r| == 2
  {
    Put16(if v < 0 then v + 0x1_0000 else v)
  }

  lemma Int16PutInt16(v: int)
    requires -0x8000 <= v < 0x8000
    ensures Int16(PutInt16(v)[0], PutInt16(v)[1]) == v
  {
    Read16Put16(if v < 0 then v + 0x1_0000 else v, [], []);
    assert [] + PutInt16(v) + [] == PutInt16(v);
  }

  /** A 16-bit sample scaled by 1/32768 lies in [-1, 1). */
  lemma ScaledSixteen(lo: byte, hi: byte)
    ensures -1.0 <= (Int16(lo, hi) as real) / 32768.0 < 1.0
  {
  }

  /** A 32-bit integer sample scaled by 1/2^31 lies in [-1, 1). */
  lemma ScaledThirtyTwo(raw: seq<byte>, off: nat)
    requires off + 4 <= |raw|
    ensures -1.0 <= (Int32(raw, off) as real) / 2147483648.0 < 1.0
  {
  }

  /** The 16-bit samples of `raw` from `off` on, each divided by 32768. */
  function Samples16(raw: seq<byte>, off: nat): (r: seq<Sample>)
    requires off <= |raw|
    ensures |r| == (|raw| - off) / 2
  {
    seq((|raw| - off) / 2, i requires 0 <= i < (|raw| - off) / 2 =>
      Pcm((Int16(raw[off + 2 * i], raw[off + 2 * i + 1]) as real) / 32768.0))
  }

  /** The 32-bit samples of `raw` from `off` on: floats kept as bit patterns, integers divided by 2^31. */
  function Samples32(raw: seq<byte>, off: nat, isFloat: bool): (r: seq<Sample>)
    requires off <= |raw|
    ensures |r| == (|raw| - off) / 4
  {
    seq((|raw| - off) / 4, i requires 0 <= i < (|raw| - off) / 4 =>
      if isFloat then Float32(LE32(raw, off + 4 * i))
      else Pcm((Int32(raw, off + 4 * i) as real) / 2147483648.0))
  }

  // ---------------------------------------------------------------------
  // Chunk search and channel selection
  // ---------------------------------------------------------------------

  /** The bytes of the ASCII tag `data`. */
  const DataTag: seq<byte> := [100, 97, 116, 97]

  predicate TagAt(raw: seq<byte>, i: nat) {
    i + 4 <= |raw| && raw[i..i + 4] == DataTag
  }

  /** The first position at or after `from` where `data` occurs. */
  function FindTag(raw: seq<byte>, from: nat): (r: Option<nat>)
    decreases |raw| - from
  {
    if from + 4 > |raw| then None
    else if raw[from..from + 4] == DataTag then Some(from)
    else FindTag(raw, from + 1)
  }

  /** FindTag reports the first occurrence, or None when there is none. */
  lemma {:induction false} FindTagFirst(raw: seq<byte>, from: nat)
    ensures FindTag(raw, from).Some? ==>
      var i := FindTag(raw, from).value;
      from <= i && TagAt(raw, i) && forall k :: from <= k < i ==> !TagAt(raw, k)
    ensures FindTag(raw, from).None? ==> forall k :: from <= k ==> !TagAt(raw, k)
    decreases |raw| - from
  {
    if from + 4 <= |raw| && raw[from..from + 4] != DataTag {
      FindTagFirst(raw, from + 1);
    }
  }

  /** Where the samples start: eight bytes past the first `data` tag (tag and size), else byte 44. */
  function DataOffset(raw: seq<byte>): nat {
    match FindTag(raw, 0)
    case Some(i) => i + 8
    case None => 44
  }

  /** `samples[::channels]` for more than one channel: index 0, channels, 2 * channels, ... */
  function Downmix(samples: seq<Sample>, channels: nat): (r: seq<Sample>)
  {
    if channels > 1 then
      seq((|samples| + channels - 1) / channels, i requires 0 <= i < (|samples| + channels - 1) / channels =>
        MulBound(i, channels, |samples|); samples[i * channels])
    else samples
  }

  lemma MulBound(i: nat, c: nat, n: nat)
    requires 1 < c && i < (n + c - 1) / c
    ensures i * c < n
  {
    assert (i + 1) * c <= n + c - 1 by {
      var q := (n + c - 1) / c;
      assert q * c <= n + c - 1;
      assert (i + 1) * c <= q * c;
    }
  }

  /** Downmixing keeps exactly the samples at multiples of `channels`, in order. */
  lemma DownmixShape(samples: seq<Sample>, channels: nat)
    requires 1 < channels
    ensures |Downmix(samples, channels)| * channels >= |samples|
    ensures forall i :: 0 <= i < |Downmix(samples, channels)| ==>
      i * channels < |samples| && Downmix(samples, channels)[i] == samples[i * channels]
  {
    var r := Downmix(samples, channels);
    forall i | 0 <= i < |r| ensures i * channels < |samples| && r[i] == samples[i * channels] {
      MulBound(i, channels, |samples|);
    }
    var q := (|samples| + channels - 1) / channels;
    assert q * channels + (|samples| + channels - 1) % channels == |samples| + channels - 1;
  }

  // ---------------------------------------------------------------------
  // The two readers
  // ---------------------------------------------------------------------

  /** The header fields the manual reader uses. */
  datatype Header = Header(format: nat, channels: nat, rate: nat, bits: nat)

  /** The fields at bytes 20-21, 22-23, 24-27 and 34-35, if the file reaches byte 35. */
  function ReadHeader(raw: seq<byte>): (r: Option<Header>)
    ensures r.Some? <==> |raw| >= 36
  {
    if |raw| < 36 then None
    else Some(Header(LE16(raw, 20), LE16(raw, 22), LE32(raw, 24), LE16(raw, 34)))
  }

  /** The payload converted according to the sample width and format tag. */
  function Payload(raw: seq<byte>, off: nat, h: Header): (r: Result<seq<Sample>, DecodeError>)
  {
    if off > |raw| then Err(OffsetPastEnd)
    else if h.bits == 16 then
      if (|raw| - off) % 2 != 0 then Err(RaggedPayload) else Ok(Samples16(raw, off))
    else if h.bits == 32 then
      if (|raw| - off) % 4 != 0 then Err(RaggedPayload) else Ok(Samples32(raw, off, h.format == 3))
    else Err(UnsupportedWidth(h.bits))
  }

  /** The manual fallback reader over the whole file. */
  function ManualDecode(raw: seq<byte>): (r: Result<Audio, DecodeError>)
  {
    match ReadHeader(raw)
    case None => Err(HeaderTooShort)
    case Some(h) =>
      match Payload(raw, DataOffset(raw), h)
      case Err(e) => Err(e)
      case Ok(samples) => Ok(Audio(h.rate, Downmix(samples, h.channels)))
  }

  /** The manual reader fails exactly on a short header, a bad offset, a ragged payload or an odd width. */
  lemma ManualDecodeErrors(raw: seq<byte>)
    ensures ManualDecode(raw).Err? <==>
      |raw| < 36 ||
      (var h := ReadHeader(raw).value; var off := DataOffset(raw);
       off > |raw| || (h.bits != 16 && h.bits != 32) ||
       (h.bits == 16 && (|raw| - off) % 2 != 0) || (h.bits == 32 && (|raw| - off) % 4 != 0))
  {
  }

  /** What the `wave` module hands over: frame rate, sample width in bytes and the frame bytes. */
  datatype WaveFrames = WaveFrames(rate: nat, width: nat, frames: seq<byte>)

  /** The strict reader: two-byte samples only, unpacked as whole 16-bit values. */
  function StrictDecode(w: WaveFrames): (r: Result<Audio, DecodeError>)
    ensures r.Ok? <==> w.width == 2 && |w.frames| % 2 == 0
  {
    if w.width != 2 then Err(UnsupportedWidth(8 * w.width))
    else if |w.frames| % 2 != 0 then Err(RaggedPayload)
    else Ok(Audio(w.rate, Samples16(w.frames, 0)))
  }

  /**
   * The decoder chain: the strict reader's result when the `wave` module
   * opened the file and it succeeded, else the manual reader's.
   */
  function Decode(wave: Option<WaveFrames>, raw: seq<byte>): (r: Result<Audio, DecodeError>)
    ensures wave.Some? && StrictDecode(wave.value).Ok? ==> r == StrictDecode(wave.value)
    ensures (wave.None? || StrictDecode(wave.value).Err?) ==> r == ManualDecode(raw)
  {
    if wave.Some? && StrictDecode(wave.value).Ok? then StrictDecode(wave.value) else ManualDecode(raw)
  }

  // ---------------------------------------------------------------------
  // Round trip on a canonical file
  // ---------------------------------------------------------------------

  /** The bytes of 16-bit signed samples, low byte first. */
  function PutSamples16(vs: seq<int>): (r: seq<byte>)
    requires forall i :: 0 <= i < |vs| ==> -0x8000 <= vs[i] < 0x8000
    ensures |r| == 2 * |vs|
  {
    seq(2 * |vs|, j requires 0 <= j < 2 * |vs| => PutInt16(vs[j / 2])[j % 2])
  }

  /** The fields of a `fmt ` chunk, as written. */
  datatype Format = Format(tag: nat, channels: nat, rate: nat, byteRate: nat, align: nat, bits: nat)

  predicate Fits(f: Format) {
    f.tag < 0x1_0000 && f.channels < 0x1_0000 && f.rate < 0x1_0000_0000 &&
    f.byteRate < 0x1_0000_0000 && f.align < 0x1_0000 && f.bits < 0x1_0000
  }

  /**
   * A canonical 44-byte header: "RIFF", size, "WAVE", "fmt ", 16, format
   * tag, channels, rate, byte rate, block align, bits, "data", payload size.
   */
  function CanonicalHeader(f: Format, size: nat): (r: seq<byte>)
    requires Fits(f) && size + 36 < 0x1_0000_0000
    ensures |r| == 44
  {
    var riff := Put32(size + 36);
    var tag := Put16(f.tag);
    var ch := Put16(f.channels);
    var sr := Put32(f.rate);
    var br := Put32(f.byteRate);
    var al := Put16(f.align);
    var bps := Put16(f.bits);
    var sz := Put32(size);
    [82, 73, 70, 70, riff[0], riff[1], riff[2], riff[3], 87, 65, 86, 69,
     102, 109, 116, 32, 16, 0, 0, 0, tag[0], tag[1], ch[0], ch[1],
     sr[0], sr[1], sr[2], sr[3], br[0], br[1], br[2], br[3], al[0], al[1], bps[0], bps[1],
     100, 97, 116, 97, sz[0], sz[1], sz[2], sz[3]]
  }

  lemma Read16(raw: seq<byte>, off: nat, v: nat)
    requires v < 0x1_0000 && off + 2 <= |raw|
    requires raw[off] == Put16(v)[0] && raw[off + 1] == Put16(v)[1]
    ensures LE16(raw, off) == v
  {
  }

  lemma Read32(raw: seq<byte>, off: nat, v: nat)
    requires v < 0x1_0000_0000 && off + 4 <= |raw|
    requires forall k :: 0 <= k < 4 ==> raw[off + k] == Put32(v)[k]
    ensures LE32(raw, off) == v
  {
    var p := Put32(v);
    assert raw[off] == p[0] && raw[off + 1] == p[1] && raw[off + 2] == p[2] && raw[off + 3] == p[3];
    Read16(raw, off, v % 0x1_0000);
    Read16(raw, off + 2, v / 0x1_0000);
  }

  /** The manual reader finds every field of a canonical header where it was written. */
  lemma HeaderFields(f: Format, size: nat, payload: seq<byte>)
    requires Fits(f) && size + 36 < 0x1_0000_0000
    ensures ReadHeader(CanonicalHeader(f, size) + payload) == Some(Header(f.tag, f.channels, f.rate, f.bits))
    ensures TagAt(CanonicalHeader(f, size) + payload, 36)
  {
    var raw := CanonicalHeader(f, size) + payload;
    Read16(raw, 20, f.tag);
    Read16(raw, 22, f.channels);
    Read32(raw, 24, f.rate);
    Read16(raw, 34, f.bits);
    assert raw[36..40] == DataTag;
  }

  /**
   * Mono 16-bit PCM written after a canonical header reads back as the
   * written values over 32768, whatever the byte-rate and block-align
   * fields hold, provided no `data` tag occurs inside the first 36 header
   * bytes (the reader takes the first one it sees).
   */
  lemma RoundTrip16(f: Format, vs: seq<int>, h: seq<byte>)
    requires Fits(f) && f.tag == 1 && f.channels == 1 && f.bits == 16
    requires 2 * |vs| + 36 < 0x1_0000_0000 && h == CanonicalHeader(f, 2 * |vs|)
    requires forall i :: 0 <= i < |vs| ==> -0x8000 <= vs[i] < 0x8000
    requires forall k :: 0 <= k < 36 ==> !TagAt(h, k)
    ensures ManualDecode(h + PutSamples16(vs)).Ok?
    ensures var a := ManualDecode(h + PutSamples16(vs)).value;
      a.rate == f.rate && |a.samples| == |vs| &&
      forall i :: 0 <= i < |vs| ==> a.samples[i] == Pcm((vs[i] as real) / 32768.0)
  {
    HeaderFields(f, 2 * |vs|, PutSamples16(vs));
    AfterHeader16(h, f.rate, vs);
  }

  /**
   * 16-bit samples after any 44-byte header that announces mono 16-bit PCM
   * and whose first `data` tag sits at byte 36 read back as written.
   */
  lemma AfterHeader16(h: seq<byte>, rate: nat, vs: seq<int>)
    requires forall i :: 0 <= i < |vs| ==> -0x8000 <= vs[i] < 0x8000
    requires |h| == 44 && forall k :: 0 <= k < 36 ==> !TagAt(h, k)
    requires ReadHeader(h + PutSamples16(vs)) == Some(Header(1, 1, rate, 16))
    requires TagAt(h + PutSamples16(vs), 36)
    ensures ManualDecode(h + PutSamples16(vs)) == Ok(Audio(rate, Samples16(PutSamples16(vs), 0)))
    ensures forall i :: 0 <= i < |vs| ==> Samples16(PutSamples16(vs), 0)[i] == Pcm((vs[i] as real) / 32768.0)
  {
    var p := PutSamples16(vs);
    FirstTagAt36(h, p);
    MonoSixteen(h + p, rate);
    Samples16Suffix(h, p);
    DecodePut16(vs);
  }

  /** A mono 16-bit PCM file whose payload starts at byte 44 decodes to its 16-bit samples. */
  lemma MonoSixteen(raw: seq<byte>, rate: nat)
    requires ReadHeader(raw) == Some(Header(1, 1, rate, 16))
    requires DataOffset(raw) == 44 && 44 <= |raw| && (|raw| - 44) % 2 == 0
    ensures ManualDecode(raw) == Ok(Audio(rate, Samples16(raw, 44)))
  {
  }

  /** With no `data` tag before byte 36 and one at 36, the payload starts at byte 44. */
  lemma FirstTagAt36(h: seq<byte>, p: seq<byte>)
    requires |h| == 44 && TagAt(h + p, 36)
    requires forall k :: 0 <= k < 36 ==> !TagAt(h, k)
    ensures DataOffset(h + p) == 44
  {
    var raw := h + p;
    FindTagFirst(raw, 0);
    forall k | 0 <= k < 36 ensures !TagAt(raw, k) {
      assert !TagAt(h, k);
      assert forall j :: k <= j < k + 4 ==> raw[j] == h[j];
      assert raw[k..k + 4] == h[k..k + 4];
    }
  }

  /** Reading 16-bit samples past a 44-byte header reads the payload alone. */
  lemma Samples16Suffix(h: seq<byte>, p: seq<byte>)
    requires |h| == 44
    ensures Samples16(h + p, 44) == Samples16(p, 0)
  {
    var raw := h + p;
    forall i | 0 <= i < |p| / 2 ensures Samples16(raw, 44)[i] == Samples16(p, 0)[i] {
      assert raw[44 + 2 * i] == p[2 * i] && raw[44 + 2 * i + 1] == p[2 * i + 1];
    }
  }

  /** Written 16-bit samples read back as themselves over 32768. */
  lemma DecodePut16(vs: seq<int>)
    requires forall i :: 0 <= i < |vs| ==> -0x8000 <= vs[i] < 0x8000
    ensures forall i :: 0 <= i < |vs| ==> Samples16(PutSamples16(vs), 0)[i] == Pcm((vs[i] as real) / 32768.0)
  {
    forall i | 0 <= i < |vs| ensures Samples16(PutSamples16(vs), 0)[i] == Pcm((vs[i] as real) / 32768.0) {
      DecodePut16At(vs, i);
    }
  }

  lemma DecodePut16At(vs: seq<int>, i: nat)
    requires forall i :: 0 <= i < |vs| ==> -0x8000 <= vs[i] < 0x8000
    requires i < |vs|
    ensures Samples16(PutSamples16(vs), 0)[i] == Pcm((vs[i] as real) / 32768.0)
  {
    var p := PutSamples16(vs);
    assert p[2 * i] == PutInt16(vs[i])[0] && p[2 * i + 1] == PutInt16(vs[i])[1];
    Int16PutInt16(vs[i]);
    SampleAt(p, i, vs[i]);
  }

  lemma SampleAt(p: seq<byte>, i: nat, v: int)
    requires 2 * i + 2 <= |p| && Int16(p[2 * i], p[2 * i + 1]) == v
    ensures Samples16(p, 0)[i] == Pcm((v as real) / 32768.0)
  {
  }
}
