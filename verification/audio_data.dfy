/** Turning received PCM bytes into an `AudioBuffer`: the voice component's
    `decodeAudioData` (interleaved channels, whole buffer viewed as 16-bit) and
    the decode step of the one-shot `playPcm` (mono, length truncated to whole
    samples). */
module AudioData {
  import opened Basics
  import opened Pcm

  /** An `AudioBuffer`: a sample rate, a frame count and one float array per channel. */
  datatype AudioBuffer = AudioBuffer(sampleRate: real, length: nat, channels: seq<seq<real>>)

  /** Lowest and highest sample rate `createBuffer` accepts (Web Audio API, section 1.1). */
  const MinSampleRate: real := 3000.0
  const MaxSampleRate: real := 768000.0

  /** The rate both players use for model audio. */
  const OutputSampleRate: real := 24000.0

  predicate ValidRate(rate: real) {
    MinSampleRate <= rate <= MaxSampleRate
  }

  /** What `createBuffer` guarantees: a positive rate, at least one channel, at
      least one frame, and every channel exactly `length` frames long. */
  predicate WellFormed(b: AudioBuffer) {
    ValidRate(b.sampleRate) && b.length > 0 && |b.channels| > 0 &&
    forall c :: 0 <= c < |b.channels| ==> |b.channels[c]| == b.length
  }

  /** Every stored sample lies in [-1, 1). */
  predicate InUnitRange(b: AudioBuffer) {
    forall c, i :: 0 <= c < |b.channels| && 0 <= i < |b.channels[c]| ==> -1.0 <= b.channels[c][i] < 1.0
  }

  /** `buffer.duration`, in seconds. */
  function Duration(b: AudioBuffer): (d: real)
    requires WellFormed(b)
    ensures d > 0.0
    ensures d * b.sampleRate == b.length as real
  {
    b.length as real / b.sampleRate
  }

  /** Frame `i` of a buffer with `n` interleaved channels starts at sample `i * n`:
      every sample a whole frame reads lies inside the data. */
  lemma FrameIndexInBounds(total: nat, n: nat, i: nat, c: nat)
    requires n > 0 && i < total / n && c < n
    ensures i * n + c < total
  {
    var frames := total / n;
    assert frames * n <= total;
    assert (i + 1) * n <= frames * n by {
      MultiplyMonotone(i + 1, frames, n);
    }
  }

  /** When `n` does not divide the sample count, the source's `frameCount` is a
      fraction: `createBuffer` truncates it to `total / n` frames, the copy loop
      runs once more at `i = total / n`, and that iteration's reads of the last
      channel lie past the data, its writes past the channel's end. */
  lemma {:induction false} FractionalFrameCount(total: nat, n: nat)
    requires n > 0 && total % n != 0
    ensures ((total / n) as real) < (total as real) / (n as real)
    ensures (total / n) * n + (n - 1) >= total
  {
    var q := total / n;
    var r := total % n;
    assert total == q * n + r && 0 < r < n;
    assert (q as real) * (n as real) == (q * n) as real;
    assert (q as real) * (n as real) < total as real;
    assert ((q as real) * (n as real)) / (n as real) == q as real;
  }

  lemma MultiplyMonotone(a: nat, b: nat, n: nat)
    requires a <= b
    ensures a * n <= b * n
  {
  }

  /** Channel `c` of interleaved samples with `n` channels, `frames` frames long. */
  function Deinterleave(samples: seq<int>, n: nat, c: nat, frames: nat): (channel: seq<real>)
    requires AllInt16(samples) && n > 0 && c < n && frames == |samples| / n
    ensures |channel| == frames
    ensures forall i :: 0 <= i < frames ==> -1.0 <= channel[i] < 1.0
    ensures forall i :: 0 <= i < frames ==> i * n + c < |samples|
    ensures forall i :: 0 <= i < frames ==> channel[i] * FullScale as real == samples[i * n + c] as real
  {
    AllFramesInBounds(|samples|, n, c);
    seq(frames, i requires 0 <= i < frames => ToFloat(samples[i * n + c]))
  }

  lemma AllFramesInBounds(total: nat, n: nat, c: nat)
    requires n > 0 && c < n
    ensures forall i :: 0 <= i < total / n ==> i * n + c < total
  {
    forall i | 0 <= i < total / n
      ensures i * n + c < total
    {
      FrameIndexInBounds(total, n, i, c);
    }
  }

  /** All `n` channels of interleaved samples, each `|samples| / n` frames long. */
  function Deinterleaved(samples: seq<int>, n: nat): (channels: seq<seq<real>>)
    requires AllInt16(samples) && n > 0
    ensures |channels| == n
    ensures forall c :: 0 <= c < n ==> |channels[c]| == |samples| / n
    ensures forall c, i :: 0 <= c < n && 0 <= i < |channels[c]| ==> -1.0 <= channels[c][i] < 1.0
  {
    seq(n, c requires 0 <= c < n => Deinterleave(samples, n, c, |samples| / n))
  }

  /** `decodeAudioData(data, ctx, sampleRate, numChannels)`. `new Int16Array(data.buffer)`
      throws RangeError on an odd byte count; `createBuffer` throws NotSupportedError for
      zero channels, zero frames or a rate outside its range. Otherwise channel `c`,
      frame `i` holds interleaved sample `i * numChannels + c` divided by 32768. */
  function DecodeAudioData(data: seq<Byte>, sampleRate: real, numChannels: nat): (r: Result<AudioBuffer>)
    ensures r.Err? && r.error == RangeError <==> |data| % 2 == 1
    ensures r.Ok? <==> |data| % 2 == 0 && numChannels > 0 && |data| / 2 / numChannels > 0 && ValidRate(sampleRate)
    ensures r.Ok? ==> WellFormed(r.value) && InUnitRange(r.value)
    ensures r.Ok? ==> r.value.sampleRate == sampleRate && |r.value.channels| == numChannels
    ensures r.Ok? ==> r.value.length == |data| / 2 / numChannels
  {
    if |data| % 2 == 1 then Err(RangeError)
    else
      var samples := Int16View(data);
      Int16ViewLength(data);
      if numChannels == 0 || |samples| / numChannels == 0 || !ValidRate(sampleRate) then Err(NotSupportedError)
      else Ok(AudioBuffer(sampleRate, |samples| / numChannels, Deinterleaved(samples, numChannels)))
  }

  /** The frames of a decoded buffer use every whole frame of the data: at most
      `numChannels - 1` samples are left over. */
  lemma DecodeAudioDataFrames(data: seq<Byte>, sampleRate: real, numChannels: nat)
    requires DecodeAudioData(data, sampleRate, numChannels).Ok?
    ensures var frames := DecodeAudioData(data, sampleRate, numChannels).value.length;
      frames * numChannels <= |data| / 2 < (frames + 1) * numChannels
  {
  }

  /** The value `decodeAudioData` stores at channel `c`, frame `i`: the little-endian
      16-bit sample at bytes 2k and 2k+1, k = i * numChannels + c, divided by 32768. */
  lemma DecodeAudioDataSample(data: seq<Byte>, sampleRate: real, numChannels: nat, c: nat, i: nat)
    requires DecodeAudioData(data, sampleRate, numChannels).Ok?
    requires c < numChannels && i < DecodeAudioData(data, sampleRate, numChannels).value.length
    ensures 2 * (i * numChannels + c) + 1 < |data|
    ensures DecodeAudioData(data, sampleRate, numChannels).value.channels[c][i] ==
      ToFloat(Int16LE(data[2 * (i * numChannels + c)], data[2 * (i * numChannels + c) + 1]))
  {
    var samples := Int16View(data);
    Int16ViewLength(data);
    FrameIndexInBounds(|samples|, numChannels, i, c);
  }

  /** The float samples of `playPcm`: `new Int16Array(bytes.buffer, bytes.byteOffset,
      bytes.byteLength / 2)` truncates the length, so a trailing odd byte is ignored. */
  function MonoSamples(bytes: seq<Byte>): (xs: seq<real>)
    ensures 2 * |xs| <= |bytes| <= 2 * |xs| + 1
    ensures forall i :: 0 <= i < |xs| ==> -1.0 <= xs[i] < 1.0
    ensures forall i :: 0 <= i < |xs| ==> xs[i] * FullScale as real == Int16LE(bytes[2 * i], bytes[2 * i + 1]) as real
  {
    var view := Int16View(bytes);
    seq(|view|, i requires 0 <= i < |view| => ToFloat(view[i]))
  }

  /** Sample `i` of `playPcm`'s buffer is the little-endian pair at bytes 2i, 2i+1. */
  lemma MonoSample(bytes: seq<Byte>, i: nat)
    requires i < |MonoSamples(bytes)|
    ensures 2 * i + 1 < |bytes|
    ensures MonoSamples(bytes)[i] == ToFloat(Int16LE(bytes[2 * i], bytes[2 * i + 1]))
  {
  }

  /** The buffer `playPcm` builds: `createBuffer(1, samples, 24000)` throws
      NotSupportedError when there is no whole sample. */
  function MonoBuffer(bytes: seq<Byte>): (r: Result<AudioBuffer>)
    ensures r.Ok? <==> |bytes| >= 2
    ensures r.Err? ==> r.error == NotSupportedError
    ensures r.Ok? ==> WellFormed(r.value) && InUnitRange(r.value) && |r.value.channels| == 1
    ensures r.Ok? ==> r.value.sampleRate == OutputSampleRate && r.value.length == |bytes| / 2
  {
    var xs := MonoSamples(bytes);
    if |xs| == 0 then Err(NotSupportedError)
    else Ok(AudioBuffer(OutputSampleRate, |xs|, [xs]))
  }

  /** On even-length data the two decoders agree: `decodeAudioData` with one channel
      at 24000 Hz builds the buffer `playPcm` builds. */
  lemma DecodersAgreeOnEvenData(data: seq<Byte>)
    requires |data| % 2 == 0
    ensures DecodeAudioData(data, OutputSampleRate, 1) == MonoBuffer(data)
  {
    var r := DecodeAudioData(data, OutputSampleRate, 1);
    if r.Ok? {
      var xs := MonoSamples(data);
      assert r.value.channels[0] == xs by {
        Int16ViewLength(data);
        assert |r.value.channels[0]| == |xs|;
        forall i | 0 <= i < |xs|
          ensures r.value.channels[0][i] == xs[i]
        {
          DecodeAudioDataSample(data, OutputSampleRate, 1, 0, i);
          MonoSample(data, i);
        }
      }
      assert r.value.channels == [xs];
    }
  }

  /** On odd-length data they part ways: `decodeAudioData` throws while `playPcm`
      plays every whole sample, provided there is one. */
  lemma DecodersDisagreeOnOddData(data: seq<Byte>)
    requires |data| % 2 == 1 && |data| >= 3
    ensures DecodeAudioData(data, OutputSampleRate, 1) == Err(RangeError)
    ensures MonoBuffer(data).Ok?
  {
  }
}
