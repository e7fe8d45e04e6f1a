/** The microphone path of the voice component: each block of float samples from
    the script processor becomes 16-bit PCM, base64-encoded and tagged with its
    format, ready for `sendRealtimeInput`. */
module Capture {
  import opened Basics
  import opened Pcm
  import Codec
  import AudioData

  /** The `media` argument of `sendRealtimeInput`. */
  datatype Blob = Blob(data: string, mimeType: string)

  /** Raw little-endian 16-bit PCM at the input context's 16 kHz. */
  const CaptureMime: string := "audio/pcm;rate=16000"

  /** `int16[i] = inputData[i] * 32768` for every sample of the block. */
  function Quantise(input: seq<real>): (samples: seq<int>)
    ensures AllInt16(samples) && |samples| == |input|
    ensures forall i :: 0 <= i < |input| ==>
      (samples[i] - Truncate(input[i] * FullScale as real)) % 65536 == 0
  {
    seq(|input|, i requires 0 <= i < |input| => ToInt16(input[i] * FullScale as real))
  }

  /** One `onaudioprocess` block as sent: the bytes of the `Int16Array`, encoded. */
  function CaptureChunk(input: seq<real>): (blob: Blob)
    ensures blob.mimeType == CaptureMime
    ensures Codec.Decode(blob.data).Ok? && |Codec.Decode(blob.data).value| == 2 * |input|
  {
    var bytes := BytesLE(Quantise(input));
    Codec.DecodeEncode(bytes);
    Blob(Codec.Encode(bytes), CaptureMime)
  }

  /** The receiver of a block, decoding its data and viewing it as 16-bit samples,
      finds exactly the quantised block. */
  lemma CaptureChunkSamples(input: seq<real>)
    ensures Int16View(Codec.Decode(CaptureChunk(input).data).value) == Quantise(input)
  {
    var samples := Quantise(input);
    var bytes := BytesLE(samples);
    assert CaptureChunk(input).data == Codec.Encode(bytes);
    Codec.DecodeEncode(bytes);
    Int16ViewOfBytesLE(samples);
  }

  /** Sample i of a quantised block is `s * 32768` under ToInt16: truncated toward
      zero and wrapped modulo 2^16, never clamped. */
  lemma QuantiseSample(input: seq<real>, i: int)
    requires 0 <= i < |input|
    ensures |Quantise(input)| == |input|
    ensures Quantise(input)[i] == ToInt16(input[i] * FullScale as real)
    ensures IsInt16(Truncate(input[i] * FullScale as real)) ==> Quantise(input)[i] == Truncate(input[i] * FullScale as real)
  {
    if IsInt16(Truncate(input[i] * FullScale as real)) {
      ToInt16InRange(input[i] * FullScale as real);
    }
  }

  /** A block of length l is sent as 4 * ceil(2l / 3) base64 characters. */
  lemma CaptureChunkLength(input: seq<real>)
    ensures |CaptureChunk(input).data| == 4 * ((2 * |input| + 2) / 3)
  {
    Codec.EncodeLength(BytesLE(Quantise(input)));
  }

  lemma SampleError(input: seq<real>, i: int)
    requires 0 <= i < |input| && -1.0 < input[i] < 1.0
    ensures -1.0 / FullScale as real < input[i] - ToFloat(Quantise(input)[i]) < 1.0 / FullScale as real
  {
    QuantiseSample(input, i);
    CaptureQuantisation(input[i]);
  }

  /** Bytes whose 16-bit view is a quantised block decode, as one channel, to
      floats within one quantisation step of the block. */
  lemma DecodedBlockSample(input: seq<real>, bytes: seq<Byte>, rate: real, i: int)
    requires 0 <= i < |input| && -1.0 < input[i] < 1.0
    requires |bytes| == 2 * |input| && Int16View(bytes) == Quantise(input)
    requires AudioData.DecodeAudioData(bytes, rate, 1).Ok?
    ensures i < AudioData.DecodeAudioData(bytes, rate, 1).value.length
    ensures -1.0 / FullScale as real < input[i] - AudioData.DecodeAudioData(bytes, rate, 1).value.channels[0][i] < 1.0 / FullScale as real
  {
    Int16ViewLength(bytes);
    AudioData.DecodeAudioDataSample(bytes, rate, 1, 0, i);
    SampleError(input, i);
  }

  /** Decoded as the model's own audio would be (one channel), a non-empty block
      comes back sample by sample within one quantisation step of what the
      microphone delivered, provided every sample lies strictly inside (-1, 1). */
  lemma CaptureThenDecode(input: seq<real>, rate: real)
    requires |input| > 0 && AudioData.ValidRate(rate)
    requires forall i :: 0 <= i < |input| ==> -1.0 < input[i] < 1.0
    ensures AudioData.DecodeAudioData(Codec.Decode(CaptureChunk(input).data).value, rate, 1).Ok?
    ensures forall i :: 0 <= i < |input| ==>
      var x := AudioData.DecodeAudioData(Codec.Decode(CaptureChunk(input).data).value, rate, 1).value.channels[0][i];
      -1.0 / FullScale as real < input[i] - x < 1.0 / FullScale as real
  {
    var bytes := Codec.Decode(CaptureChunk(input).data).value;
    CaptureChunkSamples(input);
    assert |bytes| == 2 * |input|;
    assert |bytes| % 2 == 0 && |bytes| / 2 == |input| && |input| / 1 == |input|;
    assert AudioData.DecodeAudioData(bytes, rate, 1).Ok?;
    forall i | 0 <= i < |input|
      ensures -1.0 / FullScale as real < input[i] - AudioData.DecodeAudioData(bytes, rate, 1).value.channels[0][i] < 1.0 / FullScale as real
    {
      DecodedBlockSample(input, bytes, rate, i);
    }
  }
}
