/** 16-bit PCM as the voice component and the one-shot player handle it: an
    `Int16Array` laid over a byte buffer (little-endian), the conversion of a
    sample to a float in [-1, 1), and ECMAScript's ToInt16 conversion that the
    assignment `int16[i] = x` performs. */
module Pcm {
  import opened Basics

  /** Full scale of a 16-bit sample: the divisor on playback, the factor on capture. */
  const FullScale: int := 32768

  predicate IsInt16(v: int) {
    -FullScale <= v < FullScale
  }

  predicate AllInt16(samples: seq<int>) {
    forall k :: 0 <= k < |samples| ==> IsInt16(samples[k])
  }

  /** The signed sample stored little-endian in bytes `lo`, `hi`. */
  function Int16LE(lo: Byte, hi: Byte): (v: int)
    ensures IsInt16(v)
    ensures (v + 65536) % 65536 == lo + 256 * hi
  {
    var u := lo + 256 * hi;
    if u >= FullScale then u - 65536 else u
  }

  /** The first byte of a sample's little-endian two's-complement form. */
  function LowByte(v: int): (b: Byte)
    requires IsInt16(v)
  {
    ((v + 65536) % 65536) % 256
  }

  /** The second byte of a sample's little-endian two's-complement form. */
  function HighByte(v: int): (b: Byte)
    requires IsInt16(v)
  {
    ((v + 65536) % 65536) / 256
  }

  lemma Int16LEOfBytes(v: int)
    requires IsInt16(v)
    ensures Int16LE(LowByte(v), HighByte(v)) == v
  {
  }

  lemma BytesOfInt16LE(lo: Byte, hi: Byte)
    ensures LowByte(Int16LE(lo, hi)) == lo && HighByte(Int16LE(lo, hi)) == hi
  {
  }

  /** The samples of an `Int16Array` over `bytes`: sample k is read from bytes 2k
      and 2k+1, and a trailing odd byte belongs to no sample. */
  function Int16View(bytes: seq<Byte>): (samples: seq<int>)
    ensures 2 * |samples| <= |bytes| <= 2 * |samples| + 1
    ensures forall k :: 0 <= k < |samples| ==> samples[k] == Int16LE(bytes[2 * k], bytes[2 * k + 1])
    decreases |bytes|
  {
    if |bytes| < 2 then []
    else [Int16LE(bytes[0], bytes[1])] + Int16View(bytes[2..])
  }

  lemma Int16ViewLength(bytes: seq<Byte>)
    ensures |Int16View(bytes)| == |bytes| / 2
  {
  }

  /** The bytes of `new Uint8Array(int16.buffer)`: each sample little-endian. */
  function BytesLE(samples: seq<int>): (bytes: seq<Byte>)
    requires AllInt16(samples)
    ensures |bytes| == 2 * |samples|
    ensures forall k :: 0 <= k < |samples| ==>
      bytes[2 * k] == LowByte(samples[k]) && bytes[2 * k + 1] == HighByte(samples[k])
    decreases |samples|
  {
    if samples == [] then []
    else [LowByte(samples[0]), HighByte(samples[0])] + BytesLE(samples[1..])
  }

  /** Viewing the bytes of an `Int16Array` as an `Int16Array` gives its samples back. */
  lemma Int16ViewOfBytesLE(samples: seq<int>)
    requires AllInt16(samples)
    ensures Int16View(BytesLE(samples)) == samples
  {
    var view := Int16View(BytesLE(samples));
    forall k | 0 <= k < |samples|
      ensures view[k] == samples[k]
    {
      Int16LEOfBytes(samples[k]);
    }
  }

  /** An even-length byte buffer is exactly the bytes of its `Int16Array`. */
  lemma {:induction false} BytesLEOfInt16View(bytes: seq<Byte>)
    requires |bytes| % 2 == 0
    ensures BytesLE(Int16View(bytes)) == bytes
    decreases |bytes|
  {
    if |bytes| >= 2 {
      var v := Int16LE(bytes[0], bytes[1]);
      assert Int16View(bytes) == [v] + Int16View(bytes[2..]);
      assert ([v] + Int16View(bytes[2..]))[1..] == Int16View(bytes[2..]);
      BytesOfInt16LE(bytes[0], bytes[1]);
      BytesLEOfInt16View(bytes[2..]);
      assert bytes == [bytes[0], bytes[1]] + bytes[2..];
    }
  }

  /** `sample / 32768.0`. */
  function ToFloat(v: int): (x: real)
    requires IsInt16(v)
    ensures -1.0 <= x < 1.0
    ensures x * FullScale as real == v as real
  {
    v as real / FullScale as real
  }

  lemma ToFloatStrictlyMonotone(v: int, w: int)
    requires IsInt16(v) && IsInt16(w) && v < w
    ensures ToFloat(v) < ToFloat(w)
  {
  }

  /** Rounding toward zero, the first step of ECMAScript ToInt16. */
  function Truncate(x: real): (t: int)
    ensures x >= 0.0 ==> 0 <= t && t as real <= x < t as real + 1.0
    ensures x < 0.0 ==> t <= 0 && t as real - 1.0 < x <= t as real
  {
    if x >= 0.0 then x.Floor else -((-x).Floor)
  }

  /** ECMAScript ToInt16 of a finite number: truncate toward zero, then wrap modulo
      2^16 into [-32768, 32767]. Out-of-range values wrap; nothing is clamped. */
  function ToInt16(x: real): (v: int)
    ensures IsInt16(v)
    ensures (v - Truncate(x)) % 65536 == 0
  {
    (Truncate(x) + FullScale) % 65536 - FullScale
  }

  /** Inside the 16-bit range ToInt16 is plain truncation. */
  lemma ToInt16InRange(x: real)
    requires IsInt16(Truncate(x))
    ensures ToInt16(x) == Truncate(x)
  {
  }

  /** Full-scale capture wraps: an input sample of 1.0 is sent as -32768. */
  lemma ToInt16OfFullScale()
    ensures ToInt16(1.0 * FullScale as real) == -FullScale
  {
    assert Truncate(32768.0) == 32768;
  }

  /** A capture sample strictly inside (-1, 1) survives the round trip through
      16 bits to within one quantisation step, always rounded toward zero. */
  lemma CaptureQuantisation(s: real)
    requires -1.0 < s < 1.0
    ensures ToInt16(s * FullScale as real) == Truncate(s * FullScale as real)
    ensures s >= 0.0 ==> 0.0 <= s - ToFloat(ToInt16(s * FullScale as real)) < 1.0 / FullScale as real
    ensures s < 0.0 ==> 0.0 <= ToFloat(ToInt16(s * FullScale as real)) - s < 1.0 / FullScale as real
  {
    var x := s * FullScale as real;
    var t := Truncate(x);
    assert IsInt16(t);
    ToInt16InRange(x);
  }
}
