/** The voice component's `encode` and `decode`: bytes to a base64 string through a
    binary string and `btoa`, and back through `atob` and a binary string. */
module Codec {
  import opened Basics
  import opened BinaryString
  import Base64

  /** `encode`: the binary string of the bytes, encoded by `btoa`. The binary string
      never holds a code above 0xFF, so `btoa` never throws here. */
  function Encode(bytes: seq<Byte>): (s: string)
    ensures s == Base64.Encode(bytes)
  {
    ToBytesFromBytes(bytes);
    Base64.Btoa(FromBytes(bytes)).value
  }

  /** `encode` yields four characters per started group of three bytes. */
  lemma EncodeLength(bytes: seq<Byte>)
    ensures |Encode(bytes)| == 4 * ((|bytes| + 2) / 3)
  {
    Base64.EncodeLength(bytes);
  }

  /** `decode`: `atob`, then one byte per character of the binary string. Throws
      exactly when `atob` throws. */
  function Decode(base64: string): (r: Result<seq<Byte>>)
    ensures r == Base64.Decode(base64)
    ensures r.Ok? <==> Base64.Atob(base64).Ok?
  {
    match Base64.Atob(base64)
    case Ok(binary) =>
      ToBytesFromBytes(Base64.Decode(base64).value);
      Ok(ToBytes(binary))
    case Err(e) => Err(e)
  }

  /** `decode` yields one byte per character of the binary string `atob` returns,
      byte i being the code of character i. */
  lemma DecodeCharCodes(base64: string)
    requires Base64.Atob(base64).Ok?
    ensures |Decode(base64).value| == |Base64.Atob(base64).value|
    ensures forall i :: 0 <= i < |Decode(base64).value| ==>
      Decode(base64).value[i] == Base64.Atob(base64).value[i] as int
  {
  }

  /** Whatever bytes `encode` is given, `decode` gives them back. */
  lemma DecodeEncode(bytes: seq<Byte>)
    ensures Decode(Encode(bytes)) == Ok(bytes)
  {
    Base64.DecodeEncode(bytes);
  }
}
