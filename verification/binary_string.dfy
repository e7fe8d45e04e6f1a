/** Binary strings: JavaScript strings used as byte arrays, one character per
    byte, every character code at most 0xFF. `btoa` consumes them, `atob`
    produces them, and the voice component converts them to and from a
    `Uint8Array` with a character-by-character loop. */
module BinaryString {
  import opened Basics

  predicate IsBinary(s: string) {
    forall i :: 0 <= i < |s| ==> s[i] as int < 256
  }

  /** The loop of `encode`: `binary += String.fromCharCode(bytes[i])` for each byte. */
  function FromBytes(bytes: seq<Byte>): (s: string)
    ensures |s| == |bytes| && IsBinary(s)
    ensures forall i :: 0 <= i < |bytes| ==> s[i] as int == bytes[i]
    decreases |bytes|
  {
    if |bytes| == 0 then ""
    else FromBytes(bytes[..|bytes| - 1]) + [bytes[|bytes| - 1] as char]
  }

  /** The loop of `decode`: `bytes[i] = binaryString.charCodeAt(i)`; storing into a
      `Uint8Array` keeps the code modulo 256. */
  function ToBytes(s: string): (bytes: seq<Byte>)
    ensures |bytes| == |s|
    ensures forall i :: 0 <= i < |s| ==> bytes[i] == s[i] as int % 256
    ensures IsBinary(s) ==> forall i :: 0 <= i < |s| ==> bytes[i] == s[i] as int
    decreases |s|
  {
    if |s| == 0 then []
    else ToBytes(s[..|s| - 1]) + [s[|s| - 1] as int % 256]
  }

  lemma ToBytesFromBytes(bytes: seq<Byte>)
    ensures ToBytes(FromBytes(bytes)) == bytes
  {
  }

  lemma FromBytesToBytes(s: string)
    requires IsBinary(s)
    ensures FromBytes(ToBytes(s)) == s
  {
  }
}
