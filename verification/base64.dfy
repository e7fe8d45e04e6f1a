/** The browser's `btoa` and `atob`: base64 as defined in section 4 of RFC 4648,
    decoded with the WHATWG "forgiving-base64 decode" algorithm that `atob` uses
    (ASCII whitespace removed, one or two trailing '=' dropped when the length is
    a multiple of four, unpadded input accepted, leftover low bits ignored). */
module Base64 {
  import opened Basics
  import opened BinaryString

  /** A sequence of six-bit values, one per base64 digit. */
  predicate IsSextets(vs: seq<int>) {
    forall i :: 0 <= i < |vs| ==> 0 <= vs[i] < 64
  }

  /** The digit for a six-bit value (RFC 4648 section 4, Table 1). */
  function Digit(v: int): (c: char)
    requires 0 <= v < 64
  {
    if v < 26 then (65 + v) as char           // 'A'..'Z'
    else if v < 52 then (97 + v - 26) as char  // 'a'..'z'
    else if v < 62 then (48 + v - 52) as char  // '0'..'9'
    else if v == 62 then '+'
    else '/'
  }

  /** The six-bit value of a digit, or None for a character outside the alphabet. */
  function DigitValue(c: char): (r: Option<int>)
    ensures r.Some? ==> 0 <= r.value < 64 && Digit(r.value) == c
  {
    if 'A' <= c <= 'Z' then Some(c as int - 65)
    else if 'a' <= c <= 'z' then Some(c as int - 97 + 26)
    else if '0' <= c <= '9' then Some(c as int - 48 + 52)
    else if c == '+' then Some(62)
    else if c == '/' then Some(63)
    else None
  }

  lemma DigitValueOfDigit(v: int)
    requires 0 <= v < 64
    ensures DigitValue(Digit(v)) == Some(v)
  {
  }

  predicate AllDigits(d: string) {
    forall i :: 0 <= i < |d| ==> DigitValue(d[i]).Some?
  }

  /** Splits bytes into six-bit values: four per full 24-bit group, and for a final
      lone byte or pair, two or three values with the missing bits taken as zero. */
  function Sextets(b: seq<Byte>): (vs: seq<int>)
    ensures IsSextets(vs)
    decreases |b|
  {
    if |b| == 0 then []
    else if |b| == 1 then [b[0] / 4, (b[0] % 4) * 16]
    else if |b| == 2 then [b[0] / 4, (b[0] % 4) * 16 + b[1] / 16, (b[1] % 16) * 4]
    else Group(b[0], b[1], b[2]) + Sextets(b[3..])
  }

  /** The four six-bit values of one full 24-bit group. */
  function Group(x: Byte, y: Byte, z: Byte): (g: seq<int>)
    ensures |g| == 4 && IsSextets(g)
  {
    [x / 4, (x % 4) * 16 + y / 16, (y % 16) * 4 + z / 64, z % 64]
  }

  /** The three bytes of one full group of four six-bit values. */
  function Ungroup(v0: int, v1: int, v2: int, v3: int): (b: seq<Byte>)
    requires 0 <= v0 < 64 && 0 <= v1 < 64 && 0 <= v2 < 64 && 0 <= v3 < 64
    ensures |b| == 3
  {
    [v0 * 4 + v1 / 16, (v1 % 16) * 16 + v2 / 4, (v2 % 4) * 64 + v3]
  }

  lemma UngroupGroup(x: Byte, y: Byte, z: Byte)
    ensures var g := Group(x, y, z); Ungroup(g[0], g[1], g[2], g[3]) == [x, y, z]
  {
    GroupBits(x, y, z);
  }

  /** Four values per full group of three bytes, and two or three for a final
      partial group: never a remainder of one modulo four. */
  lemma {:induction false} SextetsLength(b: seq<Byte>)
    ensures |Sextets(b)| == 4 * (|b| / 3) + (if |b| % 3 == 0 then 0 else |b| % 3 + 1)
    ensures |Sextets(b)| % 4 != 1
    decreases |b|
  {
    if |b| >= 3 {
      SextetsLength(b[3..]);
    }
  }

  /** Reassembles bytes from six-bit values: three per four values, one from a final
      two and two from a final three, dropping the leftover low bits. A final lone
      value holds no whole byte; the decoder rejects such input before this step. */
  function Octets(vs: seq<int>): (b: seq<Byte>)
    requires IsSextets(vs)
    ensures |b| == 3 * (|vs| / 4) + (if |vs| % 4 <= 1 then 0 else |vs| % 4 - 1)
    decreases |vs|
  {
    if |vs| <= 1 then []
    else if |vs| == 2 then [vs[0] * 4 + vs[1] / 16]
    else if |vs| == 3 then [vs[0] * 4 + vs[1] / 16, (vs[1] % 16) * 16 + vs[2] / 4]
    else Ungroup(vs[0], vs[1], vs[2], vs[3]) + Octets(vs[4..])
  }

  function DigitString(vs: seq<int>): (d: string)
    requires IsSextets(vs)
    ensures |d| == |vs| && AllDigits(d)
  {
    var d := seq(|vs|, i requires 0 <= i < |vs| => Digit(vs[i]));
    assert forall i :: 0 <= i < |vs| ==> DigitValue(d[i]) == Some(vs[i]) by {
      forall i | 0 <= i < |vs| {
        DigitValueOfDigit(vs[i]);
      }
    }
    d
  }

  function DigitValues(d: string): (vs: seq<int>)
    requires AllDigits(d)
    ensures |vs| == |d| && IsSextets(vs)
  {
    seq(|d|, i requires 0 <= i < |d| => DigitValue(d[i]).value)
  }

  /** The '=' characters that complete the last group of an encoding of `n` bytes. */
  function Padding(n: nat): (p: string)
    ensures forall k :: 0 <= k < |p| ==> p[k] == '='
  {
    if n % 3 == 1 then "==" else if n % 3 == 2 then "=" else ""
  }

  /** The padded base64 encoding of a byte sequence: whole groups of four
      characters, each a digit or '=', with '=' only in the last two places. */
  function Encode(b: seq<Byte>): (s: string)
    ensures |s| % 4 == 0
    ensures forall i :: 0 <= i < |s| ==> (DigitValue(s[i]).Some? <==> s[i] != '=')
    ensures forall i :: 0 <= i < |s| && s[i] == '=' ==> |s| - 2 <= i
  {
    PaddingCompletesGroup(b);
    DigitString(Sextets(b)) + Padding(|b|)
  }

  /** Every started group of three bytes becomes four characters. */
  lemma EncodeLength(b: seq<Byte>)
    ensures |Encode(b)| == 4 * ((|b| + 2) / 3)
  {
    SextetsLength(b);
  }

  /** U+0009, U+000A, U+000C, U+000D and U+0020. */
  predicate IsAsciiWhitespace(c: char) {
    c as int == 9 || c as int == 10 || c as int == 12 || c as int == 13 || c as int == 32
  }

  /** Step 1 of forgiving-base64 decode: the input with ASCII whitespace removed. */
  function StripWhitespace(s: string): (t: string)
    ensures |t| <= |s|
    ensures forall i :: 0 <= i < |t| ==> !IsAsciiWhitespace(t[i])
    ensures (forall i :: 0 <= i < |s| ==> !IsAsciiWhitespace(s[i])) ==> t == s
    decreases |s|
  {
    if s == [] then []
    else (if IsAsciiWhitespace(s[0]) then [] else [s[0]]) + StripWhitespace(s[1..])
  }

  /** Removing whitespace keeps every other character, in order: it commutes with
      appending one character. */
  lemma {:induction false} StripWhitespaceAppend(s: string, c: char)
    ensures StripWhitespace(s + [c]) == StripWhitespace(s) + (if IsAsciiWhitespace(c) then [] else [c])
    decreases |s|
  {
    if s == [] {
      assert StripWhitespace([c][1..]) == [];
    } else {
      assert (s + [c])[0] == s[0];
      assert (s + [c])[1..] == s[1..] + [c];
      StripWhitespaceAppend(s[1..], c);
    }
  }

  /** Step 2: when the length is a multiple of four, one or two trailing '=' are dropped. */
  function StripPadding(t: string): (u: string)
    ensures |t| % 4 != 0 ==> u == t
    ensures u <= t && |t| - 2 <= |u|
    ensures forall k :: |u| <= k < |t| ==> t[k] == '='
    ensures |t| % 4 == 0 && |t| >= 1 && t[|t| - 1] == '=' ==> |u| < |t|
    ensures |t| % 4 == 0 && |t| >= 2 && t[|t| - 2] == '=' && t[|t| - 1] == '=' ==> |u| == |t| - 2
  {
    if |t| % 4 == 0 && |t| >= 2 && t[|t| - 2] == '=' && t[|t| - 1] == '=' then t[..|t| - 2]
    else if |t| % 4 == 0 && |t| >= 1 && t[|t| - 1] == '=' then t[..|t| - 1]
    else t
  }

  /** Forgiving-base64 decode: fails when, after steps 1 and 2, the length leaves
      remainder 1 modulo 4 or a character outside the alphabet remains. */
  function Decode(s: string): (r: Result<seq<Byte>>)
    ensures r.Err? ==> r.error == InvalidCharacterError
    ensures |StripWhitespace(s)| % 4 == 1 ==> r.Err?
  {
    var d := StripPadding(StripWhitespace(s));
    if |d| % 4 == 1 || !AllDigits(d) then Err(InvalidCharacterError)
    else Ok(Octets(DigitValues(d)))
  }

  /** `btoa`: throws InvalidCharacterError on a character above U+00FF, otherwise
      encodes the string's character codes. */
  function Btoa(s: string): (r: Result<string>)
    ensures r.Ok? <==> IsBinary(s)
    ensures r.Err? ==> r.error == InvalidCharacterError
    ensures r.Ok? ==> |r.value| == 4 * ((|s| + 2) / 3)
  {
    if IsBinary(s) then
      EncodeLength(ToBytes(s));
      Ok(Encode(ToBytes(s)))
    else Err(InvalidCharacterError)
  }

  /** `atob`: throws InvalidCharacterError when decoding fails, otherwise returns
      the decoded bytes as a binary string. */
  function Atob(s: string): (r: Result<string>)
    ensures r.Ok? <==> Decode(s).Ok?
    ensures r.Ok? ==> IsBinary(r.value) && |r.value| == |Decode(s).value|
    ensures r.Ok? ==> forall i :: 0 <= i < |r.value| ==> r.value[i] as int == Decode(s).value[i]
    ensures r.Err? ==> r.error == InvalidCharacterError
  {
    match Decode(s)
    case Ok(b) => Ok(FromBytes(b))
    case Err(e) => Err(e)
  }

  /** A character that is neither whitespace, '=' nor a digit makes decoding fail. */
  lemma DecodeRejectsForeignCharacter(s: string, i: int)
    requires 0 <= i < |s|
    requires !IsAsciiWhitespace(s[i]) && s[i] != '=' && DigitValue(s[i]).None?
    ensures Decode(s).Err?
  {
    var t := StripWhitespace(s);
    var d := StripPadding(t);
    ForeignCharacterSurvivesStrip(s, i);
    var j :| 0 <= j < |t| && t[j] == s[i];
    if |d| % 4 != 1 {
      assert d[j] == t[j];
    }
  }

  lemma {:induction false} ForeignCharacterSurvivesStrip(s: string, i: int)
    requires 0 <= i < |s| && !IsAsciiWhitespace(s[i])
    ensures exists j :: 0 <= j < |StripWhitespace(s)| && StripWhitespace(s)[j] == s[i]
    decreases |s|
  {
    var head := if IsAsciiWhitespace(s[0]) then [] else [s[0]];
    assert StripWhitespace(s) == head + StripWhitespace(s[1..]);
    if i == 0 {
      assert StripWhitespace(s)[0] == s[0];
    } else {
      ForeignCharacterSurvivesStrip(s[1..], i - 1);
      var j :| 0 <= j < |StripWhitespace(s[1..])| && StripWhitespace(s[1..])[j] == s[1..][i - 1];
      assert StripWhitespace(s)[|head| + j] == s[i];
    }
  }

  /** The bits of three bytes survive the trip through four six-bit values. */
  lemma GroupBits(a: int, b: int, c: int)
    requires 0 <= a < 256 && 0 <= b < 256 && 0 <= c < 256
    ensures (a / 4) * 4 + ((a % 4) * 16 + b / 16) / 16 == a
    ensures (((a % 4) * 16 + b / 16) % 16) * 16 + ((b % 16) * 4 + c / 64) / 4 == b
    ensures (((b % 16) * 4 + c / 64) % 4) * 64 + c % 64 == c
  {
  }

  /** Reassembling the six-bit values of a byte sequence gives the bytes back. */
  lemma {:induction false} OctetsOfSextets(b: seq<Byte>)
    ensures Octets(Sextets(b)) == b
    decreases |b|
  {
    if |b| == 0 {
    } else if |b| == 1 {
      GroupBits(b[0], 0, 0);
    } else if |b| == 2 {
      GroupBits(b[0], b[1], 0);
    } else {
      var g := Group(b[0], b[1], b[2]);
      var rest := Sextets(b[3..]);
      var vs := Sextets(b);
      assert vs == g + rest;
      assert vs[..4] == g && vs[4..] == rest;
      UngroupGroup(b[0], b[1], b[2]);
      OctetsOfSextets(b[3..]);
      assert Octets(vs) == [b[0], b[1], b[2]] + b[3..];
      assert b == [b[0], b[1], b[2]] + b[3..];
    }
  }

  lemma DigitValuesOfDigitString(vs: seq<int>)
    requires IsSextets(vs)
    ensures DigitValues(DigitString(vs)) == vs
  {
    var d := DigitString(vs);
    forall i | 0 <= i < |vs|
      ensures DigitValues(d)[i] == vs[i]
    {
      DigitValueOfDigit(vs[i]);
    }
  }

  lemma DigitIsNotSpecial(v: int)
    requires 0 <= v < 64
    ensures !IsAsciiWhitespace(Digit(v)) && Digit(v) != '='
  {
  }

  /** The encoding contains no whitespace, so step 1 of the decoder keeps it whole. */
  lemma EncodingHasNoWhitespace(b: seq<Byte>)
    ensures StripWhitespace(Encode(b)) == Encode(b)
  {
    var vs := Sextets(b);
    var d := DigitString(vs);
    var p := Padding(|b|);
    var e := d + p;
    forall i | 0 <= i < |e|
      ensures !IsAsciiWhitespace(e[i])
    {
      if i < |d| {
        DigitIsNotSpecial(vs[i]);
      } else {
        assert e[i] == p[i - |d|];
      }
    }
  }

  /** Step 2 of the decoder drops exactly the padding that follows a digit string,
      provided the padded length is a multiple of four. */
  lemma StripPaddingAfterDigits(d: string, p: string)
    requires AllDigits(d) && |p| <= 2
    requires forall k :: 0 <= k < |p| ==> p[k] == '='
    requires p != [] ==> (|d| + |p|) % 4 == 0 && d != []
    ensures StripPadding(d + p) == d
  {
    var t := d + p;
    if |p| == 2 {
      assert t[..|t| - 2] == d;
    } else if |p| == 1 {
      assert t[|t| - 2] == d[|d| - 1];
      assert t[..|t| - 1] == d;
    } else if d != [] {
      assert t[|t| - 1] == d[|d| - 1];
    }
  }

  /** The padding brings the digits of every encoding to a multiple of four. */
  lemma {:induction false} PaddingCompletesGroup(b: seq<Byte>)
    ensures (|Sextets(b)| + |Padding(|b|)|) % 4 == 0
    ensures Padding(|b|) != [] ==> Sextets(b) != []
    decreases |b|
  {
    if |b| >= 3 {
      PaddingCompletesGroup(b[3..]);
      assert Padding(|b|) == Padding(|b| - 3);
    }
  }

  /** The encoding, stripped by steps 1 and 2 of the decoder, is its digit string. */
  lemma StripEncoding(b: seq<Byte>)
    ensures StripPadding(StripWhitespace(Encode(b))) == DigitString(Sextets(b))
  {
    EncodingHasNoWhitespace(b);
    PaddingCompletesGroup(b);
    StripPaddingAfterDigits(DigitString(Sextets(b)), Padding(|b|));
  }

  /** RFC 4648 round trip: decoding the encoding of any byte sequence, the empty
      one included, gives the bytes back. */
  lemma DecodeEncode(b: seq<Byte>)
    ensures Decode(Encode(b)) == Ok(b)
  {
    StripEncoding(b);
    SextetsLength(b);
    DigitValuesOfDigitString(Sextets(b));
    OctetsOfSextets(b);
  }

  /** `atob(btoa(s)) == s` for every binary string. */
  lemma AtobBtoa(s: string)
    requires IsBinary(s)
    ensures Btoa(s).Ok? && Atob(Btoa(s).value) == Ok(s)
  {
    DecodeEncode(ToBytes(s));
    FromBytesToBytes(s);
  }
}
