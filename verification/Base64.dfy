/**
 Base 64 as Go decodes it (sections 4 and 5 of RFC 4648): line breaks are skipped
 anywhere, padding is exact, and stray bits in the last character are ignored.
 */
module Base64 {
  import opened Prelude
  import opened Bytes

  datatype Alphabet = Std | Url

  /** The six bits a character stands for. */
  function Sextet(a: Alphabet, c: char): (r: Option<int>)
    ensures r.Some? ==> 0 <= r.value < 64
  {
    if 'A' <= c <= 'Z' then Some((c - 'A') as int)
    else if 'a' <= c <= 'z' then Some((c - 'a') as int + 26)
    else if '0' <= c <= '9' then Some((c - '0') as int + 52)
    else if c == (if a.Std? then '+' else '-') then Some(62)
    else if c == (if a.Std? then '/' else '_') then Some(63)
    else None
  }

  function Letter(a: Alphabet, n: int): (c: char)
    requires 0 <= n < 64
    ensures Sextet(a, c) == Some(n)
  {
    if n < 26 then 'A' + n as char
    else if n < 52 then 'a' + (n - 26) as char
    else if n < 62 then '0' + (n - 52) as char
    else if n == 62 then (if a.Std? then '+' else '-')
    else (if a.Std? then '/' else '_')
  }

  // ----- encoding ---------------------------------------------------------------------------

  /** One or two bytes left over. */
  function EncodeTail(a: Alphabet, padded: bool, x: Byte, y: Option<Byte>): (s: string)
    ensures |s| == if padded then 4 else if y.None? then 2 else 3
  {
    match y
    case None => [Letter(a, x / 4), Letter(a, x % 4 * 16)] + if padded then "==" else ""
    case Some(y) =>
      [Letter(a, x / 4), Letter(a, x % 4 * 16 + y / 16), Letter(a, y % 16 * 4)] + if padded then "=" else ""
  }

  function EncodeIn(a: Alphabet, padded: bool, b: Bytes): (s: string)
    ensures |s| == if padded then 4 * ((|b| + 2) / 3) else (4 * |b| + 2) / 3
  {
    if b == [] then []
    else if |b| == 1 then EncodeTail(a, padded, b[0], None)
    else if |b| == 2 then EncodeTail(a, padded, b[0], Some(b[1]))
    else EncodeThree(a, b[0], b[1], b[2]) + EncodeIn(a, padded, b[3..])
  }

  /** Three bytes as four letters. */
  function EncodeThree(a: Alphabet, x: Byte, y: Byte, z: Byte): (s: string)
    ensures |s| == 4
  {
    [Letter(a, x / 4), Letter(a, x % 4 * 16 + y / 16), Letter(a, y % 16 * 4 + z / 64), Letter(a, z % 64)]
  }

  /** StdEncoding.EncodeToString */
  function Encode(b: Bytes): (s: string)
    ensures |s| == 4 * ((|b| + 2) / 3)
  {
    EncodeIn(Std, true, b)
  }

  // ----- decoding ---------------------------------------------------------------------------

  predicate IsBreak(c: char) {
    c == '\n' || c == '\r'
  }

  function WithoutBreaks(s: string): (r: string)
    ensures |r| <= |s|
    ensures forall i :: 0 <= i < |r| ==> !IsBreak(r[i])
  {
    if s == [] then []
    else if IsBreak(s[0]) then WithoutBreaks(s[1..])
    else [s[0]] + WithoutBreaks(s[1..])
  }

  /** Four characters of the alphabet, or as many as there are. */
  predicate Letters(a: Alphabet, s: string) {
    forall i :: 0 <= i < |s| ==> Sextet(a, s[i]).Some?
  }

  function Bits(a: Alphabet, c: char): int
    requires Sextet(a, c).Some?
  {
    Sextet(a, c).value
  }

  function OneByte(a: Alphabet, c: char, d: char): (b: Byte)
    requires Sextet(a, c).Some? && Sextet(a, d).Some?
  {
    Bits(a, c) * 4 + Bits(a, d) / 16
  }

  function NextByte(a: Alphabet, c: char, d: char): (b: Byte)
    requires Sextet(a, c).Some? && Sextet(a, d).Some?
  {
    Bits(a, c) % 16 * 16 + Bits(a, d) / 4
  }

  function LastByte(a: Alphabet, c: char, d: char): (b: Byte)
    requires Sextet(a, c).Some? && Sextet(a, d).Some?
  {
    Bits(a, c) % 4 * 64 + Bits(a, d)
  }

  function DecodeLetters(a: Alphabet, padded: bool, s: string): Option<Bytes> {
    if s == [] then Some([])
    else if |s| >= 4 && Letters(a, s[..4]) then
      assert s[0] == s[..4][0] && s[1] == s[..4][1] && s[2] == s[..4][2] && s[3] == s[..4][3];
      match DecodeLetters(a, padded, s[4..])
      case None => None
      case Some(rest) => Some([OneByte(a, s[0], s[1]), NextByte(a, s[1], s[2]), LastByte(a, s[2], s[3])] + rest)
    else DecodeTail(a, padded, s)
  }

  /** The last, incomplete group. */
  function DecodeTail(a: Alphabet, padded: bool, s: string): Option<Bytes> {
    if padded then
      if |s| != 4 || s[3] != '=' || Sextet(a, s[0]).None? || Sextet(a, s[1]).None? then None
      else if s[2] == '=' then Some([OneByte(a, s[0], s[1])])
      else if Sextet(a, s[2]).None? then None
      else Some([OneByte(a, s[0], s[1]), NextByte(a, s[1], s[2])])
    else
      if |s| == 2 && Letters(a, s) then Some([OneByte(a, s[0], s[1])])
      else if |s| == 3 && Letters(a, s) then Some([OneByte(a, s[0], s[1]), NextByte(a, s[1], s[2])])
      else None
  }

  /** StdEncoding, RawStdEncoding, URLEncoding or RawURLEncoding .DecodeString */
  function Decode(a: Alphabet, padded: bool, s: string): Option<Bytes> {
    DecodeLetters(a, padded, WithoutBreaks(s))
  }

  /** StdEncoding.DecodeString */
  function DecodeStd(s: string): Option<Bytes> {
    Decode(Std, true, s)
  }

  // ----- round trip ----------------------------------------------------------------------------

  predicate InAlphabet(c: char) {
    Sextet(Std, c).Some? || c == '='
  }

  lemma {:induction false} EncodedCharacters(a: Alphabet, padded: bool, b: Bytes)
    ensures forall i :: 0 <= i < |EncodeIn(a, padded, b)| ==>
      Sextet(a, EncodeIn(a, padded, b)[i]).Some? || (padded && EncodeIn(a, padded, b)[i] == '=')
  {
    hide Letter, Sextet;
    if |b| >= 3 { EncodedCharacters(a, padded, b[3..]); }
  }

  lemma EncodeUsesAlphabet(b: Bytes)
    ensures forall i :: 0 <= i < |Encode(b)| ==> InAlphabet(Encode(b)[i])
  {
    EncodedCharacters(Std, true, b);
  }

  lemma {:induction false} NothingToSkip(s: string)
    requires forall i :: 0 <= i < |s| ==> !IsBreak(s[i])
    ensures WithoutBreaks(s) == s
  {
    if s != [] { NothingToSkip(s[1..]); }
  }

  lemma SplitByte(x: int, k: int)
    requires 0 <= x < 256 && (k == 4 || k == 16 || k == 64)
    ensures x / k * k + x % k == x
  {
  }

  lemma OneByteEncoded(a: Alphabet, x: Byte, y: Byte)
    ensures OneByte(a, Letter(a, x / 4), Letter(a, x % 4 * 16 + y / 16)) == x
  {
    SplitByte(x, 4);
    assert (x % 4 * 16 + y / 16) / 16 == x % 4;
  }

  lemma NextByteEncoded(a: Alphabet, x: Byte, y: Byte, z: Byte)
    ensures NextByte(a, Letter(a, x % 4 * 16 + y / 16), Letter(a, y % 16 * 4 + z / 64)) == y
  {
    SplitByte(y, 16);
    assert (x % 4 * 16 + y / 16) % 16 == y / 16;
    assert (y % 16 * 4 + z / 64) / 4 == y % 16;
  }

  lemma LastByteEncoded(a: Alphabet, y: Byte, z: Byte)
    ensures LastByte(a, Letter(a, y % 16 * 4 + z / 64), Letter(a, z % 64)) == z
  {
    SplitByte(z, 64);
    assert (y % 16 * 4 + z / 64) % 4 == z / 64;
  }

  lemma {:induction false} DecodeLettersEncode(a: Alphabet, padded: bool, b: Bytes)
    ensures DecodeLetters(a, padded, EncodeIn(a, padded, b)) == Some(b)
  {
    hide OneByte, NextByte, LastByte, Sextet, Letter;
    if |b| == 1 {
      OneByteLeft(a, padded, b[0]);
      assert b == [b[0]];
    } else if |b| == 2 {
      TwoBytesLeft(a, padded, b[0], b[1]);
      assert b == [b[0], b[1]];
    } else if |b| >= 3 {
      DecodeLettersEncode(a, padded, b[3..]);
      ThreeBytesRead(a, padded, b);
      assert b == [b[0], b[1], b[2]] + b[3..];
    }
  }

  lemma ThreeBytesRead(a: Alphabet, padded: bool, b: Bytes)
    requires |b| >= 3
    ensures DecodeLetters(a, padded, EncodeIn(a, padded, b)) ==
      match DecodeLetters(a, padded, EncodeIn(a, padded, b[3..]))
      case None => None
      case Some(rest) => Some([b[0], b[1], b[2]] + rest)
  {
    hide OneByte, NextByte, LastByte, Sextet, Letter;
    var s := EncodeIn(a, padded, b);
    assert s[4..] == EncodeIn(a, padded, b[3..]);
    OneByteEncoded(a, b[0], b[1]);
    NextByteEncoded(a, b[0], b[1], b[2]);
    LastByteEncoded(a, b[1], b[2]);
  }

  lemma OneByteLeft(a: Alphabet, padded: bool, x: Byte)
    ensures DecodeLetters(a, padded, EncodeIn(a, padded, [x])) == Some([x])
  {
    hide OneByte, NextByte, LastByte, Sextet, Letter;
    var s := EncodeIn(a, padded, [x]);
    OneByteEncoded(a, x, 0);
    PaddingIsNoLetter();
    assert x % 4 * 16 + 0 / 16 == x % 4 * 16;
    if padded { assert s[..4][3] == '='; }
  }

  lemma TwoBytesLeft(a: Alphabet, padded: bool, x: Byte, y: Byte)
    ensures DecodeLetters(a, padded, EncodeIn(a, padded, [x, y])) == Some([x, y])
  {
    hide OneByte, NextByte, LastByte, Sextet, Letter;
    var s := EncodeIn(a, padded, [x, y]);
    OneByteEncoded(a, x, y);
    NextByteEncoded(a, x, y, 0);
    PaddingIsNoLetter();
    assert y % 16 * 4 + 0 / 64 == y % 16 * 4;
    if padded { assert s[..4][3] == '='; }
  }

  lemma PaddingIsNoLetter()
    ensures Sextet(Std, '=').None? && Sextet(Url, '=').None?
  {
  }

  lemma NoBreaksInside(a: Alphabet, c: char)
    ensures Sextet(a, c).Some? || c == '=' ==> !IsBreak(c)
  {
  }

  /** Every byte string is read back from its encoding, in either alphabet, padded or not. */
  lemma RoundTripIn(a: Alphabet, padded: bool, b: Bytes)
    ensures Decode(a, padded, EncodeIn(a, padded, b)) == Some(b)
  {
    hide Sextet, IsBreak, DecodeLetters, EncodeIn;
    var s := EncodeIn(a, padded, b);
    EncodedCharacters(a, padded, b);
    forall i | 0 <= i < |s|
      ensures !IsBreak(s[i])
    {
      NoBreaksInside(a, s[i]);
    }
    NothingToSkip(s);
    DecodeLettersEncode(a, padded, b);
  }

  /** Every byte string is read back from its encoding. */
  lemma RoundTrip(b: Bytes)
    ensures DecodeStd(Encode(b)) == Some(b)
  {
    RoundTripIn(Std, true, b);
  }

  // ----- what a decodable string looks like -------------------------------------------------------

  /** Anything decodable consists of ASCII letters of the alphabet, padding and line breaks. */
  lemma {:induction false} DecodableLetters(a: Alphabet, padded: bool, s: string)
    requires DecodeLetters(a, padded, s).Some?
    ensures forall i :: 0 <= i < |s| ==> Sextet(a, s[i]).Some? || s[i] == '='
    ensures !padded ==> Letters(a, s)
  {
    if |s| >= 4 && Letters(a, s[..4]) {
      DecodableLetters(a, padded, s[4..]);
      forall i | 0 <= i < |s|
        ensures Sextet(a, s[i]).Some? || s[i] == '='
        ensures !padded ==> Sextet(a, s[i]).Some?
      {
        if i < 4 { assert s[i] == s[..4][i]; } else { assert s[i] == s[4..][i - 4]; }
      }
    }
  }

  lemma {:induction false} BreaksAside(s: string, i: nat)
    requires i < |s| && !IsBreak(s[i])
    ensures s[i] in WithoutBreaks(s)
  {
    if i == 0 {
      assert WithoutBreaks(s)[0] == s[0];
    } else {
      BreaksAside(s[1..], i - 1);
      if !IsBreak(s[0]) { assert WithoutBreaks(s) == [s[0]] + WithoutBreaks(s[1..]); }
    }
  }

  lemma DecodableCharacters(a: Alphabet, padded: bool, s: string)
    requires Decode(a, padded, s).Some?
    ensures forall i :: 0 <= i < |s| ==> Sextet(a, s[i]).Some? || s[i] == '=' || IsBreak(s[i])
  {
    DecodableLetters(a, padded, WithoutBreaks(s));
    forall i | 0 <= i < |s|
      ensures Sextet(a, s[i]).Some? || s[i] == '=' || IsBreak(s[i])
    {
      if !IsBreak(s[i]) { BreaksAside(s, i); }
    }
  }
}
