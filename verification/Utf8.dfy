/** What utf8.Valid accepts: exactly the encodings of texts of Unicode scalar values (RFC 3629). */
module Utf8 {
  import opened Bytes
  import opened Recognisers

  /** A code point that is no surrogate. */
  predicate IsScalar(c: int) {
    0 <= c < 0x110000 && !(0xD800 <= c < 0xE000)
  }

  function EncodeOne(c: int): Bytes
    requires IsScalar(c)
  {
    if c < 0x80 then [c]
    else if c < 0x800 then [0xC0 + c / 64, 0x80 + c % 64]
    else if c < 0x10000 then [0xE0 + c / 4096, 0x80 + c / 64 % 64, 0x80 + c % 64]
    else [0xF0 + c / 262144, 0x80 + c / 4096 % 64, 0x80 + c / 64 % 64, 0x80 + c % 64]
  }

  predicate AllScalar(cs: seq<int>) {
    forall i :: 0 <= i < |cs| ==> IsScalar(cs[i])
  }

  function EncodeText(cs: seq<int>): Bytes
    requires AllScalar(cs)
  {
    if cs == [] then [] else EncodeOne(cs[0]) + EncodeText(cs[1..])
  }

  lemma OneIsValid(c: int, rest: Bytes)
    requires IsScalar(c)
    ensures Utf8Valid(EncodeOne(c) + rest) == Utf8Valid(rest)
  {
    var b := EncodeOne(c) + rest;
    if c < 0x80 {
      assert b[1..] == rest;
    } else if c < 0x800 {
      assert b[2..] == rest;
    } else if c < 0x10000 {
      ThreeBytes(c);
      assert b[3..] == rest;
    } else {
      FourBytes(c);
      assert b[4..] == rest;
    }
  }

  lemma ThreeBytes(c: int)
    requires IsScalar(c) && 0x800 <= c < 0x10000
    ensures var x, y := 0xE0 + c / 4096, 0x80 + c / 64 % 64;
      0xE0 <= x < 0xF0 && 0x80 <= y < 0xC0 && (x == 0xE0 ==> y >= 0xA0) && (x == 0xED ==> y < 0xA0)
  {
  }

  lemma FourBytes(c: int)
    requires 0x10000 <= c < 0x110000
    ensures var x, y := 0xF0 + c / 262144, 0x80 + c / 4096 % 64;
      0xF0 <= x < 0xF5 && 0x80 <= y < 0xC0 && (x == 0xF0 ==> y >= 0x90) && (x == 0xF4 ==> y < 0x90)
  {
  }

  lemma {:induction false} TextIsValid(cs: seq<int>)
    requires AllScalar(cs)
    ensures Utf8Valid(EncodeText(cs))
  {
    hide EncodeOne;
    if cs != [] {
      TextIsValid(cs[1..]);
      OneIsValid(cs[0], EncodeText(cs[1..]));
    }
  }

  /** The first code point of valid text. */
  lemma FirstOf(b: Bytes) returns (c: int)
    requires b != [] && Utf8Valid(b)
    ensures IsScalar(c) && EncodeOne(c) <= b && EncodeOne(c) != [] && Utf8Valid(b[|EncodeOne(c)|..])
  {
    if b[0] < 0x80 {
      c := b[0];
    } else if |b| >= 2 && 0xC2 <= b[0] < 0xE0 {
      c := JoinTwo(b[0] - 0xC0, b[1] - 0x80);
    } else if |b| >= 3 && 0xE0 <= b[0] < 0xF0 {
      c := JoinThree(b[0] - 0xE0, b[1] - 0x80, b[2] - 0x80);
    } else {
      c := JoinFour(b[0] - 0xF0, b[1] - 0x80, b[2] - 0x80, b[3] - 0x80);
    }
  }

  lemma JoinTwo(x: int, y: int) returns (c: int)
    requires 0 <= x < 32 && 0 <= y < 64
    ensures c == x * 64 + y && c / 64 == x && c % 64 == y
  {
    c := x * 64 + y;
  }

  lemma JoinThree(x: int, y: int, z: int) returns (c: int)
    requires 0 <= x < 16 && 0 <= y < 64 && 0 <= z < 64
    ensures c == x * 4096 + y * 64 + z && c / 4096 == x && c / 64 % 64 == y && c % 64 == z
  {
    c := x * 4096 + y * 64 + z;
    assert c / 64 == x * 64 + y;
  }

  lemma JoinFour(w: int, x: int, y: int, z: int) returns (c: int)
    requires 0 <= w < 8 && 0 <= x < 64 && 0 <= y < 64 && 0 <= z < 64
    ensures c == w * 262144 + x * 4096 + y * 64 + z
    ensures c / 262144 == w && c / 4096 % 64 == x && c / 64 % 64 == y && c % 64 == z
  {
    c := w * 262144 + x * 4096 + y * 64 + z;
    assert c / 64 == w * 4096 + x * 64 + y && c / 4096 == w * 64 + x;
  }

  lemma {:induction false} ValidIsText(b: Bytes) returns (cs: seq<int>)
    requires Utf8Valid(b)
    ensures AllScalar(cs) && EncodeText(cs) == b
    decreases |b|
  {
    hide EncodeOne;
    if b == [] {
      cs := [];
    } else {
      var c := FirstOf(b);
      var rest := ValidIsText(b[|EncodeOne(c)|..]);
      cs := [c] + rest;
      assert cs[1..] == rest;
      assert b == b[..|EncodeOne(c)|] + b[|EncodeOne(c)|..];
    }
  }

  /** A byte string is valid exactly if it encodes some text. */
  lemma ValidExactly(b: Bytes)
    ensures Utf8Valid(b) <==> exists cs :: AllScalar(cs) && EncodeText(cs) == b
  {
    if Utf8Valid(b) { var cs := ValidIsText(b); }
    if cs :| AllScalar(cs) && EncodeText(cs) == b { TextIsValid(cs); }
  }
}
