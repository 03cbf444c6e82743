/** The two normal forms of a Claude signature: native (E, one base64 layer) and antigravity (R, two). */
module ClaudeSignature {
  import opened Prelude
  import opened Bytes
  import opened Base64
  import opened Recognisers
  import Text

  function AsBytes(s: string): (b: Bytes)
    requires Ascii(s)
    ensures |b| == |s|
  {
    seq(|s|, i requires 0 <= i < |s| => s[i] as int)
  }

  lemma DecodableIsAscii(s: string)
    requires DecodeStd(s).Some?
    ensures Ascii(s)
  {
    DecodableCharacters(Std, true, s);
  }

  /** NormalizeClaudeThinkingSignature: the R-form. */
  function Antigravity(raw: string, strict: bool): Option<string> {
    var sig := StripPrefix(raw);
    if !ValidClaude(raw, strict) then None
    else if sig[0] == 'R' then Some(sig)
    else
      DecodableIsAscii(sig);
      Some(Encode(AsBytes(sig)))
  }

  /** NormalizeClaudeProviderNativeThinkingSignature: the E-form. */
  function Native(raw: string, strict: bool): Option<string> {
    var sig := StripPrefix(raw);
    if !ValidClaude(raw, strict) then None
    else if sig[0] == 'E' then Some(sig)
    else Some(AsText(DecodeStd(sig).value))
  }

  /** A payload starting with 0x12 encodes to text starting with E, and that to text starting with R. */
  lemma LayersShowInFirstLetter(payload: Bytes)
    requires payload != [] && payload[0] == 0x12
    ensures Encode(payload) != [] && Encode(payload)[0] == 'E' && Ascii(Encode(payload))
    ensures Encode(AsBytes(Encode(payload))) != [] && Encode(AsBytes(Encode(payload)))[0] == 'R'
  {
    EncodeUsesAlphabet(payload);
    ERForm(Encode(payload));
  }

  lemma ERForm(sig: string)
    requires Ascii(sig) && sig != [] && sig[0] == 'E'
    ensures Encode(AsBytes(sig)) != [] && Encode(AsBytes(sig))[0] == 'R'
  {
    assert AsBytes(sig)[0] == 69;
  }

  lemma TextOfBytes(s: string)
    requires Ascii(s)
    ensures AsText(AsBytes(s)) == s
  {
  }

  lemma CleanTextIsItsOwnStrip(s: string)
    requires forall i :: 0 <= i < |s| ==> InAlphabet(s[i])
    ensures StripPrefix(s) == s
  {
    Text.TrimmedIsFixed(s);
    assert IndexOf(s, '#') == |s|;
  }

  /** The R-form made from an E-form decodes back to it and is double-layered. */
  lemma RFormOf(sig: string, strict: bool)
    requires sig != [] && sig[0] == 'E' && SingleLayer(sig, strict) && Ascii(sig)
    ensures var r := Encode(AsBytes(sig));
      && StripPrefix(r) == r && r != [] && r[0] == 'R'
      && DecodeStd(r) == Some(AsBytes(sig)) && DoubleLayer(r, strict)
      && AsText(AsBytes(sig)) == sig
  {
    hide Encode, Decode;
    EncodeUsesAlphabet(AsBytes(sig));
    CleanTextIsItsOwnStrip(Encode(AsBytes(sig)));
    ERForm(sig);
    RoundTrip(AsBytes(sig));
    TextOfBytes(sig);
  }

  /**
   Going to the antigravity form and normalising again loses nothing - the native form is
   the same and the antigravity form is stable - exactly when the R-form still fits the
   length cap; past the cap both normalisations refuse it.
   */
  lemma AntigravityIsLossless(raw: string, strict: bool)
    requires Antigravity(raw, strict).Some?
    ensures var r := Antigravity(raw, strict).value;
      if |r| <= MAX_LEN then
        Native(r, strict) == Native(raw, strict) && Antigravity(r, strict) == Some(r)
      else
        Native(r, strict) == None && Antigravity(r, strict) == None
  {
    hide Encode, Decode, SingleLayer, DecodeStd;
    var sig := StripPrefix(raw);
    if sig[0] == 'R' {
      StripIsStable(raw, strict);
    } else {
      DecodableIsAscii(sig) by { SingleLayerDecodes(sig, strict); }
      RFormOf(sig, strict);
    }
  }

  lemma SingleLayerDecodes(sig: string, strict: bool)
    requires SingleLayer(sig, strict)
    ensures DecodeStd(sig).Some?
  {
  }

  /** A stripped signature that decodes has no further prefix and no outer white space. */
  lemma StripIsStable(raw: string, strict: bool)
    requires ValidClaude(raw, strict)
    ensures var sig := StripPrefix(raw);
      '#' !in sig && Text.Trimmed(sig) && StripPrefix(sig) == sig
  {
    hide Decode;
    var sig := StripPrefix(raw);
    StripTrims(raw);
    DecodableCharacters(Std, true, sig) by { assert DecodeStd(sig).Some?; }
    Text.TrimmedIsFixed(sig);
    assert IndexOf(sig, '#') == |sig|;
  }

  lemma StripTrims(raw: string)
    ensures Text.Trimmed(StripPrefix(raw))
  {
    Text.TrimSpaceIdempotent(raw);
    var sig := Text.TrimSpace(raw);
    if IndexOf(sig, '#') < |sig| { Text.TrimSpaceIdempotent(sig[IndexOf(sig, '#') + 1..]); }
  }

  // ----- the native form of a native form --------------------------------------------------------

  lemma {:induction false} TrimRightSkipsBreaks(s: string)
    requires forall i :: 0 <= i < |s| && Text.IsSpace(s[i]) ==> IsBreak(s[i])
    ensures WithoutBreaks(Text.TrimRight(s)) == WithoutBreaks(s)
    decreases |s|
  {
    if s != [] && Text.IsSpace(s[|s| - 1]) {
      var init := s[..|s| - 1];
      TrimRightSkipsBreaks(init);
      assert s == init + [s[|s| - 1]];
      BreaksAppend(init, s[|s| - 1]);
    }
  }

  lemma {:induction false} BreaksAppend(s: string, c: char)
    requires IsBreak(c)
    ensures WithoutBreaks(s + [c]) == WithoutBreaks(s)
  {
    if s == [] {
      assert s + [c] == [c];
    } else {
      assert (s + [c])[1..] == s[1..] + [c];
      BreaksAppend(s[1..], c);
    }
  }

  /** Trimming a decodable text that does not start with white space leaves its decoding alone. */
  lemma TrimKeepsDecoding(s: string)
    requires DecodeStd(s).Some? && s != [] && s[0] == 'E'
    ensures DecodeStd(Text.TrimSpace(s)) == DecodeStd(s)
    ensures Text.TrimSpace(s) != [] && Text.TrimSpace(s)[0] == 'E'
    ensures '#' !in Text.TrimSpace(s) && Ascii(s)
  {
    DecodableCharacters(Std, true, s);
    assert Text.TrimLeft(s) == s;
    TrimRightSkipsBreaks(s);
    Text.TrimRightEnd(s);
    TrimRightKeepsHead(s);
  }

  lemma {:induction false} TrimRightKeepsHead(s: string)
    requires s != [] && !Text.IsSpace(s[0])
    ensures Text.TrimRight(s) != [] && Text.TrimRight(s)[0] == s[0]
  {
    if Text.IsSpace(s[|s| - 1]) { TrimRightKeepsHead(s[..|s| - 1]); }
  }

  lemma {:induction false} WithoutBreaksIsShorter(s: string)
    ensures |WithoutBreaks(s)| <= |s|
  {
    if s != [] { WithoutBreaksIsShorter(s[1..]); }
  }

  lemma {:induction false} DecodedIsShorter(a: Alphabet, padded: bool, s: string)
    requires DecodeLetters(a, padded, s).Some?
    ensures |DecodeLetters(a, padded, s).value| <= |s|
  {
    if |s| >= 4 && Letters(a, s[..4]) { DecodedIsShorter(a, padded, s[4..]); }
  }

  /** What a native form is: single-layered, short enough, and starting with E. */
  lemma NativeIsSingleLayer(raw: string, strict: bool)
    requires Native(raw, strict).Some?
    ensures var n := Native(raw, strict).value;
      n != [] && n[0] == 'E' && |n| <= MAX_LEN && SingleLayer(n, strict)
  {
    hide SingleLayer, Decode, ClaudePayload;
    var sig := StripPrefix(raw);
    if sig[0] == 'R' {
      var b := DecodeStd(sig).value;
      assert AsText(b)[0] == 'E';
      DecodeStdIsShorter(sig);
    }
  }

  lemma DecodeStdIsShorter(s: string)
    requires DecodeStd(s).Some?
    ensures |DecodeStd(s).value| <= |s|
  {
    WithoutBreaksIsShorter(s);
    DecodedIsShorter(Std, true, WithoutBreaks(s));
  }

  /** Normalising a native form only trims it - and nothing is left to trim after that. */
  lemma NativeOfNative(raw: string, strict: bool)
    requires Native(raw, strict).Some?
    ensures var n := Native(raw, strict).value;
      && ValidClaude(Text.TrimSpace(n), strict) && '#' !in Text.TrimSpace(n) && '#' !in n
      && Native(Text.TrimSpace(n), strict) == Some(Text.TrimSpace(n))
      && Native(n, strict) == Some(Text.TrimSpace(n))
  {
    hide ClaudePayload, Decode;
    var n := Native(raw, strict).value;
    var t := Text.TrimSpace(n);
    NativeIsSingleLayer(raw, strict);
    TrimKeepsDecoding(n);
    Text.TrimSpaceIdempotent(n);
    TrimIsNoLonger(n);
    DecodableCharacters(Std, true, n);
    assert IndexOf(t, '#') == |t|;
    assert StripPrefix(t) == t && StripPrefix(n) == t;
  }

  lemma TrimIsNoLonger(s: string)
    ensures |Text.TrimSpace(s)| <= |s|
  {
    Text.TrimLeftStart(s);
    Text.TrimRightEnd(Text.TrimLeft(s));
  }
}
