/**
 What the recognisers do accept: signatures built as each provider builds them, from any
 content, are recognised and detected as that provider's.
 */
module SignatureAcceptance {
  import opened Prelude
  import opened Bytes
  import opened Base64
  import opened ProtoWire
  import opened ProtoPrint
  import opened Recognisers
  import opened ClaudeSignature
  import opened Compatibility
  import Text

  // ----- GPT: Fernet tokens -----------------------------------------------------------------------

  /** A Fernet token: version 0x80, time stamp, initialisation vector, AES blocks and MAC. */
  datatype Token = Token(stamp: Bytes, iv: Bytes, cipher: Bytes, mac: Bytes)

  /** 64, 128 and 256 bits around one or more blocks of 128; as a time the stamp starts with zeros. */
  predicate Genuine(t: Token) {
    && |t.stamp| == 8 && t.stamp[0] == 0 && t.stamp[1] == 0 && t.stamp[2] < 4
    && |t.iv| == 16 && |t.cipher| > 0 && |t.cipher| % 16 == 0 && |t.mac| == 32
  }

  function TokenBytesOf(t: Token): Bytes {
    [0x80] + t.stamp + t.iv + t.cipher + t.mac
  }

  lemma FirstFive(b: Bytes, padded: bool)
    requires |b| >= 4
    ensures var s := EncodeIn(Url, padded, b);
      "gAAAA" <= s <==> b[0] == 0x80 && b[1] == 0 && b[2] == 0 && b[3] < 4
  {
    hide EncodeIn, Letter;
    var s := EncodeIn(Url, padded, b);
    FiveLetters(b, padded);
    LettersA();
    SplitsToZero(b[0], b[1], b[2], b[3]);
    StartsWith(s);
  }

  lemma FiveLetters(b: Bytes, padded: bool)
    requires |b| >= 4
    ensures var s := EncodeIn(Url, padded, b);
      && |s| >= 5
      && s[0] == Letter(Url, b[0] / 4) && s[1] == Letter(Url, b[0] % 4 * 16 + b[1] / 16)
      && s[2] == Letter(Url, b[1] % 16 * 4 + b[2] / 64) && s[3] == Letter(Url, b[2] % 64)
      && s[4] == Letter(Url, b[3] / 4)
  {
    hide Letter;
    FirstOfTail(b[3..], padded);
  }

  /** The thirty bits of the five letters. */
  lemma SplitsToZero(x: Byte, y: Byte, z: Byte, w: Byte)
    ensures x / 4 == 32 && x % 4 * 16 + y / 16 == 0 && y % 16 * 4 + z / 64 == 0 && z % 64 == 0 && w / 4 == 0 <==>
      x == 0x80 && y == 0 && z == 0 && w < 4
  {
  }

  lemma StartsWith(s: string)
    requires |s| >= 5
    ensures "gAAAA" <= s <==> s[0] == 'g' && s[1] == 'A' && s[2] == 'A' && s[3] == 'A' && s[4] == 'A'
  {
    assert s[..5] == [s[0], s[1], s[2], s[3], s[4]];
    if "gAAAA" <= s { assert s[..5] == "gAAAA"; }
  }

  lemma FirstOfTail(b: Bytes, padded: bool)
    requires b != []
    ensures EncodeIn(Url, padded, b) != [] && EncodeIn(Url, padded, b)[0] == Letter(Url, b[0] / 4)
  {
  }

  lemma LettersA()
    ensures forall n :: 0 <= n < 64 ==> (Letter(Url, n) == 'A' <==> n == 0) && (Letter(Url, n) == 'g' <==> n == 32)
  {
  }

  lemma GPTReadBack(b: Bytes, padded: bool)
    ensures GPTDecode(EncodeIn(Url, padded, b)) == Some(b)
  {
    hide DecodeLetters, EncodeIn, Sextet;
    var s := EncodeIn(Url, padded, b);
    RoundTripIn(Url, padded, b);
    if padded && Decode(Url, false, s).Some? {
      DecodableLetters(Url, false, WithoutBreaks(s));
      EncodedHasNoBreaks(Url, padded, b);
      UnpaddedIsShared(Url, b);
    }
  }

  lemma EncodedHasNoBreaks(a: Alphabet, padded: bool, b: Bytes)
    ensures WithoutBreaks(EncodeIn(a, padded, b)) == EncodeIn(a, padded, b)
  {
    hide Sextet, IsBreak;
    var s := EncodeIn(a, padded, b);
    EncodedCharacters(a, padded, b);
    forall i | 0 <= i < |s|
      ensures !IsBreak(s[i])
    {
      NoBreaksInside(a, s[i]);
    }
    NothingToSkip(s);
  }

  /** A padded encoding made of letters only has no padding. */
  lemma {:induction false} UnpaddedIsShared(a: Alphabet, b: Bytes)
    requires Letters(a, EncodeIn(a, true, b))
    ensures EncodeIn(a, true, b) == EncodeIn(a, false, b)
  {
    hide Letter;
    PaddingIsNoLetter();
    var s := EncodeIn(a, true, b);
    if |b| >= 3 {
      var rest := EncodeIn(a, true, b[3..]);
      assert forall i :: 0 <= i < |rest| ==> rest[i] == s[i + 4];
      UnpaddedIsShared(a, b[3..]);
    } else if |b| > 0 {
      PaddingAt3(a, b);
      assert false;
    }
  }

  lemma PaddingAt3(a: Alphabet, b: Bytes)
    requires |b| == 1 || |b| == 2
    ensures EncodeIn(a, true, b)[3] == '='
  {
  }

  lemma EncodedIsTrimmed(a: Alphabet, padded: bool, b: Bytes)
    ensures Text.Trimmed(EncodeIn(a, padded, b)) && Text.TrimSpace(EncodeIn(a, padded, b)) == EncodeIn(a, padded, b)
    ensures '#' !in EncodeIn(a, padded, b)
  {
    hide EncodeIn;
    var s := EncodeIn(a, padded, b);
    EncodedCharacters(a, padded, b);
    forall i | 0 <= i < |s|
      ensures !Text.IsSpace(s[i]) && s[i] != '#'
    {
      AlphabetIsPlain(a, s[i]);
    }
    Text.TrimmedIsFixed(s);
  }

  lemma AlphabetIsPlain(a: Alphabet, c: char)
    requires Sextet(a, c).Some? || c == '='
    ensures !Text.IsSpace(c) && c != '#'
    ensures a == Url ==> GPTChar(c)
    ensures a == Std ==> c != '_'
  {
  }

  lemma ShapedExactly(b: Bytes)
    ensures |b| >= 4 && b[0] == 0x80 && b[1] == 0 && b[2] == 0 && b[3] < 4 && FernetShaped(b)
      <==> exists t :: Genuine(t) && TokenBytesOf(t) == b
  {
    if |b| >= 4 && b[1] == 0 && b[2] == 0 && b[3] < 4 && FernetShaped(b) {
      var t := Token(b[1..9], b[9..25], b[25..|b| - 32], b[|b| - 32..]);
      assert TokenBytesOf(t) == b;
    }
    if t :| Genuine(t) && TokenBytesOf(t) == b {
      assert b[1] == t.stamp[0] && b[2] == t.stamp[1] && b[3] == t.stamp[2];
    }
  }

  /**
   Base64url text, padded or not, is a GPT signature exactly if it fits the length cap and
   encodes a Fernet token; it is then detected as one.
   */
  lemma GPTExactly(b: Bytes, padded: bool)
    ensures var sig := EncodeIn(Url, padded, b);
      && (ValidGPT(sig) <==> |sig| <= 32 * 1024 * 1024 && exists t :: Genuine(t) && TokenBytesOf(t) == b)
      && (ValidGPT(sig) ==> Detect(sig) == GPT)
  {
    hide EncodeIn, GPTDecode, FernetShaped, Genuine, TokenBytesOf, Text.TrimSpace, Detect;
    var sig := EncodeIn(Url, padded, b);
    EncodedIsTrimmed(Url, padded, b);
    EncodedCharacters(Url, padded, b);
    forall i | 0 <= i < |sig|
      ensures GPTChar(sig[i])
    {
      AlphabetIsPlain(Url, sig[i]);
    }
    GPTReadBack(b, padded);
    ShapedExactly(b);
    if |b| >= 4 { FirstFive(b, padded); }
    if |b| < 4 { TooShortForToken(b); }
    if ValidGPT(sig) { DetectedAs(sig, GPTTest); }
  }

  lemma TooShortForToken(b: Bytes)
    requires |b| < 4
    ensures !FernetShaped(b)
  {
  }

  // ----- Claude: a channel block with an id ----------------------------------------------------------

  predicate Without(parts: seq<Part>, num: nat) {
    forall i :: 0 <= i < |parts| ==> parts[i].num != num
  }

  /** What the fields of a channel block must be: an id, numbers where numbers belong, a readable model name. */
  predicate Channel(parts: seq<Part>) {
    && (forall i :: 0 <= i < |parts| ==>
          && (parts[i].num == 1 || parts[i].num == 2 || parts[i].num == 7 ==> parts[i].Number?)
          && (parts[i].num == 6 ==> parts[i].Content? && Utf8Valid(parts[i].bytes)))
    && (exists i :: 0 <= i < |parts| && parts[i].num == 1)
  }

  lemma ChannelFieldOf(p: Part)
    requires Legal(p)
    ensures ChannelField(Field(TagOf(p), RawOf(p))) <==>
      && (p.num == 1 || p.num == 2 || p.num == 7 ==> p.Number?)
      && (p.num == 6 ==> p.Content? && Utf8Valid(p.bytes))
  {
    hide RawOf, Utf8Valid;
    RawReadBack(p, []);
  }

  lemma ChannelExactly(parts: seq<Part>)
    requires AllLegal(parts)
    ensures ChannelBlock(Print(parts)) <==> Channel(parts)
  {
    hide Print, RawOf, ChannelField, Utf8Valid, Fields;
    FieldsReadBack(parts);
    var fields := FieldsOf(parts);
    forall i | 0 <= i < |parts|
      ensures fields[i].tag.num == parts[i].num
      ensures ChannelField(fields[i]) <==>
        && (parts[i].num == 1 || parts[i].num == 2 || parts[i].num == 7 ==> parts[i].Number?)
        && (parts[i].num == 6 ==> parts[i].Content? && Utf8Valid(parts[i].bytes))
    {
      ChannelFieldOf(parts[i]);
    }
  }

  /** A field found among others of different numbers is extracted whole. */
  lemma ExtractedAmong(before: seq<Part>, num: nat, bytes: Bytes, after: seq<Part>)
    requires AllLegal(before + [Content(num, bytes)] + after) && Without(before, num) && Without(after, num)
    ensures ExtractBytes(Print(before + [Content(num, bytes)] + after), num) == Some(bytes)
  {
    hide Print, RawOf, Fields, ConsumeBytes;
    var parts := before + [Content(num, bytes)] + after;
    FieldsReadBack(parts);
    RawReadBack(parts[|before|], []);
    LastAmong(parts, num, |before|, |parts|);
    assert FieldsOf(parts)[..|parts|] == FieldsOf(parts);
  }

  lemma {:induction false} LastAmong(parts: seq<Part>, num: nat, at: nat, n: nat)
    requires at < n <= |parts| && AllLegal(parts) && parts[at].Content? && parts[at].num == num
    requires forall i :: 0 <= i < |parts| && i != at ==> parts[i].num != num
    ensures AllBytes(FieldsOf(parts), num)
    ensures LastBytes(FieldsOf(parts)[..n], num) == Some(parts[at].bytes)
  {
    hide RawOf, ConsumeBytes;
    RawReadBack(parts[at], []);
    var fields := FieldsOf(parts)[..n];
    assert fields[..n - 1] == FieldsOf(parts)[..n - 1];
    if at < n - 1 { LastAmong(parts, num, at, n - 1); }
  }

  function Container(before: seq<Part>, block: seq<Part>, after: seq<Part>): seq<Part> {
    before + [Content(1, Print(block))] + after
  }

  /** A payload as Claude sends it: a channel block in field 1 of field 2, among whatever else. */
  function ClaudeMessage(before: seq<Part>, block: seq<Part>, after: seq<Part>, more: seq<Part>): seq<Part> {
    [] + [Content(2, Print(Container(before, block, after)))] + more
  }

  predicate ClaudeParts(before: seq<Part>, block: seq<Part>, after: seq<Part>, more: seq<Part>) {
    && AllLegal(block) && AllLegal(Container(before, block, after))
    && AllLegal(ClaudeMessage(before, block, after, more))
    && Without(before, 1) && Without(after, 1) && Without(more, 2)
  }

  lemma ClaudePayloadExactly(before: seq<Part>, block: seq<Part>, after: seq<Part>, more: seq<Part>)
    requires ClaudeParts(before, block, after, more)
    ensures var payload := Print(ClaudeMessage(before, block, after, more));
      payload != [] && payload[0] == 0x12 && (ClaudePayload(payload) <==> Channel(block))
  {
    hide Print, ExtractBytes, ChannelBlock, Channel;
    FirstByteOf(Content(2, Print(Container(before, block, after))), more);
    assert ClaudeMessage(before, block, after, more) == [Content(2, Print(Container(before, block, after)))] + more;
    ExtractedAmong([], 2, Print(Container(before, block, after)), more);
    ExtractedAmong(before, 1, Print(block), after);
    ChannelExactly(block);
  }

  lemma FirstByteOf(p: Part, more: seq<Part>)
    requires 8 * p.num + TagOf(p).typ < 128
    ensures var b := Print([p] + more); b != [] && b[0] == 8 * p.num + TagOf(p).typ
  {
    assert ([p] + more)[1..] == more;
  }

  /**
   A Claude payload in either normal form is a Claude signature exactly if it fits the
   length cap and its channel block is in order; it is then detected as one.
   */
  lemma ClaudeExactly(before: seq<Part>, block: seq<Part>, after: seq<Part>, more: seq<Part>)
    requires ClaudeParts(before, block, after, more)
    ensures var sig := Encode(Print(ClaudeMessage(before, block, after, more)));
      && (ValidClaude(sig, true) <==> |sig| <= 32 * 1024 * 1024 && Channel(block))
      && (ValidClaude(sig, true) ==> Detect(sig) == Claude)
      && Ascii(sig)
      && var double := Encode(AsBytes(sig));
         && (ValidClaude(double, true) <==> |double| <= 32 * 1024 * 1024 && Channel(block))
         && (ValidClaude(double, true) ==> Detect(double) == Claude)
  {
    hide Print, Encode, Decode, ClaudePayload, Channel, StripPrefix, Detect, ClaudeMessage, ClaudeParts;
    var payload := Print(ClaudeMessage(before, block, after, more));
    var sig := Encode(payload);
    ClaudePayloadExactly(before, block, after, more);
    LayersShowInFirstLetter(payload);
    EncodedIsPlain(payload);
    RoundTrip(payload);
    var double := Encode(AsBytes(sig));
    EncodedIsPlain(AsBytes(sig));
    RoundTrip(AsBytes(sig));
    TextOfBytes(sig);
    if ValidClaude(sig, true) { DetectedAs(sig, ClaudeTest); }
    if ValidClaude(double, true) { DetectedAs(double, ClaudeTest); }
  }

  lemma EncodedIsPlain(b: Bytes)
    ensures StripPrefix(Encode(b)) == Encode(b) && Text.Trimmed(Encode(b)) && '#' !in Encode(b)
  {
    EncodeUsesAlphabet(b);
    CleanTextIsItsOwnStrip(Encode(b));
    EncodedIsTrimmed(Std, true, b);
  }

  // ----- Gemini: two known envelopes -------------------------------------------------------------------

  /** Field-1 records, one after the other. */
  function Records(values: seq<Bytes>): (r: seq<Part>)
    ensures |r| == |values|
  {
    seq(|values|, i requires 0 <= i < |values| => Content(1, values[i]))
  }

  predicate AllOpaque(values: seq<Bytes>) {
    forall i :: 0 <= i < |values| ==> values[i] != [] && values[i][0] == 1
  }

  lemma {:induction false} RecordsExactly(values: seq<Bytes>)
    requires AllLegal(Records(values))
    ensures Field1Records(Print(Records(values))) <==> AllOpaque(values)
  {
    hide RawOf, ConsumeTag, ConsumeBytes, PrintVarint;
    if values != [] {
      var parts := Records(values);
      var p, rest := parts[0], Print(parts[1..]);
      assert parts[1..] == Records(values[1..]);
      RecordsExactly(values[1..]);
      var t := PrintVarint(8 * p.num + TagOf(p).typ);
      var b := Print(parts);
      assert b == t + (RawOf(p) + rest);
      TagReadBack(p, RawOf(p) + rest);
      BytesReadBack(p, rest);
      assert b[|t|..] == RawOf(p) + rest && b[|t| + |RawOf(p)|..] == rest;
      assert AllOpaque(values) <==> Opaque(values[0]) && AllOpaque(values[1..]);
    }
  }

  lemma BytesReadBack(p: Part, rest: Bytes)
    requires Legal(p) && p.Content?
    ensures ConsumeBytes(RawOf(p) + rest) == Some(Taken(p.bytes, |RawOf(p)|))
  {
    hide PrintVarint, VarintFrom;
    RoomIs64Bits();
    var l := PrintVarint(|p.bytes|);
    VarintReadBack(|p.bytes|, 0, p.bytes + rest);
    assert RawOf(p) + rest == l + (p.bytes + rest);
    assert (l + (p.bytes + rest))[|l|..|l| + |p.bytes|] == p.bytes;
  }

  lemma OnlyFieldReadBack(num: nat, bytes: Bytes)
    requires Legal(Content(num, bytes))
    ensures OnlyField(Print([Content(num, bytes)]), num) == Some(bytes)
    ensures forall k :: k != num ==> OnlyField(Print([Content(num, bytes)]), k) == None
  {
    hide RawOf, ConsumeTag, ConsumeBytes, PrintVarint, Print;
    var p := Content(num, bytes);
    var t, raw := PrintVarint(8 * p.num + TagOf(p).typ), RawOf(p);
    PrintedAlone(p);
    TagReadBack(p, raw);
    BytesReadBack(p, []);
    assert raw + [] == raw && (t + raw)[|t|..] == raw;
  }

  lemma PrintedAlone(p: Part)
    ensures Print([p]) == PrintVarint(8 * p.num + TagOf(p).typ) + RawOf(p)
  {
    hide RawOf, PrintVarint;
    assert [p][1..] == [] && Print([]) == [];
  }

  lemma RecordIsNoField2(values: seq<Bytes>)
    requires values != [] && AllLegal(Records(values))
    ensures OnlyField(Print(Records(values)), 2) == None
  {
    hide RawOf, ConsumeTag, ConsumeBytes, PrintVarint;
    var parts := Records(values);
    var p, rest := parts[0], Print(parts[1..]);
    var t := PrintVarint(8 * p.num + TagOf(p).typ);
    assert Print(parts) == t + (RawOf(p) + rest);
    TagReadBack(p, RawOf(p) + rest);
  }

  lemma RecordsAreKnownExactly(values: seq<Bytes>)
    requires AllLegal(Records(values))
    ensures KnownEnvelope(Print(Records(values))) <==> values != [] && AllOpaque(values)
  {
    hide Print, OnlyField, Field1Records;
    if values == [] {
      NothingPrinted();
    } else {
      FirstByteOf(Records(values)[0], Records(values)[1..]);
      assert [Records(values)[0]] + Records(values)[1..] == Records(values);
      RecordsExactly(values);
      RecordIsNoField2(values);
    }
  }

  lemma NothingPrinted()
    ensures Print(Records([])) == []
  {
  }

  /** One opaque value in field 1 of field 2. */
  lemma NestedIsKnownExactly(value: Bytes)
    requires Legal(Content(1, value)) && Legal(Content(2, Print([Content(1, value)])))
    ensures KnownEnvelope(Print([Content(2, Print([Content(1, value)]))])) <==> Opaque(value)
  {
    hide Print, OnlyField, RawOf;
    var inner := Print([Content(1, value)]);
    var p := Content(2, inner);
    FirstByteOf(p, []);
    assert [p] + [] == [p];
    OnlyFieldReadBack(2, inner);
    OnlyFieldReadBack(1, value);
    SmallTag(Print([p]));
  }

  /** Text without its padding that happens to decode with padding expected decodes to the same. */
  lemma {:induction false} UnpaddedReadsSame(a: Alphabet, b: Bytes)
    ensures DecodeLetters(a, true, EncodeIn(a, false, b)) in {None, Some(b)}
  {
    hide Letter, Sextet, OneByte, NextByte, LastByte;
    if |b| >= 3 {
      var s := EncodeIn(a, false, b);
      assert s[4..] == EncodeIn(a, false, b[3..]);
      UnpaddedReadsSame(a, b[3..]);
      OneByteEncoded(a, b[0], b[1]);
      NextByteEncoded(a, b[0], b[1], b[2]);
      LastByteEncoded(a, b[1], b[2]);
      assert b == [b[0], b[1], b[2]] + b[3..];
    }
  }

  lemma GeminiReadBack(b: Bytes, padded: bool)
    requires |EncodeIn(Std, padded, b)| <= MAX_LEN
    ensures GeminiDecode(EncodeIn(Std, padded, b)) == Some(b)
  {
    hide EncodeIn, DecodeLetters;
    RoundTripIn(Std, padded, b);
    if !padded {
      EncodedHasNoBreaks(Std, false, b);
      UnpaddedReadsSame(Std, b);
    }
  }

  /**
   Base64 text, padded or not, is a Gemini signature exactly if it fits the length cap and
   encodes a known envelope; it is then detected as one.
   */
  lemma GeminiExactly(b: Bytes, padded: bool)
    ensures var sig := EncodeIn(Std, padded, b);
      && (ValidGemini(sig) <==> |sig| <= 32 * 1024 * 1024 && KnownEnvelope(b))
      && (ValidGemini(sig) ==> Detect(sig) == Gemini)
  {
    hide EncodeIn, KnownEnvelope, Text.TrimSpace, Detect;
    var sig := EncodeIn(Std, padded, b);
    EncodedIsTrimmed(Std, padded, b);
    EncodedIsNoSentinel(padded, b);
    if |sig| <= MAX_LEN { GeminiReadBack(b, padded); }
    EmptyIsUnknown(b, padded);
    if ValidGemini(sig) { DetectedAs(sig, GeminiTest); }
  }

  lemma EmptyIsUnknown(b: Bytes, padded: bool)
    ensures EncodeIn(Std, padded, b) == [] ==> b == [] && !KnownEnvelope(b)
  {
  }

  lemma EncodedIsNoSentinel(padded: bool, b: Bytes)
    ensures !IsBypass(EncodeIn(Std, padded, b))
  {
    hide EncodeIn, Text.TrimSpace;
    var sig := EncodeIn(Std, padded, b);
    EncodedIsTrimmed(Std, padded, b);
    EncodedCharacters(Std, padded, b);
    assert SKIP_VALIDATOR[4] == '_' && CONTEXT_ENGINEERING[7] == '_';
    if IsBypass(sig) {
      AlphabetIsPlain(Std, if sig == SKIP_VALIDATOR then sig[4] else sig[7]);
    }
  }

  // ----- prefixes and targets ------------------------------------------------------------------------------

  function ProviderOf(r: Recogniser): Provider {
    match r
    case BypassTest => GeminiBypass
    case GPTTest => GPT
    case ClaudeTest => Claude
    case GeminiTest => Gemini
  }

  /** The names a recogniser's provider goes by before a '#'. */
  function NamesOf(r: Recogniser): set<string> {
    match r
    case GPTTest => {"openai", "gpt", "codex"}
    case ClaudeTest => {"claude", "anthropic"}
    case _ => {"gemini", "google"}
  }

  /** A signature carries over under its own provider's name, in any letter case, and under no other. */
  lemma PrefixedExactly(prefix: string, sig: string, r: Recogniser)
    requires Text.Trimmed(prefix) && prefix != "" && '#' !in prefix
    requires Text.Trimmed(sig) && sig != "" && '#' !in sig && Accepts(r, sig)
    ensures Detect(prefix + "#" + sig) == if Text.ToLower(prefix) in NamesOf(r) then ProviderOf(r) else UnknownProvider
  {
    hide ValidClaude, ValidGemini, ValidGPT, IsBypass, Accepts, NamesOf, ProviderOfPrefix, IndexOf, SplitPrefix;
    SplitAtHash(prefix, sig);
    AcceptsOnlyOne(sig, r);
    NamesExactly(prefix, r);
  }

  lemma SplitAtHash(prefix: string, sig: string)
    requires Text.Trimmed(prefix) && prefix != "" && '#' !in prefix && Text.Trimmed(sig) && sig != ""
    ensures var whole, p := prefix + "#" + sig, ProviderOfPrefix(prefix);
      && Text.TrimSpace(whole) == whole && '#' in whole
      && SplitPrefix(whole) == if p == UnknownProvider then NoPrefix else Prefixed(p, sig)
  {
    hide ProviderOfPrefix, IndexOf;
    var whole := prefix + "#" + sig;
    Text.TrimmedIsFixed(sig);
    Text.TrimmedIsFixed(whole);
    CutAtHash(prefix, sig);
    assert whole[|prefix|] == '#';
  }

  lemma NamesExactly(prefix: string, r: Recogniser)
    requires Text.Trimmed(prefix)
    ensures ProviderOfPrefix(prefix) == Target(ProviderOf(r)) <==> Text.ToLower(prefix) in NamesOf(r)
  {
    hide Text.ToLower;
    Text.TrimmedIsFixed(prefix);
  }

  lemma {:induction false} CutAtHash(prefix: string, rest: string)
    requires '#' !in prefix
    ensures var whole := prefix + "#" + rest;
      IndexOf(whole, '#') == |prefix| && whole[..|prefix|] == prefix && whole[|prefix| + 1..] == rest
  {
    var whole := prefix + "#" + rest;
    assert forall k :: 0 <= k < |prefix| ==> whole[k] != '#';
    assert whole[|prefix|] == '#';
  }

  lemma AcceptsOnlyOne(sig: string, r: Recogniser)
    requires Text.Trimmed(sig) && '#' !in sig && Accepts(r, sig)
    ensures IsBypass(sig) == (r == BypassTest) && ValidGPT(sig) == (r == GPTTest)
    ensures ValidClaude(sig, true) == (r == ClaudeTest) && ValidGemini(sig) == (r == GeminiTest)
  {
    hide ValidClaude, ValidGemini, ValidGPT, IsBypass;
    forall other: Recogniser | Accepts(other, sig)
      ensures other == r
    {
      AtMostOneAccepts(sig, r, other);
    }
    assert IsBypass(sig) ==> Accepts(BypassTest, sig);
    assert ValidGPT(sig) ==> Accepts(GPTTest, sig);
    assert ValidClaude(sig, true) ==> Accepts(ClaudeTest, sig);
    assert ValidGemini(sig) ==> Accepts(GeminiTest, sig);
  }

  /** A recognised signature is compatible with its own provider's target, and with no other. */
  lemma CompatibleExactly(sig: string, r: Recogniser, target: Provider)
    requires Text.Trimmed(sig) && sig != "" && '#' !in sig && Accepts(r, sig)
    ensures Compatible(target, sig) <==> match target
      case Claude => r == ClaudeTest
      case GPT => r == GPTTest
      case UnknownProvider => false
      case _ => r == GeminiTest || r == BypassTest
  {
    hide Accepts, Detect;
    DetectedAs(sig, r);
  }

  /** Two sentinels let Gemini skip validation, and nothing else does. */
  lemma SentinelsExactly(sig: string)
    requires Text.Trimmed(sig) && '#' !in sig
    ensures Detect(sig) == GeminiBypass
      <==> sig == "skip_thought_signature_validator" || sig == "context_engineering_is_the_way_to_go"
  {
    hide ValidClaude, ValidGemini, ValidGPT;
    Text.TrimmedIsFixed(sig);
    if sig != "" { NoHashNoSplit(sig); }
  }
}
