/**
 The signature recognisers: GPT, strict Claude, Gemini's known envelopes and Gemini's
 bypass sentinels, each as an independent check on the same string.
 */
module Recognisers {
  import opened Prelude
  import opened Bytes
  import opened Base64
  import opened ProtoWire
  import Text

  const MAX_LEN := 32 * 1024 * 1024

  // ----- Claude: one or two base64 layers around a protobuf tree ------------------------------

  function IndexOf(s: string, c: char): (n: nat)
    ensures n <= |s|
    ensures n < |s| ==> s[n] == c
    ensures forall i :: 0 <= i < n ==> s[i] != c
  {
    if s == [] || s[0] == c then 0 else 1 + IndexOf(s[1..], c)
  }

  /** stripClaudeSignaturePrefix: drop anything up to the first '#'. */
  function StripPrefix(raw: string): string {
    var sig := Text.TrimSpace(raw);
    var i := IndexOf(sig, '#');
    if i < |sig| then Text.TrimSpace(sig[i + 1..]) else sig
  }

  /** A byte string read as text; bytes above 127 are never valid in what follows. */
  function AsText(b: Bytes): (s: string)
    ensures |s| == |b|
  {
    seq(|b|, i requires 0 <= i < |b| => b[i] as char)
  }

  ghost predicate Ascii(s: string) {
    forall i :: 0 <= i < |s| ==> s[i] as int < 128
  }

  predicate IsContinuation(b: Byte) {
    0x80 <= b < 0xC0
  }

  /** utf8.Valid */
  predicate Utf8Valid(b: Bytes) {
    if b == [] then true
    else if b[0] < 0x80 then Utf8Valid(b[1..])
    else if |b| >= 2 && 0xC2 <= b[0] < 0xE0 then IsContinuation(b[1]) && Utf8Valid(b[2..])
    else if |b| >= 3 && 0xE0 <= b[0] < 0xF0 then
      && IsContinuation(b[1]) && IsContinuation(b[2])
      && (b[0] == 0xE0 ==> b[1] >= 0xA0) && (b[0] == 0xED ==> b[1] < 0xA0)
      && Utf8Valid(b[3..])
    else if |b| >= 4 && 0xF0 <= b[0] < 0xF5 then
      && IsContinuation(b[1]) && IsContinuation(b[2]) && IsContinuation(b[3])
      && (b[0] == 0xF0 ==> b[1] >= 0x90) && (b[0] == 0xF4 ==> b[1] < 0x90)
      && Utf8Valid(b[4..])
    else false
  }

  /** extractClaudeBytesField: the last field with this number; all of them must be bytes. */
  function LastBytes(fields: seq<Field>, num: nat): (r: Option<Bytes>)
  {
    if fields == [] then None
    else
      var f := fields[|fields| - 1];
      if f.tag.num == num && f.tag.typ == BYTES && ConsumeBytes(f.raw).Some?
      then Some(ConsumeBytes(f.raw).value.value)
      else LastBytes(fields[..|fields| - 1], num)
  }

  predicate AllBytes(fields: seq<Field>, num: nat) {
    forall i :: 0 <= i < |fields| && fields[i].tag.num == num ==>
      fields[i].tag.typ == BYTES && ConsumeBytes(fields[i].raw).Some?
  }

  function ExtractBytes(msg: Bytes, num: nat): Option<Bytes> {
    match Fields(msg)
    case None => None
    case Some(fields) => if AllBytes(fields, num) then LastBytes(fields, num) else None
  }

  /** What inspectClaudeChannelBlock demands of one field. */
  predicate ChannelField(f: Field) {
    if f.tag.num == 1 || f.tag.num == 2 || f.tag.num == 7 then f.tag.typ == VARINT && ConsumeVarint(f.raw).Some?
    else if f.tag.num == 6 then
      f.tag.typ == BYTES && ConsumeBytes(f.raw).Some? && Utf8Valid(ConsumeBytes(f.raw).value.value)
    else true
  }

  /** inspectClaudeChannelBlock succeeds: well-formed fields, a channel id among them. */
  predicate ChannelBlock(block: Bytes) {
    match Fields(block)
    case None => false
    case Some(fields) =>
      && (forall i :: 0 <= i < |fields| ==> ChannelField(fields[i]))
      && (exists i :: 0 <= i < |fields| && fields[i].tag.num == 1)
  }

  /** InspectClaudeSignaturePayload succeeds. */
  predicate ClaudePayload(payload: Bytes) {
    && payload != [] && payload[0] == 0x12
    && ExtractBytes(payload, 2).Some?
    && ExtractBytes(ExtractBytes(payload, 2).value, 1).Some?
    && ChannelBlock(ExtractBytes(ExtractBytes(payload, 2).value, 1).value)
  }

  /** validateClaudeSingleLayerSignatureContent */
  predicate SingleLayer(sig: string, strict: bool) {
    var decoded := DecodeStd(sig);
    && decoded.Some? && decoded.value != [] && decoded.value[0] == 0x12
    && (strict ==> ClaudePayload(decoded.value))
  }

  /** validateClaudeDoubleLayerSignature */
  predicate DoubleLayer(sig: string, strict: bool) {
    var decoded := DecodeStd(sig);
    && decoded.Some? && decoded.value != [] && decoded.value[0] == 'E' as int
    && SingleLayer(AsText(decoded.value), strict)
  }

  /** IsValidClaudeThinkingSignature without PrefixOnly or Base64Only. */
  predicate ValidClaude(raw: string, strict: bool) {
    var sig := StripPrefix(raw);
    && sig != [] && |sig| <= MAX_LEN
    && (if sig[0] == 'R' then DoubleLayer(sig, strict)
        else sig[0] == 'E' && SingleLayer(sig, strict))
  }

  // ----- Gemini --------------------------------------------------------------------------------

  const SKIP_VALIDATOR := "skip_thought_signature_validator"
  const CONTEXT_ENGINEERING := "context_engineering_is_the_way_to_go"

  /** IsGeminiThoughtSignatureBypass */
  predicate IsBypass(raw: string) {
    Text.TrimSpace(raw) == SKIP_VALIDATOR || Text.TrimSpace(raw) == CONTEXT_ENGINEERING
  }

  /** decodeGeminiThoughtSignature: padded first, then unpadded. */
  function GeminiDecode(sig: string): Option<Bytes> {
    if |sig| > MAX_LEN then None
    else if DecodeStd(sig).Some? then DecodeStd(sig)
    else Decode(Std, false, sig)
  }

  /** Wrapped payloads start with version byte 1. */
  predicate Opaque(value: Bytes) {
    value != [] && value[0] == 0x01
  }

  /** inspectGeminiField1Envelope's loop: nothing but field-1 records of opaque payloads. */
  predicate Field1Records(b: Bytes)
    decreases |b|
  {
    if b == [] then true
    else
      var t := ConsumeTag(b);
      && t.Some? && t.value.value.num == 1 && t.value.value.typ == BYTES
      && var v := ConsumeBytes(b[t.value.size..]);
         v.Some? && Opaque(v.value.value) && Field1Records(b[t.value.size + v.value.size..])
  }

  /** A single bytes field with this number and nothing after it. */
  function OnlyField(b: Bytes, num: nat): Option<Bytes> {
    var t := ConsumeTag(b);
    if t.None? || t.value.value.num != num || t.value.value.typ != BYTES then None
    else
      var v := ConsumeBytes(b[t.value.size..]);
      if v.None? || t.value.size + v.value.size != |b| then None else Some(v.value.value)
  }

  /** consumeGeminiField2Field1Value */
  function Field2Field1(b: Bytes): Option<Bytes> {
    match OnlyField(b, 2)
    case None => None
    case Some(container) => OnlyField(container, 1)
  }

  predicate IsHexDigit(b: Byte) {
    48 <= b <= 57 || 97 <= b <= 102 || 65 <= b <= 70
  }

  predicate IsUuid(b: Bytes) {
    |b| == 36 && forall i :: 0 <= i < 36 ==>
      if i == 8 || i == 13 || i == 18 || i == 23 then b[i] == '-' as int else IsHexDigit(b[i])
  }

  /** classifyGeminiThoughtSignatureEnvelope's "known" verdict. */
  predicate KnownEnvelope(b: Bytes) {
    && b != [] && !IsUuid(b)
    && (Field1Records(b) || (Field2Field1(b).Some? && Opaque(Field2Field1(b).value)))
  }

  /** isRecognizedGeminiProviderSignature */
  predicate ValidGemini(raw: string) {
    var sig := Text.TrimSpace(raw);
    && sig != [] && !IsBypass(sig)
    && var b := GeminiDecode(sig);
       b.Some? && KnownEnvelope(b.value)
  }

  // ----- GPT ----------------------------------------------------------------------------------------

  predicate GPTChar(c: char) {
    'A' <= c <= 'Z' || 'a' <= c <= 'z' || '0' <= c <= '9' || c == '-' || c == '_' || c == '='
  }

  function GPTDecode(sig: string): Option<Bytes> {
    if Decode(Url, false, sig).Some? then Decode(Url, false, sig) else Decode(Url, true, sig)
  }

  /** InspectGPTReasoningSignature succeeds: a Fernet-shaped token with whole AES blocks. */
  predicate ValidGPT(raw: string) {
    var sig := Text.TrimSpace(raw);
    && sig != [] && |sig| <= MAX_LEN
    && (forall i :: 0 <= i < |sig| ==> GPTChar(sig[i]))
    && "gAAAA" <= sig
    && GPTDecode(sig).Some? && FernetShaped(GPTDecode(sig).value)
  }

  /** Version byte, time stamp, IV and MAC around a positive whole number of AES blocks. */
  predicate FernetShaped(b: Bytes) {
    && |b| >= 73 && b[0] == 0x80
    && |b| - 1 - 8 - 16 - 32 > 0 && (|b| - 1 - 8 - 16 - 32) % 16 == 0
  }

  // ----- the recognisers never agree -----------------------------------------------------------------

  /** A valid Claude signature starts with E or R, whatever prefix was dropped. */
  lemma GeminiSeesWhatClaudeSees(sig: string)
    requires Text.Trimmed(sig) && ValidClaude(sig, true) && '#' !in sig && |sig| <= MAX_LEN
    ensures StripPrefix(sig) == sig && sig != []
    ensures GeminiDecode(sig) == DecodeStd(sig) && DecodeStd(sig).Some?
  {
    Text.TrimmedIsFixed(sig);
    assert IndexOf(sig, '#') == |sig|;
  }

  /** The key step: a Claude channel block cannot start with the version byte of an opaque payload. */
  lemma ChannelBlockIsNotOpaque(block: Bytes)
    requires ChannelBlock(block)
    ensures !Opaque(block)
  {
    if block != [] && block[0] < 8 {
      ZeroTagIsIllegal(block);
    }
  }

  /** If the whole message is one bytes field, that field is what a walk extracts. */
  lemma OnlyFieldIsExtracted(b: Bytes, num: nat)
    requires OnlyField(b, num).Some?
    ensures ExtractBytes(b, num) == OnlyField(b, num)
  {
    var t := ConsumeTag(b).value;
    var v := ConsumeBytes(b[t.size..]).value;
    assert ValueSize(t.value, b[t.size..], RECURSION_LIMIT) == Some(v.size);
    assert b[t.size + v.size..] == [];
    var raw := b[t.size..t.size + v.size];
    assert raw == b[t.size..];
    var f := Field(t.value, raw);
    assert Fields(b) == Some([f] + []);
    assert [f][..0] == [];
    assert [f] + [] == [f];
    assert LastBytes([f], num) == Some(v.value);
  }

  lemma ClaudePayloadIsNoEnvelope(b: Bytes)
    requires ClaudePayload(b)
    ensures !KnownEnvelope(b)
  {
    SmallTag(b);
    if Field2Field1(b).Some? {
      OnlyFieldIsExtracted(b, 2);
      var container := OnlyField(b, 2).value;
      OnlyFieldIsExtracted(container, 1);
      ChannelBlockIsNotOpaque(OnlyField(container, 1).value);
    }
  }

  /** The outer bytes of an R-form start with 'E', which is no Gemini field. */
  lemma EnvelopeNeverStartsWithE(b: Bytes)
    requires b != [] && b[0] == 'E' as int
    ensures !KnownEnvelope(b)
  {
    SmallTag(b);
  }

  lemma ClaudeAndGeminiDisjoint(sig: string)
    requires Text.Trimmed(sig) && '#' !in sig && ValidClaude(sig, true)
    ensures !ValidGemini(sig)
  {
    hide KnownEnvelope, ClaudePayload, DecodeStd;
    Text.TrimmedIsFixed(sig);
    assert StripPrefix(sig) == sig by { assert IndexOf(sig, '#') == |sig|; }
    GeminiSeesWhatClaudeSees(sig);
    var b := DecodeStd(sig).value;
    if sig[0] == 'R' {
      EnvelopeNeverStartsWithE(b);
    } else {
      ClaudePayloadIsNoEnvelope(b);
    }
  }

  /** A string starting "gA" decodes, if at all, to bytes starting with 0x80; "gAAAA" to 0x80 0 0. */
  lemma TokenBytes(a: Alphabet, padded: bool, s: string)
    requires "gAAAA" <= s && Decode(a, padded, s).Some?
    ensures var b := Decode(a, padded, s).value;
      |b| >= 3 && b[0] == 0x80 && b[1] == 0 && b[2] == 0
  {
    assert s[0] == 'g' && s[1] == 'A' && s[2] == 'A' && s[3] == 'A' && s[4] == 'A';
    var t := WithoutBreaks(s);
    SkipFirstFour(s);
    assert t[..4] == "gAAA";
    assert Letters(a, t[..4]);
  }

  lemma SkipFirstFour(s: string)
    requires |s| >= 4 && !IsBreak(s[0]) && !IsBreak(s[1]) && !IsBreak(s[2]) && !IsBreak(s[3])
    ensures |WithoutBreaks(s)| >= 4 && WithoutBreaks(s)[..4] == s[..4]
  {
    var s1, s2, s3 := s[1..], s[2..], s[3..];
    assert s1[1..] == s2 && s2[1..] == s3 && s3[1..] == s[4..];
    assert WithoutBreaks(s3) == [s[3]] + WithoutBreaks(s[4..]);
    assert WithoutBreaks(s2) == [s[2]] + WithoutBreaks(s3);
    assert WithoutBreaks(s1) == [s[1]] + WithoutBreaks(s2);
    assert WithoutBreaks(s) == [s[0]] + WithoutBreaks(s1);
  }

  /** 0x80 0x00 is a varint of value 0 - possibly followed by more zero groups - so not a legal tag. */
  lemma TokenHasNoTag(b: Bytes)
    requires |b| >= 3 && b[0] == 0x80 && b[1] == 0
    ensures ConsumeTag(b) == None
  {
    assert VarintFrom(b[1..], 1) == Some(Taken(0, 1));
  }

  lemma GPTAndGeminiDisjoint(sig: string)
    requires Text.Trimmed(sig) && ValidGPT(sig)
    ensures !ValidGemini(sig)
  {
    Text.TrimmedIsFixed(sig);
    if GeminiDecode(sig).Some? {
      var b := GeminiDecode(sig).value;
      if DecodeStd(sig).Some? { TokenBytes(Std, true, sig); } else { TokenBytes(Std, false, sig); }
      TokenHasNoTag(b);
    }
  }

  lemma GPTAndClaudeDisjoint(sig: string)
    requires Text.Trimmed(sig) && '#' !in sig && ValidGPT(sig)
    ensures !ValidClaude(sig, true)
  {
    Text.TrimmedIsFixed(sig);
    assert IndexOf(sig, '#') == |sig|;
    assert sig[0] == 'g';
  }

  lemma BypassDisjoint(sig: string)
    requires Text.Trimmed(sig) && '#' !in sig && IsBypass(sig)
    ensures !ValidGPT(sig) && !ValidClaude(sig, true) && !ValidGemini(sig)
  {
    hide IndexOf, SingleLayer, DoubleLayer, GPTDecode, Text.TrimSpace;
    Text.TrimmedIsFixed(sig);
    assert sig[0] == 's' || sig[0] == 'c';
    assert IndexOf(sig, '#') == |sig|;
  }

  datatype Recogniser = BypassTest | GPTTest | ClaudeTest | GeminiTest

  predicate Accepts(r: Recogniser, sig: string) {
    match r
    case BypassTest => IsBypass(sig)
    case GPTTest => ValidGPT(sig)
    case ClaudeTest => ValidClaude(sig, true)
    case GeminiTest => ValidGemini(sig)
  }

  /** No signature without '#' satisfies two recognisers. */
  lemma AtMostOneAccepts(sig: string, a: Recogniser, b: Recogniser)
    requires Text.Trimmed(sig) && '#' !in sig
    requires Accepts(a, sig) && Accepts(b, sig)
    ensures a == b
  {
    if IsBypass(sig) { BypassDisjoint(sig); }
    else if ValidGPT(sig) { GPTAndClaudeDisjoint(sig); GPTAndGeminiDisjoint(sig); }
    else if ValidClaude(sig, true) { ClaudeAndGeminiDisjoint(sig); }
  }

  /** The first recogniser, in some order, that accepts. */
  function FirstAccepting(order: seq<Recogniser>, sig: string): (r: Option<Recogniser>)
    ensures r.Some? ==> r.value in order && Accepts(r.value, sig)
    ensures r.None? ==> forall t :: t in order ==> !Accepts(t, sig)
  {
    if order == [] then None
    else if Accepts(order[0], sig) then Some(order[0])
    else FirstAccepting(order[1..], sig)
  }

  /** The verdict does not depend on the order in which the recognisers are tried. */
  lemma DetectionIsOrderIndependent(sig: string, one: seq<Recogniser>, other: seq<Recogniser>)
    requires Text.Trimmed(sig) && '#' !in sig
    requires forall r: Recogniser :: r in one <==> r in other
    ensures FirstAccepting(one, sig) == FirstAccepting(other, sig)
  {
    var a, b := FirstAccepting(one, sig), FirstAccepting(other, sig);
    if a.Some? && b.Some? { AtMostOneAccepts(sig, a.value, b.value); }
  }
}
