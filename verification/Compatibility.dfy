/** Which provider a signature belongs to, and what to do with it for a target provider. */
module Compatibility {
  import opened Prelude
  import opened Bytes
  import opened Recognisers
  import opened ClaudeSignature
  import Base64
  import Text

  datatype Provider = UnknownProvider | Claude | Gemini | GeminiBypass | GPT

  datatype BlockKind = UnknownBlock | ClaudeThinking | GeminiModelPart | GeminiFunctionCall | GPTReasoning

  datatype Action = Preserve | DropBlock | DropSignature | ReplaceWithGeminiBypass | NoCompatibleReplacement

  datatype Decision = Decision(target: Provider, detected: Provider, kind: BlockKind, compatible: bool,
                               action: Action, replacement: string, normalized: string)

  /** SignatureProviderFromCachePrefix */
  function ProviderOfPrefix(prefix: string): Provider {
    var p := Text.ToLower(Text.TrimSpace(prefix));
    if p == "claude" || p == "anthropic" then Claude
    else if p == "gemini" || p == "google" then Gemini
    else if p == "openai" || p == "gpt" || p == "codex" then GPT
    else UnknownProvider
  }

  datatype Split = NoPrefix | Prefixed(provider: Provider, rest: string)

  /** SplitSignatureProviderPrefix */
  function SplitPrefix(raw: string): (r: Split)
    ensures r.Prefixed? ==> '#' in Text.TrimSpace(raw)
  {
    var sig := Text.TrimSpace(raw);
    var i := IndexOf(sig, '#');
    if i == |sig| then NoPrefix
    else
      var p := ProviderOfPrefix(sig[..i]);
      if p == UnknownProvider then NoPrefix else Prefixed(p, Text.TrimSpace(sig[i + 1..]))
  }

  /** SignaturePayloadWithoutProviderPrefix */
  function Payload(raw: string): string {
    match SplitPrefix(raw)
    case NoPrefix => Text.TrimSpace(raw)
    case Prefixed(_, rest) => rest
  }

  /** DetectSignatureProviderForBlock; the block kind plays no part in the verdict. */
  function Detect(raw: string): Provider {
    var sig := Text.TrimSpace(raw);
    if sig == "" then UnknownProvider
    else
      match SplitPrefix(sig)
      case Prefixed(p, rest) =>
        if p == Gemini && IsBypass(rest) then GeminiBypass
        else if p == Gemini && ValidGemini(rest) then Gemini
        else if p == Claude && ValidClaude(rest, true) then Claude
        else if p == GPT && ValidGPT(rest) then GPT
        else UnknownProvider
      case NoPrefix =>
        if '#' in sig then UnknownProvider
        else if IsBypass(sig) then GeminiBypass
        else if ValidGPT(sig) then GPT
        else if ValidClaude(sig, true) then Claude
        else if ValidGemini(sig) then Gemini
        else UnknownProvider
  }

  function Target(p: Provider): Provider {
    if p == GeminiBypass then Gemini else p
  }

  /** signatureProviderMatchesTarget */
  predicate Matches(target: Provider, detected: Provider) {
    match target
    case Gemini => detected == Gemini || detected == GeminiBypass
    case Claude => detected == Claude
    case GPT => detected == GPT
    case _ => false
  }

  /** normalizeCompatibleSignatureForProvider */
  function Normalized(target: Provider, raw: string): string {
    var payload := Payload(raw);
    match Target(target)
    case Claude => if Native(payload, false).Some? then Native(payload, false).value else ""
    case Gemini => if IsBypass(payload) || ValidGemini(payload) then payload else ""
    case GPT => if ValidGPT(payload) then payload else ""
    case _ => ""
  }

  /** DecideSignatureCompatibility */
  function Decide(requested: Provider, raw: string, kind: BlockKind): Decision {
    var target, detected := Target(requested), Detect(raw);
    if Matches(target, detected) then
      Decision(target, detected, kind, true, Preserve, "", Normalized(target, raw))
    else if target == Gemini && (kind == GeminiFunctionCall || kind == GeminiModelPart || kind == UnknownBlock) then
      Decision(target, detected, kind, false, ReplaceWithGeminiBypass, SKIP_VALIDATOR, "")
    else if target == Gemini || target == Claude || target == GPT then
      Decision(target, detected, kind, false, DropBlock, "", "")
    else
      Decision(target, detected, kind, false, NoCompatibleReplacement, "", "")
  }

  predicate Compatible(target: Provider, raw: string) {
    Matches(Target(target), Detect(raw))
  }

  /** The signature a preserved block ends up with. */
  function Kept(target: Provider, raw: string): string {
    if Normalized(target, raw) != "" then Normalized(target, raw) else raw
  }

  // ----- strict implies plain -------------------------------------------------------------------

  lemma StrictIsValid(raw: string)
    requires ValidClaude(raw, true)
    ensures ValidClaude(raw, false)
    ensures Native(raw, false) == Native(raw, true) && Native(raw, true).Some?
  {
  }

  // ----- keeping a signature and looking at it again ----------------------------------------------

  lemma NoHashNoSplit(s: string)
    requires '#' !in Text.TrimSpace(s)
    ensures SplitPrefix(s) == NoPrefix && Payload(s) == Text.TrimSpace(s)
  {
    assert IndexOf(Text.TrimSpace(s), '#') == |Text.TrimSpace(s)|;
  }

  /** A trimmed '#'-free signature that a recogniser accepts is detected as that recogniser's provider. */
  lemma DetectedAs(s: string, r: Recogniser)
    requires Text.Trimmed(s) && s != "" && '#' !in s && Accepts(r, s)
    ensures Detect(s) == match r
      case BypassTest => GeminiBypass
      case GPTTest => GPT
      case ClaudeTest => Claude
      case GeminiTest => Gemini
  {
    hide ValidClaude, ValidGemini, ValidGPT, IsBypass;
    Text.TrimmedIsFixed(s);
    NoHashNoSplit(s);
    forall other: Recogniser | Accepts(other, s)
      ensures other == r
    {
      AtMostOneAccepts(s, r, other);
    }
    assert IsBypass(s) ==> Accepts(BypassTest, s);
    assert ValidGPT(s) ==> Accepts(GPTTest, s);
    assert ValidClaude(s, true) ==> Accepts(ClaudeTest, s);
  }

  lemma PayloadIsTrimmed(raw: string)
    ensures Text.Trimmed(Payload(raw))
  {
    Text.TrimSpaceIdempotent(raw);
    var sig := Text.TrimSpace(raw);
    if IndexOf(sig, '#') < |sig| { Text.TrimSpaceIdempotent(sig[IndexOf(sig, '#') + 1..]); }
  }

  /** A match says the payload itself passes the target's recogniser. */
  lemma CompatiblePayload(target: Provider, raw: string)
    requires Compatible(target, raw)
    ensures Payload(raw) != ""
    ensures match Target(target)
      case Claude => ValidClaude(Payload(raw), true)
      case Gemini => IsBypass(Payload(raw)) || ValidGemini(Payload(raw))
      case GPT => ValidGPT(Payload(raw))
      case _ => false
  {
    hide ValidClaude, ValidGemini, ValidGPT, IsBypass, Text.TrimSpace;
    Text.TrimSpaceIdempotent(raw);
    BlankIsNothing();
  }

  lemma BlankIsNothing()
    ensures !ValidClaude("", true) && !ValidGemini("") && !ValidGPT("") && !IsBypass("")
  {
  }

  lemma DecodedHasNoHash(sig: string)
    requires ValidGemini(sig) || ValidGPT(sig) || IsBypass(sig)
    requires Text.Trimmed(sig)
    ensures '#' !in sig
  {
    hide Base64.Decode, FernetShaped, GPTDecode, KnownEnvelope, Text.TrimSpace;
    Text.TrimmedIsFixed(sig);
    if ValidGPT(sig) {
    } else if IsBypass(sig) {
      SentinelsHaveNoHash();
    } else if Base64.DecodeStd(sig).Some? {
      Base64.DecodableCharacters(Base64.Std, true, sig);
    } else {
      Base64.DecodableCharacters(Base64.Std, false, sig);
    }
  }

  lemma SentinelsHaveNoHash()
    ensures '#' !in SKIP_VALIDATOR && '#' !in CONTEXT_ENGINEERING
  {
  }

  /**
   Keeping a compatible signature yields one that is again compatible; keeping that one
   only trims it. For every target but Claude nothing is left to trim.
   */
  lemma KeptTwice(target: Provider, raw: string)
    requires Compatible(target, raw)
    ensures var kept := Kept(target, raw);
      && kept != ""
      && Compatible(target, kept) && Kept(target, kept) == Text.TrimSpace(kept)
      && Compatible(target, Text.TrimSpace(kept)) && Kept(target, Text.TrimSpace(kept)) == Text.TrimSpace(kept)
      && (Target(target) != Claude ==> Text.TrimSpace(kept) == kept)
  {
    CompatiblePayload(target, raw);
    PayloadIsTrimmed(raw);
    if Target(target) == Claude {
      KeptTwiceClaude(target, raw);
    } else {
      KeptTwiceOther(target, raw);
    }
  }

  lemma KeptTwiceClaude(target: Provider, raw: string)
    requires Target(target) == Claude && ValidClaude(Payload(raw), true)
    ensures var kept := Kept(target, raw);
      && kept != ""
      && Compatible(target, kept) && Kept(target, kept) == Text.TrimSpace(kept)
      && Compatible(target, Text.TrimSpace(kept)) && Kept(target, Text.TrimSpace(kept)) == Text.TrimSpace(kept)
  {
    hide ValidClaude, Native, IndexOf;
    StrictIsValid(Payload(raw));
    var kept := Native(Payload(raw), true).value;
    NativeIsSingleLayer(Payload(raw), true);
    NativeOfNative(Payload(raw), true);
    assert Kept(target, raw) == kept;
    var t := Text.TrimSpace(kept);
    Text.TrimSpaceIdempotent(kept);
    BlankIsNothing();
    NoHashNoSplit(kept);
    NoHashNoSplit(t);
    StrictIsValid(t);
    DetectedAs(t, ClaudeTest);
  }

  lemma KeptTwiceOther(target: Provider, raw: string)
    requires Target(target) == Gemini || Target(target) == GPT
    requires Text.Trimmed(Payload(raw)) && Payload(raw) != ""
    requires Target(target) == Gemini ==> IsBypass(Payload(raw)) || ValidGemini(Payload(raw))
    requires Target(target) == GPT ==> ValidGPT(Payload(raw))
    ensures var kept := Kept(target, raw);
      kept == Payload(raw) && Text.TrimSpace(kept) == kept && Compatible(target, kept) && Kept(target, kept) == kept
  {
    hide ValidGemini, ValidGPT, IsBypass, IndexOf;
    var p := Payload(raw);
    Text.TrimmedIsFixed(p);
    DecodedHasNoHash(p);
    NoHashNoSplit(p);
    if Target(target) == GPT { DetectedAs(p, GPTTest); }
    else if IsBypass(p) { DetectedAs(p, BypassTest); }
    else { DetectedAs(p, GeminiTest); }
  }

  /** The protobuf bytes of a Claude signature, beneath its one or two base64 layers. */
  function ClaudeBytes(sig: string): Option<Bytes> {
    var t := StripPrefix(sig);
    if t == "" then None
    else if t[0] != 'R' then Base64.DecodeStd(t)
    else
      match Base64.DecodeStd(t)
      case None => None
      case Some(inner) => Base64.DecodeStd(AsText(inner))
  }

  /** `kept` says the same as `raw` does: the same decoded bytes for Claude, the payload itself for the others. */
  predicate Carries(target: Provider, raw: string, kept: string) {
    match Target(target)
    case Claude => ClaudeBytes(Payload(raw)) != None && ClaudeBytes(kept) == ClaudeBytes(Payload(raw))
    case _ => kept == Payload(raw)
  }

  /** Keeping a compatible signature never changes what it carries. */
  lemma KeptCarriesPayload(target: Provider, raw: string)
    requires Compatible(target, raw)
    ensures Carries(target, raw, Kept(target, raw))
  {
    hide Text.TrimSpace, Detect, ValidClaude, StripPrefix, Payload, SingleLayer, DoubleLayer, Base64.DecodeStd;
    hide ClaudeBytes, IsBypass, ValidGemini, ValidGPT;
    CompatiblePayload(target, raw);
    if Target(target) == Claude {
      StrictIsValid(Payload(raw));
      NativeIsSingleLayer(Payload(raw), true);
      NativeCarries(Payload(raw));
    }
  }

  lemma NativeCarries(payload: string)
    requires ValidClaude(payload, true)
    ensures ClaudeBytes(payload) != None && ClaudeBytes(Native(payload, true).value) == ClaudeBytes(payload)
  {
    hide Base64.Decode, Text.TrimSpace, ClaudePayload;
    var sig, n := StripPrefix(payload), Native(payload, true).value;
    NativeIsSingleLayer(payload, true);
    SingleLayerDecodes(n, true);
    if sig[0] == 'E' {
      StripIsStable(payload, true);
    } else {
      TrimKeepsDecoding(n);
      NoHashStrips(n);
    }
  }

  lemma NoHashStrips(s: string)
    requires '#' !in Text.TrimSpace(s)
    ensures StripPrefix(s) == Text.TrimSpace(s)
  {
  }

  /** A double-layered Claude signature whose inner layer, once decoded, ends in a line feed or carriage return. */
  predicate EndsInBreak(raw: string) {
    InnerEndsInBreak(StripPrefix(Payload(raw)))
  }

  predicate InnerEndsInBreak(sig: string) {
    var inner := Base64.DecodeStd(sig);
    sig != "" && sig[0] == 'R' && inner.Some? && inner.value != [] && inner.value[|inner.value| - 1] in {10, 13}
  }

  /**
   What is kept of a compatible Claude signature has outer white space exactly when its inner layer ends in a
   break.
   */
  lemma KeptHasSpaceExactly(raw: string)
    requires Compatible(Claude, raw)
    ensures Text.TrimSpace(Kept(Claude, raw)) != Kept(Claude, raw) <==> EndsInBreak(raw)
  {
    hide Text.TrimSpace, Detect, ValidClaude, StripPrefix, Payload, SingleLayer, DoubleLayer, Base64.DecodeStd;
    CompatiblePayload(Claude, raw);
    NativeSpaceExactly(Payload(raw));
    StrictIsValid(Payload(raw));
    NativeIsSingleLayer(Payload(raw), true);
  }

  lemma NativeSpaceExactly(payload: string)
    requires ValidClaude(payload, true)
    ensures var n := Native(payload, true).value;
      Text.TrimSpace(n) != n <==> InnerEndsInBreak(StripPrefix(payload))
  {
    hide Base64.Decode, Text.TrimSpace, StripPrefix, ClaudePayload;
    var sig := StripPrefix(payload);
    var n := Native(payload, true).value;
    StripTrims(payload);
    NativeIsSingleLayer(payload, true);
    SingleLayerDecodes(n, true);
    Base64.DecodableCharacters(Base64.Std, true, n) by { assert Base64.DecodeStd(n).Some?; }
    Text.TrimSpaceIdempotent(n);
    if Text.Trimmed(n) { Text.TrimmedIsFixed(n); }
    if sig[0] == 'R' { assert n == AsText(Base64.DecodeStd(sig).value); }
  }

  /** The sentinel written for an incompatible call is itself compatible and stays. */
  lemma SentinelStays(target: Provider)
    requires Target(target) == Gemini
    ensures Compatible(target, SKIP_VALIDATOR) && Kept(target, SKIP_VALIDATOR) == SKIP_VALIDATOR
  {
    hide ValidGemini, ValidGPT, ValidClaude, IndexOf;
    Text.TrimmedIsFixed(SKIP_VALIDATOR);
    SentinelsHaveNoHash();
    NoHashNoSplit(SKIP_VALIDATOR);
    DetectedAs(SKIP_VALIDATOR, BypassTest);
  }
}
