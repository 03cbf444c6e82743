/**
 Sanitising Claude message history for a target provider, on structured messages: what
 is kept, replaced or dropped, and the report.
 */
module SanitizerSpec {
  import opened Prelude
  import opened Recognisers
  import opened Compatibility
  import opened ClaudeSignature
  import opened Bytes
  import opened ProtoWire
  import Base64
  import Text

  /** `google` and `extra_content` objects of a tool call; `other` stands for their remaining members. */
  datatype Google = Google(thought: Option<string>, other: seq<string>)
  datatype Extra = Extra(google: Option<Google>, other: seq<string>)

  datatype Tool = Tool(body: string, signature: Option<string>, thought: Option<string>, extra: Option<Extra>)

  /** `text` is the block's thinking text; a missing signature reads as "". */
  datatype Part =
    | Thinking(body: string, text: string, signature: string)
    | ToolUse(tool: Tool)
    | Other(body: string)

  /** `content` is None when it is not an array. */
  datatype Message = Message(body: string, content: Option<seq<Part>>)

  datatype Options = Options(target: Provider, dropEmptyMessages: bool, dropToolSignatures: bool)

  datatype Report = Report(preserved: nat, droppedBlocks: nat, droppedSignatures: nat, replaced: nat,
                           decisions: seq<Decision>)

  const NOTHING := Report(0, 0, 0, 0, [])

  function Plus(a: Report, b: Report): Report {
    Report(a.preserved + b.preserved, a.droppedBlocks + b.droppedBlocks, a.droppedSignatures + b.droppedSignatures,
           a.replaced + b.replaced, a.decisions + b.decisions)
  }

  /** isEmptyClaudeThinkingPlaceholder */
  predicate Placeholder(p: Part)
    requires p.Thinking?
  {
    Text.TrimSpace(p.signature) == "" && Text.TrimSpace(p.text) == ""
  }

  predicate KeptAsIs(target: Provider, p: Part) {
    p.Other? || (p.Thinking? && target == Claude && Placeholder(p))
  }

  // ----- tool calls ---------------------------------------------------------------------

  /** The block kind under which a tool signature is judged. */
  function ToolKind(target: Provider): BlockKind {
    if target == Claude then ClaudeThinking else if target == GPT then GPTReasoning else GeminiFunctionCall
  }

  /** One signature field of a tool call: kept (normalised), replaced or deleted. */
  function FixField(target: Provider, sig: Option<string>): Option<string> {
    if sig.None? then None
    else
      match Decide(target, sig.value, ToolKind(target)).action
      case Preserve => Some(Kept(target, sig.value))
      case ReplaceWithGeminiBypass => Some(SKIP_VALIDATOR)
      case _ => None
  }

  function FieldReport(target: Provider, sig: Option<string>): Report {
    if sig.None? then NOTHING
    else
      var d := Decide(target, sig.value, ToolKind(target));
      match d.action
      case Preserve => Report(1, 0, 0, 0, [d])
      case ReplaceWithGeminiBypass => Report(0, 0, 0, 1, [d])
      case _ => Report(0, 0, 1, 0, [d])
  }

  /** Objects left empty are removed, inner one first. */
  function Cleaned(e: Option<Extra>): Option<Extra> {
    if e.None? then None
    else
      var g := if e.value.google == Some(Google(None, [])) then None else e.value.google;
      if g.None? && e.value.other == [] then None else Some(Extra(g, e.value.other))
  }

  function GoogleThought(t: Tool): Option<string> {
    if t.extra.Some? && t.extra.value.google.Some? then t.extra.value.google.value.thought else None
  }

  function WithGoogleThought(e: Option<Extra>, thought: Option<string>): Option<Extra> {
    if e.None? || e.value.google.None? then e
    else Some(e.value.(google := Some(e.value.google.value.(thought := thought))))
  }

  /** sanitizeClaudeToolUseSignature */
  function FixTool(target: Provider, t: Tool): Tool {
    t.(signature := FixField(target, t.signature), thought := FixField(target, t.thought),
       extra := Cleaned(WithGoogleThought(t.extra, FixField(target, GoogleThought(t)))))
  }

  function ToolReport(target: Provider, t: Tool): Report {
    Plus(Plus(FieldReport(target, t.signature), FieldReport(target, t.thought)), FieldReport(target, GoogleThought(t)))
  }

  /** stripClaudeToolUseSignatureFields */
  function StripTool(t: Tool): Tool {
    t.(signature := None, thought := None, extra := Cleaned(WithGoogleThought(t.extra, None)))
  }

  // ----- parts and messages ------------------------------------------------------------------

  /** What becomes of one part, and what is reported for it. */
  function FixPart(o: Options, p: Part): Option<Part> {
    match p
    case ToolUse(t) => Some(ToolUse(if o.dropToolSignatures then StripTool(t) else FixTool(o.target, t)))
    case Other(_) => Some(p)
    case Thinking(_, _, sig) =>
      if KeptAsIs(o.target, p) then Some(p)
      else
        match Decide(o.target, sig, ClaudeThinking).action
        case Preserve => Some(p.(signature := Kept(o.target, sig)))
        case ReplaceWithGeminiBypass => Some(p.(signature := SKIP_VALIDATOR))
        case DropSignature => Some(p.(signature := ""))
        case _ => None
  }

  function PartReport(o: Options, p: Part): Report {
    match p
    case ToolUse(t) =>
      if o.dropToolSignatures then (if StripTool(t) == t then NOTHING else Report(0, 0, 1, 0, []))
      else ToolReport(o.target, t)
    case Other(_) => NOTHING
    case Thinking(_, _, sig) =>
      if KeptAsIs(o.target, p) then NOTHING
      else
        var d := Decide(o.target, sig, ClaudeThinking);
        match d.action
        case Preserve => Report(1, 0, 0, 0, [d])
        case ReplaceWithGeminiBypass => Report(0, 0, 0, 1, [d])
        case DropSignature => Report(0, 0, 1, 0, [d])
        case _ => Report(0, 1, 0, 0, [d])
  }

  function FixParts(o: Options, parts: seq<Part>): seq<Part> {
    if parts == [] then []
    else
      var last := FixPart(o, parts[|parts| - 1]);
      FixParts(o, parts[..|parts| - 1]) + (if last.Some? then [last.value] else [])
  }

  function PartsReport(o: Options, parts: seq<Part>): Report {
    if parts == [] then NOTHING
    else Plus(PartsReport(o, parts[..|parts| - 1]), PartReport(o, parts[|parts| - 1]))
  }

  /** A message emptied by the sanitiser is dropped on request; one that was empty before stays. */
  function FixMessage(o: Options, m: Message): Option<Message> {
    if m.content.None? then Some(m)
    else
      var kept := FixParts(o, m.content.value);
      if kept != m.content.value && kept == [] && o.dropEmptyMessages then None
      else Some(m.(content := Some(kept)))
  }

  function MessageReport(o: Options, m: Message): Report {
    if m.content.None? then NOTHING else PartsReport(o, m.content.value)
  }

  function FixMessages(o: Options, ms: seq<Message>): seq<Message> {
    if ms == [] then []
    else
      var last := FixMessage(o, ms[|ms| - 1]);
      FixMessages(o, ms[..|ms| - 1]) + (if last.Some? then [last.value] else [])
  }

  function MessagesReport(o: Options, ms: seq<Message>): Report {
    if ms == [] then NOTHING
    else Plus(MessagesReport(o, ms[..|ms| - 1]), MessageReport(o, ms[|ms| - 1]))
  }

  // ----- the report adds up -----------------------------------------------------------------------

  predicate AddsUp(r: Report) {
    |r.decisions| == r.preserved + r.replaced + r.droppedSignatures + r.droppedBlocks
  }

  lemma PlusAddsUp(a: Report, b: Report)
    requires AddsUp(a) && AddsUp(b)
    ensures AddsUp(Plus(a, b))
  {
  }

  lemma FieldReportAddsUp(target: Provider, sig: Option<string>)
    ensures AddsUp(FieldReport(target, sig))
  {
    hide Decide;
  }

  lemma PartReportAddsUp(o: Options, p: Part)
    requires !o.dropToolSignatures
    ensures AddsUp(PartReport(o, p))
  {
    hide Decide, FieldReport, Plus;
    match p
    case ToolUse(t) =>
      FieldReportAddsUp(o.target, t.signature);
      FieldReportAddsUp(o.target, t.thought);
      FieldReportAddsUp(o.target, GoogleThought(t));
      PlusAddsUp(FieldReport(o.target, t.signature), FieldReport(o.target, t.thought));
      PlusAddsUp(Plus(FieldReport(o.target, t.signature), FieldReport(o.target, t.thought)),
                 FieldReport(o.target, GoogleThought(t)));
    case _ =>
  }

  lemma {:induction false} PartsReportAddsUp(o: Options, parts: seq<Part>)
    requires !o.dropToolSignatures
    ensures AddsUp(PartsReport(o, parts))
  {
    hide PartReport, Plus;
    if parts != [] {
      PartsReportAddsUp(o, parts[..|parts| - 1]);
      PartReportAddsUp(o, parts[|parts| - 1]);
      PlusAddsUp(PartsReport(o, parts[..|parts| - 1]), PartReport(o, parts[|parts| - 1]));
    }
  }

  /** Unless tool signatures are dropped wholesale, every decision is counted exactly once. */
  lemma {:induction false} ReportAddsUp(o: Options, ms: seq<Message>)
    requires !o.dropToolSignatures
    ensures AddsUp(MessagesReport(o, ms))
  {
    hide PartsReport, Plus;
    if ms != [] {
      ReportAddsUp(o, ms[..|ms| - 1]);
      if ms[|ms| - 1].content.Some? { PartsReportAddsUp(o, ms[|ms| - 1].content.value); }
      PlusAddsUp(MessagesReport(o, ms[..|ms| - 1]), MessageReport(o, ms[|ms| - 1]));
    }
  }

  // ----- what survives ------------------------------------------------------------------------------

  /** Every signature a sanitised part still carries can be replayed to the target. */
  predicate Replayable(o: Options, p: Part) {
    match p
    case Other(_) => true
    case Thinking(_, _, sig) => KeptAsIs(o.target, p) || Compatible(o.target, sig)
    case ToolUse(t) =>
      && (t.signature.Some? ==> Compatible(o.target, t.signature.value))
      && (t.thought.Some? ==> Compatible(o.target, t.thought.value))
      && (GoogleThought(t).Some? ==> Compatible(o.target, GoogleThought(t).value))
  }

  ghost predicate AllReplayable(o: Options, ms: seq<Message>) {
    forall i :: 0 <= i < |ms| && ms[i].content.Some? ==> forall p :: p in ms[i].content.value ==> Replayable(o, p)
  }

  lemma FixedFieldIsCompatible(target: Provider, sig: Option<string>)
    requires Target(target) == target
    ensures FixField(target, sig).Some? ==> Compatible(target, FixField(target, sig).value)
  {
    hide Detect, Kept;
    if sig.Some? && Compatible(target, sig.value) { KeptTwice(target, sig.value); }
    if target == Gemini { SentinelStays(target); }
  }

  lemma FixedPartIsReplayable(o: Options, p: Part)
    requires Target(o.target) == o.target
    ensures FixPart(o, p).Some? ==> Replayable(o, FixPart(o, p).value)
  {
    hide Detect, Kept, FixField;
    match p
    case Other(_) =>
    case Thinking(_, _, sig) =>
      if Compatible(o.target, sig) { KeptTwice(o.target, sig); }
      if o.target == Gemini { SentinelStays(o.target); }
    case ToolUse(t) =>
      FixedFieldIsCompatible(o.target, t.signature);
      FixedFieldIsCompatible(o.target, t.thought);
      FixedFieldIsCompatible(o.target, GoogleThought(t));
  }

  lemma {:induction false} FixedPartsAreReplayable(o: Options, parts: seq<Part>)
    requires Target(o.target) == o.target
    ensures forall p :: p in FixParts(o, parts) ==> Replayable(o, p)
  {
    hide FixPart, Replayable;
    if parts != [] {
      FixedPartsAreReplayable(o, parts[..|parts| - 1]);
      FixedPartIsReplayable(o, parts[|parts| - 1]);
    }
  }

  /** After sanitising, no signature incompatible with the target is left anywhere. */
  lemma {:induction false} SanitisedIsReplayable(o: Options, ms: seq<Message>)
    requires Target(o.target) == o.target
    ensures AllReplayable(o, FixMessages(o, ms))
  {
    hide FixParts, Replayable;
    if ms != [] {
      SanitisedIsReplayable(o, ms[..|ms| - 1]);
      if ms[|ms| - 1].content.Some? { FixedPartsAreReplayable(o, ms[|ms| - 1].content.value); }
    }
  }

  // ----- what is left alone --------------------------------------------------------------------------

  /** What a tool call holds besides its three signature fields; an absent object and an empty one hold nothing. */
  function Members(t: Tool): (string, seq<string>, seq<string>) {
    (t.body,
     if t.extra.Some? then t.extra.value.other else [],
     if t.extra.Some? && t.extra.value.google.Some? then t.extra.value.google.value.other else [])
  }

  /** One signature field: kept if compatible, saying the same; else Gemini's sentinel, or gone. */
  predicate FieldFollows(target: Provider, p: Option<string>, q: Option<string>) {
    match p
    case None => q == None
    case Some(sig) =>
      if Compatible(target, sig) then q.Some? && Carries(target, sig, q.value)
      else q == if Target(target) == Gemini then Some(SKIP_VALIDATOR) else None
  }

  /** q is p, its signatures saying the same where the target can use them. */
  predicate SameBut(o: Options, p: Part, q: Part) {
    match p
    case Other(_) => q == p
    case ToolUse(t) =>
      && q.ToolUse? && Members(q.tool) == Members(t)
      && (if o.dropToolSignatures then q.tool.signature == q.tool.thought == GoogleThought(q.tool) == None
          else
            && FieldFollows(o.target, t.signature, q.tool.signature)
            && FieldFollows(o.target, t.thought, q.tool.thought)
            && FieldFollows(o.target, GoogleThought(t), GoogleThought(q.tool)))
    case Thinking(body, text, sig) =>
      && q.Thinking? && q.body == body && q.text == text
      && (if KeptAsIs(o.target, p) then q == p else Compatible(o.target, sig) && Carries(o.target, sig, q.signature))
  }

  lemma FixedFieldFollows(target: Provider, sig: Option<string>)
    ensures FieldFollows(target, sig, FixField(target, sig))
  {
    hide Detect, Kept, Carries;
    if sig.Some? && Compatible(target, sig.value) { KeptCarriesPayload(target, sig.value); }
  }

  /** A thinking block the target cannot use. */
  predicate Unusable(o: Options, p: Part) {
    p.Thinking? && !KeptAsIs(o.target, p) && !Compatible(o.target, p.signature)
  }

  /** `kept` is `parts` in order, with nothing but unusable thinking blocks left out. */
  predicate PartsSurvive(o: Options, parts: seq<Part>, kept: seq<Part>) {
    if parts == [] then kept == []
    else
      var n, k := |parts| - 1, |kept| - 1;
      || (kept != [] && SameBut(o, parts[n], kept[k]) && PartsSurvive(o, parts[..n], kept[..k]))
      || (Unusable(o, parts[n]) && PartsSurvive(o, parts[..n], kept))
  }

  /** The same message, its parts surviving; one without a content array is untouched. */
  predicate MessageSurvives(o: Options, m: Message, k: Message) {
    && k.body == m.body && k.content.Some? == m.content.Some?
    && (m.content.Some? ==> PartsSurvive(o, m.content.value, k.content.value))
  }

  /** A message that may be left out: it held unusable thinking blocks and nothing else. */
  predicate Emptied(o: Options, m: Message) {
    && o.dropEmptyMessages && m.content.Some? && m.content.value != []
    && forall i :: 0 <= i < |m.content.value| ==> Unusable(o, m.content.value[i])
  }

  /** `kept` is `ms` in order, message by message, with the emptied messages left out and no others. */
  predicate MessagesSurvive(o: Options, ms: seq<Message>, kept: seq<Message>) {
    if ms == [] then kept == []
    else
      var n, k := |ms| - 1, |kept| - 1;
      || (kept != [] && !Emptied(o, ms[n]) && MessageSurvives(o, ms[n], kept[k])
          && MessagesSurvive(o, ms[..n], kept[..k]))
      || (Emptied(o, ms[n]) && MessagesSurvive(o, ms[..n], kept))
  }

  lemma PartSurvives(o: Options, p: Part)
    ensures match FixPart(o, p)
            case Some(q) => SameBut(o, p, q)
            case None => Unusable(o, p)
  {
    hide Detect, Kept, FixField, Carries, FieldFollows;
    match p
    case Other(_) =>
    case Thinking(_, _, sig) => if Compatible(o.target, sig) { KeptCarriesPayload(o.target, sig); }
    case ToolUse(t) =>
      FixedFieldFollows(o.target, t.signature);
      FixedFieldFollows(o.target, t.thought);
      FixedFieldFollows(o.target, GoogleThought(t));
      FixFieldNone(o.target);
      assert GoogleThought(FixTool(o.target, t)) == FixField(o.target, GoogleThought(t));
  }

  lemma {:induction false} FixedPartsSurvive(o: Options, parts: seq<Part>)
    ensures PartsSurvive(o, parts, FixParts(o, parts))
    ensures FixParts(o, parts) == [] ==> forall i :: 0 <= i < |parts| ==> Unusable(o, parts[i])
  {
    hide FixPart, SameBut, Unusable;
    if parts != [] {
      var init, last := parts[..|parts| - 1], parts[|parts| - 1];
      FixedPartsSurvive(o, init);
      PartSurvives(o, last);
      var f := FixParts(o, init);
      assert parts == init + [last];
      match FixPart(o, last) {
        case Some(q) => assert (f + [q])[..|f|] == f;
        case None => assert f + [] == f;
      }
    }
  }

  lemma {:induction false} UnusableFixToNothing(o: Options, parts: seq<Part>)
    requires forall i :: 0 <= i < |parts| ==> Unusable(o, parts[i])
    ensures FixParts(o, parts) == []
  {
    hide FixPart, Unusable;
    if parts != [] {
      UnusableFixToNothing(o, parts[..|parts| - 1]);
      UnusableIsDropped(o, parts[|parts| - 1]);
    }
  }

  lemma UnusableIsDropped(o: Options, p: Part)
    requires Unusable(o, p)
    ensures FixPart(o, p) == None
  {
    hide Detect;
  }

  /**
   Message by message and part by part, sanitising keeps everything, and every signature the
   target can use goes on saying the same: what is left out is thinking the target cannot
   use, and messages that held nothing else.
   */
  lemma {:induction false} OthersSurviveInOrder(o: Options, ms: seq<Message>)
    ensures MessagesSurvive(o, ms, FixMessages(o, ms))
  {
    hide FixParts, PartsSurvive, Unusable;
    if ms != [] {
      var init, last := ms[..|ms| - 1], ms[|ms| - 1];
      OthersSurviveInOrder(o, init);
      if last.content.Some? {
        FixedPartsSurvive(o, last.content.value);
        if Emptied(o, last) { UnusableFixToNothing(o, last.content.value); }
      }
      var f := FixMessages(o, init);
      match FixMessage(o, last) {
        case Some(x) => assert (f + [x])[..|f|] == f;
        case None => assert f + [] == f;
      }
    }
  }

  // ----- sanitising again ------------------------------------------------------------------------------

  function TrimField(sig: Option<string>): Option<string> {
    if sig.Some? then Some(Text.TrimSpace(sig.value)) else None
  }

  /** A sanitised part with the white space around its signatures removed. */
  function TrimPart(o: Options, p: Part): Part {
    match p
    case Other(_) => p
    case Thinking(_, _, sig) => if KeptAsIs(o.target, p) then p else p.(signature := Text.TrimSpace(sig))
    case ToolUse(t) =>
      ToolUse(t.(signature := TrimField(t.signature), thought := TrimField(t.thought),
                 extra := WithGoogleThought(t.extra, TrimField(GoogleThought(t)))))
  }

  function TrimParts(o: Options, parts: seq<Part>): (r: seq<Part>)
    ensures |r| == |parts|
  {
    seq(|parts|, i requires 0 <= i < |parts| => TrimPart(o, parts[i]))
  }

  function TrimMessage(o: Options, m: Message): Message {
    if m.content.Some? then m.(content := Some(TrimParts(o, m.content.value))) else m
  }

  function TrimMessages(o: Options, ms: seq<Message>): (r: seq<Message>)
    ensures |r| == |ms|
  {
    seq(|ms|, i requires 0 <= i < |ms| => TrimMessage(o, ms[i]))
  }

  lemma FixFieldTwice(target: Provider, sig: Option<string>)
    requires Target(target) == target
    ensures var f := FixField(target, sig);
      && FixField(target, f) == TrimField(f)
      && FixField(target, TrimField(f)) == TrimField(f)
      && (target != Claude ==> TrimField(f) == f)
  {
    hide Detect, Kept;
    if sig.Some? && Compatible(target, sig.value) { KeptTwice(target, sig.value); }
    if target == Gemini {
      SentinelStays(target);
      Text.TrimmedIsFixed(SKIP_VALIDATOR);
    }
  }

  lemma FixToolTwice(target: Provider, t: Tool)
    requires Target(target) == target
    ensures var f := FixTool(target, t);
      var g := f.(signature := TrimField(f.signature), thought := TrimField(f.thought),
                  extra := WithGoogleThought(f.extra, TrimField(GoogleThought(f))));
      FixTool(target, f) == g && FixTool(target, g) == g && (target != Claude ==> g == f)
  {
    hide FixField;
    FixFieldTwice(target, t.signature);
    FixFieldTwice(target, t.thought);
    FixFieldTwice(target, GoogleThought(t));
    assert FixField(target, None) == None by { FixFieldNone(target); }
  }

  lemma FixFieldNone(target: Provider)
    ensures FixField(target, None) == None
  {
  }

  /** Fixing a fixed part only trims its signatures; fixing that changes nothing. */
  lemma FixPartTwice(o: Options, p: Part)
    requires Target(o.target) == o.target
    requires FixPart(o, p).Some?
    ensures var f := FixPart(o, p).value;
      && FixPart(o, f) == Some(TrimPart(o, f))
      && FixPart(o, TrimPart(o, f)) == Some(TrimPart(o, f))
      && (o.target != Claude ==> TrimPart(o, f) == f)
  {
    hide Detect, Kept, FixTool, FixField;
    match p
    case Other(_) =>
    case Thinking(_, _, sig) =>
      if !KeptAsIs(o.target, p) {
        if Compatible(o.target, sig) {
          KeptTwice(o.target, sig);
          CompatibleIsNoPlaceholder(o.target, Kept(o.target, sig));
        }
        if o.target == Gemini { SentinelStays(o.target); Text.TrimmedIsFixed(SKIP_VALIDATOR); }
      }
    case ToolUse(t) =>
      if o.dropToolSignatures {
      } else {
        FixToolTwice(o.target, t);
      }
  }

  lemma CompatibleIsNoPlaceholder(target: Provider, sig: string)
    requires Compatible(target, sig)
    ensures Text.TrimSpace(sig) != "" && Text.TrimSpace(Text.TrimSpace(sig)) != ""
  {
    Text.TrimSpaceIdempotent(sig);
  }

  lemma {:induction false} FixPartsTwice(o: Options, parts: seq<Part>)
    requires Target(o.target) == o.target
    ensures var f := FixParts(o, parts);
      && FixParts(o, f) == TrimParts(o, f)
      && FixParts(o, TrimParts(o, f)) == TrimParts(o, f)
      && (o.target != Claude ==> TrimParts(o, f) == f)
  {
    hide FixPart, TrimPart;
    if parts != [] {
      var init, last := parts[..|parts| - 1], parts[|parts| - 1];
      FixPartsTwice(o, init);
      var f := FixParts(o, init);
      if FixPart(o, last).Some? {
        var x := FixPart(o, last).value;
        FixPartTwice(o, last);
        assert (f + [x])[..|f|] == f;
        assert TrimParts(o, f + [x]) == TrimParts(o, f) + [TrimPart(o, x)];
        assert (TrimParts(o, f) + [TrimPart(o, x)])[..|f|] == TrimParts(o, f);
      } else {
        assert f + [] == f;
      }
    }
  }

  lemma FixMessageTwice(o: Options, m: Message)
    requires Target(o.target) == o.target
    requires FixMessage(o, m).Some?
    ensures var f := FixMessage(o, m).value;
      var t := TrimMessage(o, f);
      FixMessage(o, f) == Some(t) && FixMessage(o, t) == Some(t) && (o.target != Claude ==> t == f)
  {
    hide FixParts, TrimParts;
    if m.content.Some? { FixPartsTwice(o, m.content.value); }
  }

  lemma NothingToFix(o: Options)
    ensures FixMessages(o, []) == [] == TrimMessages(o, [])
  {
  }

  lemma FixOneMore(o: Options, f: seq<Message>, m: Message)
    ensures FixMessages(o, f + [m]) == match FixMessage(o, m)
      case Some(x) => FixMessages(o, f) + [x]
      case None => FixMessages(o, f)
  {
    hide FixMessage;
    assert (f + [m])[..|f|] == f;
  }

  lemma TrimOneMore(o: Options, f: seq<Message>, x: Message)
    ensures TrimMessages(o, f + [x]) == TrimMessages(o, f) + [TrimMessage(o, x)]
  {
    hide TrimMessage;
  }

  /**
   Sanitising sanitised history only trims white space around Claude signatures (an inner
   layer may end in line breaks), and a third pass changes nothing. For every other target
   the second pass changes nothing at all.
   */
  lemma {:induction false} SanitisingTwice(o: Options, ms: seq<Message>)
    requires Target(o.target) == o.target
    ensures var f := FixMessages(o, ms);
      && FixMessages(o, f) == TrimMessages(o, f)
      && FixMessages(o, TrimMessages(o, f)) == TrimMessages(o, f)
      && (o.target != Claude ==> FixMessages(o, f) == f)
  {
    hide FixMessage, FixMessages, TrimMessage, TrimMessages;
    if ms == [] {
      NothingToFix(o);
    } else {
      var init, last := ms[..|ms| - 1], ms[|ms| - 1];
      var f := FixMessages(o, init);
      SanitisingTwice(o, init);
      FixOneMore(o, init, last);
      assert ms == init + [last];
      if FixMessage(o, last).Some? {
        var x := FixMessage(o, last).value;
        FixMessageTwice(o, last);
        FixOneMore(o, f, x);
        TrimOneMore(o, f, x);
        FixOneMore(o, TrimMessages(o, f), TrimMessage(o, x));
      }
    }
  }

  /** No double-layered Claude signature whose decoded inner layer ends in a line break; other targets have no such. */
  predicate CleanField(target: Provider, sig: Option<string>) {
    target == Claude && sig.Some? && Compatible(target, sig.value) ==> !EndsInBreak(sig.value)
  }

  predicate CleanPart(o: Options, p: Part) {
    match p
    case Other(_) => true
    case Thinking(_, _, sig) => KeptAsIs(o.target, p) || CleanField(o.target, Some(sig))
    case ToolUse(t) =>
      o.dropToolSignatures
      || (CleanField(o.target, t.signature) && CleanField(o.target, t.thought)
        && CleanField(o.target, GoogleThought(t)))
  }

  predicate CleanParts(o: Options, parts: seq<Part>) {
    forall i :: 0 <= i < |parts| ==> CleanPart(o, parts[i])
  }

  predicate CleanMessages(o: Options, ms: seq<Message>) {
    forall i :: 0 <= i < |ms| ==> CleanMessage(o, ms[i])
  }

  lemma CleanFieldExactly(target: Provider, sig: Option<string>)
    requires Target(target) == target
    ensures TrimField(FixField(target, sig)) == FixField(target, sig) <==> CleanField(target, sig)
  {
    hide Detect, Kept, EndsInBreak, Text.TrimSpace;
    Text.TrimmedIsFixed(SKIP_VALIDATOR);
    if sig.Some? && Compatible(target, sig.value) {
      KeptTwice(target, sig.value);
      if target == Claude { KeptHasSpaceExactly(sig.value); }
    }
  }

  lemma CleanToolExactly(o: Options, t: Tool)
    requires Target(o.target) == o.target && !o.dropToolSignatures
    ensures var f := ToolUse(FixTool(o.target, t)); TrimPart(o, f) == f <==> CleanPart(o, ToolUse(t))
  {
    hide FixField, CleanField, Text.TrimSpace;
    CleanFieldExactly(o.target, t.signature);
    CleanFieldExactly(o.target, t.thought);
    CleanFieldExactly(o.target, GoogleThought(t));
    FixFieldNone(o.target);
  }

  /** Trimming changes a fixed part exactly when the part came with an unclean signature; a dropped part had none. */
  lemma CleanPartExactly(o: Options, p: Part)
    requires Target(o.target) == o.target
    ensures match FixPart(o, p)
            case Some(f) => TrimPart(o, f) == f <==> CleanPart(o, p)
            case None => CleanPart(o, p)
  {
    hide Detect, Kept, FixTool, FixField, GoogleThought, EndsInBreak;
    match p
    case Other(_) =>
    case Thinking(_, _, sig) =>
      Text.TrimmedIsFixed(SKIP_VALIDATOR);
      if !KeptAsIs(o.target, p) && Compatible(o.target, sig) {
        KeptIsNoPlaceholder(o.target, sig);
        KeptTwice(o.target, sig);
        if o.target == Claude { KeptHasSpaceExactly(sig); }
      }
    case ToolUse(t) =>
      if !o.dropToolSignatures { CleanToolExactly(o, t); } else { StrippedIsClean(o, t); }
  }

  lemma KeptIsNoPlaceholder(target: Provider, sig: string)
    requires Compatible(target, sig)
    ensures Text.TrimSpace(Kept(target, sig)) != ""
  {
    hide Kept;
    KeptTwice(target, sig);
    CompatibleIsNoPlaceholder(target, Kept(target, sig));
  }

  lemma StrippedIsClean(o: Options, t: Tool)
    ensures TrimPart(o, ToolUse(StripTool(t))) == ToolUse(StripTool(t))
  {
  }

  lemma CleanPartsSnoc(o: Options, init: seq<Part>, last: Part)
    ensures CleanParts(o, init + [last]) <==> CleanParts(o, init) && CleanPart(o, last)
  {
    hide CleanPart;
    var parts := init + [last];
    assert parts[|init|] == last;
    assert forall i :: 0 <= i < |init| ==> parts[i] == init[i];
    if CleanParts(o, parts) {
      assert forall i :: 0 <= i < |init| ==> CleanPart(o, parts[i]);
    }
  }

  lemma {:induction false} CleanPartsExactly(o: Options, parts: seq<Part>)
    requires Target(o.target) == o.target
    ensures TrimParts(o, FixParts(o, parts)) == FixParts(o, parts) <==> CleanParts(o, parts)
  {
    hide FixPart, TrimPart, CleanPart, CleanParts;
    if parts == [] {
      NothingIsClean(o);
    } else {
      var init, last := parts[..|parts| - 1], parts[|parts| - 1];
      var f := FixParts(o, init);
      CleanPartsExactly(o, init);
      CleanPartExactly(o, last);
      CleanPartsSnoc(o, init, last);
      assert parts == init + [last];
      if FixPart(o, last).Some? {
        var x := FixPart(o, last).value;
        assert TrimParts(o, f + [x]) == TrimParts(o, f) + [TrimPart(o, x)];
        SameSnoc(TrimParts(o, f), TrimPart(o, x), f, x);
      } else {
        assert f + [] == f;
      }
    }
  }

  lemma SameSnoc<T>(a: seq<T>, x: T, b: seq<T>, y: T)
    requires |a| == |b|
    ensures a + [x] == b + [y] <==> a == b && x == y
  {
    if a + [x] == b + [y] {
      assert (a + [x])[..|a|] == a && (b + [y])[..|b|] == b && (a + [x])[|a|] == x && (b + [y])[|b|] == y;
    }
  }

  predicate CleanMessage(o: Options, m: Message) {
    m.content.Some? ==> CleanParts(o, m.content.value)
  }

  lemma CleanMessageExactly(o: Options, m: Message)
    requires Target(o.target) == o.target
    ensures match FixMessage(o, m)
            case Some(x) => TrimMessage(o, x) == x <==> CleanMessage(o, m)
            case None => CleanMessage(o, m)
  {
    hide FixParts, CleanParts;
    if m.content.Some? { CleanPartsExactly(o, m.content.value); }
  }

  lemma CleanMessagesSnoc(o: Options, init: seq<Message>, last: Message)
    ensures CleanMessages(o, init + [last]) <==> CleanMessages(o, init) && CleanMessage(o, last)
  {
    hide CleanMessage;
    var ms := init + [last];
    assert ms[|init|] == last;
    assert forall i :: 0 <= i < |init| ==> ms[i] == init[i];
    if CleanMessages(o, ms) {
      assert forall i :: 0 <= i < |init| ==> CleanMessage(o, ms[i]);
    }
  }

  lemma NothingIsClean(o: Options)
    ensures CleanParts(o, []) && CleanMessages(o, [])
  {
  }

  lemma {:induction false} CleanMessagesExactly(o: Options, ms: seq<Message>)
    requires Target(o.target) == o.target
    ensures TrimMessages(o, FixMessages(o, ms)) == FixMessages(o, ms) <==> CleanMessages(o, ms)
  {
    hide FixMessage, TrimMessage, CleanMessage, CleanMessages;
    if ms == [] {
      NothingIsClean(o);
    } else {
      var init, last := ms[..|ms| - 1], ms[|ms| - 1];
      var f := FixMessages(o, init);
      CleanMessagesExactly(o, init);
      CleanMessageExactly(o, last);
      CleanMessagesSnoc(o, init, last);
      assert ms == init + [last];
      if FixMessage(o, last).Some? {
        var x := FixMessage(o, last).value;
        assert TrimMessages(o, f + [x]) == TrimMessages(o, f) + [TrimMessage(o, x)];
        SameSnoc(TrimMessages(o, f), TrimMessage(o, x), f, x);
      } else {
        assert f + [] == f;
      }
    }
  }

  /**
   So sanitising is idempotent exactly when none of the signatures it keeps for Claude is
   double-layered with an inner layer that ends in a line break.
   */
  lemma IdempotentExactly(o: Options, ms: seq<Message>)
    requires Target(o.target) == o.target
    ensures FixMessages(o, FixMessages(o, ms)) == FixMessages(o, ms) <==> CleanMessages(o, ms)
  {
    SanitisingTwice(o, ms);
    CleanMessagesExactly(o, ms);
  }

  // ----- an input on which a second pass does change something ---------------------------------------------

  /** A minimal strict Claude payload: a container with a channel block holding channel id 11. */
  const MINIMAL: Bytes := [0x12, 0x04, 0x0A, 0x02, 0x08, 0x0B]

  lemma MinimalChannelBlock()
    ensures ChannelBlock([0x08, 0x0B])
  {
    var block: Bytes := [0x08, 0x0B];
    SmallTag(block);
    assert block[1..] == [0x0B] && block[2..] == [];
    var f := Field(Tag(1, VARINT), [0x0B]);
    assert block[1..2] == [0x0B];
    assert ConsumeVarint([0x0B]) == Some(Taken(11, 1));
    assert ValueSize(Tag(1, VARINT), block[1..], RECURSION_LIMIT) == Some(1);
    assert Fields(block[2..]) == Some([]);
    assert Fields(block) == Some([f] + []);
    assert ([f] + [])[0] == f && ChannelField(f);
  }

  lemma MinimalIsClaude()
    ensures ClaudePayload(MINIMAL)
  {
    hide ChannelBlock, OnlyField, ExtractBytes;
    var block: Bytes := [0x08, 0x0B];
    var container: Bytes := [0x0A, 0x02, 0x08, 0x0B];
    MinimalChannelBlock();
    OneField(MINIMAL, container, 2);
    OneField(container, block, 1);
    OnlyFieldIsExtracted(MINIMAL, 2);
    OnlyFieldIsExtracted(container, 1);
  }

  /** A one-byte tag and length in front of exactly that many bytes. */
  lemma OneField(b: Bytes, value: Bytes, num: nat)
    requires 1 <= num < 16 && |value| < 128
    requires b == [num * 8 + BYTES, |value|] + value
    ensures OnlyField(b, num) == Some(value)
  {
    SmallTag(b);
    assert b[1..][0] == |value|;
    assert b[1..][1..1 + |value|] == value;
  }

  /** A double-layered Claude signature whose inner layer ends in a line break. */
  lemma BreakEndedSignature() returns (raw: string, inner: string)
    ensures Compatible(Claude, raw) && Kept(Claude, raw) == inner && Text.TrimSpace(inner) != inner
  {
    hide Base64.Encode, Base64.Decode, ClaudePayload, Detect, Kept;
    var e := Base64.Encode(MINIMAL);
    inner := e + ['\n'];
    MinimalIsClaude();
    LayersShowInFirstLetter(MINIMAL);
    Base64.RoundTrip(MINIMAL);
    BreakIsSkipped(e);
    RFormOf(inner, true);
    raw := Base64.Encode(AsBytes(inner));
    ShortForm(inner);
    KeptIsInner(raw, inner);
    TrimsBreak(e);
  }

  /** Sanitising is not idempotent on it. */
  lemma SecondPassTrims()
    ensures exists o: Options, ms: seq<Message> ::
      Target(o.target) == o.target && FixMessages(o, FixMessages(o, ms)) != FixMessages(o, ms)
  {
    hide Detect, Kept;
    var raw, inner := BreakEndedSignature();
    var o := Options(Claude, false, false);
    var p, q := Thinking("", "", raw), Thinking("", "", inner);
    CompatibleIsNoPlaceholder(Claude, raw);
    KeptTwice(Claude, raw);
    CompatibleIsNoPlaceholder(Claude, inner);
    OnePartMessage(o, p, q);
    OnePartMessage(o, q, q.(signature := Text.TrimSpace(inner)));
    assert FixMessages(o, FixMessages(o, [Message("", Some([p]))])) != FixMessages(o, [Message("", Some([p]))]);
  }

  lemma OnePartMessage(o: Options, p: Part, q: Part)
    requires FixPart(o, p) == Some(q)
    ensures FixMessages(o, [Message("", Some([p]))]) == [Message("", Some([q]))]
  {
    hide FixPart;
    assert [p][..0] == [] && FixParts(o, []) == [];
    assert FixParts(o, [p]) == [q];
    var ms := [Message("", Some([p]))];
    assert ms[..0] == [] && FixMessages(o, []) == [];
  }

  lemma BreakIsSkipped(e: string)
    requires Ascii(e)
    ensures Base64.DecodeStd(e + ['\n']) == Base64.DecodeStd(e)
    ensures Ascii(e + ['\n'])
  {
    BreaksAppend(e, '\n');
  }

  lemma TrimsBreak(e: string)
    requires e != [] && e[0] == 'E'
    ensures Text.TrimSpace(e + ['\n']) != e + ['\n']
  {
    var s := e + ['\n'];
    Text.TrimRightEnd(s);
    assert Text.TrimLeft(s) == s;
  }

  lemma ShortForm(inner: string)
    requires Ascii(inner) && |inner| == 9
    ensures |Base64.Encode(AsBytes(inner))| <= MAX_LEN
  {
  }

  lemma KeptIsInner(raw: string, inner: string)
    requires StripPrefix(raw) == raw && raw != [] && raw[0] == 'R' && |raw| <= MAX_LEN
    requires DoubleLayer(raw, true) && Base64.DecodeStd(raw).Some? && AsText(Base64.DecodeStd(raw).value) == inner
    ensures Compatible(Claude, raw) && Kept(Claude, raw) == inner
  {
    hide DoubleLayer, Base64.DecodeStd;
    assert ValidClaude(raw, true);
    StripIsStable(raw, true);
    Text.TrimmedIsFixed(raw);
    NoHashNoSplit(raw);
    DetectedAs(raw, ClaudeTest);
    StrictIsValid(raw);
    NativeIsSingleLayer(raw, true);
  }
}
