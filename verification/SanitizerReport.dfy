/** What the sanitiser's report counts: the signatures it found, by what the target can do with them. */
module SanitizerReport {
  import opened Prelude
  import opened Compatibility
  import opened SanitizerSpec
  import Text

  /** Signatures the target can use, tool signatures it cannot, thinking blocks it cannot, tool calls stripped. */
  datatype Tally = Tally(usable: nat, useless: nat, blocks: nat, stripped: nat)

  function Add(a: Tally, b: Tally): Tally {
    Tally(a.usable + b.usable, a.useless + b.useless, a.blocks + b.blocks, a.stripped + b.stripped)
  }

  function CountOne(target: Provider, sig: Option<string>): Tally {
    match sig
    case None => Tally(0, 0, 0, 0)
    case Some(s) => if Compatible(target, s) then Tally(1, 0, 0, 0) else Tally(0, 1, 0, 0)
  }

  /** Nothing about a signature, and no empty object where one could be. */
  predicate Bare(t: Tool) {
    && t.signature == None && t.thought == None && GoogleThought(t) == None
    && (t.extra.Some? ==>
          && (t.extra.value.google.Some? || t.extra.value.other != [])
          && (t.extra.value.google.Some? ==> t.extra.value.google.value.other != []))
  }

  /** A thinking block, unless it is an empty one that Claude may see as it is. */
  predicate Judged(target: Provider, p: Part)
    requires p.Thinking?
  {
    target != Claude || Text.TrimSpace(p.signature) != "" || Text.TrimSpace(p.text) != ""
  }

  function CountPart(o: Options, p: Part): Tally {
    match p
    case Other(_) => Tally(0, 0, 0, 0)
    case ToolUse(t) =>
      if o.dropToolSignatures then Tally(0, 0, 0, if Bare(t) then 0 else 1)
      else Add(Add(CountOne(o.target, t.signature), CountOne(o.target, t.thought)),
               CountOne(o.target, GoogleThought(t)))
    case Thinking(_, _, sig) =>
      if !Judged(o.target, p) then Tally(0, 0, 0, 0)
      else if Compatible(o.target, sig) then Tally(1, 0, 0, 0)
      else Tally(0, 0, 1, 0)
  }

  function CountParts(o: Options, parts: seq<Part>): Tally {
    if parts == [] then Tally(0, 0, 0, 0)
    else Add(CountParts(o, parts[..|parts| - 1]), CountPart(o, parts[|parts| - 1]))
  }

  function CountAll(o: Options, ms: seq<Message>): Tally {
    if ms == [] then Tally(0, 0, 0, 0)
    else
      var last := ms[|ms| - 1];
      Add(CountAll(o, ms[..|ms| - 1]),
          if last.content.None? then Tally(0, 0, 0, 0) else CountParts(o, last.content.value))
  }

  /** Useless tool signatures are replaced for Gemini and dropped for everybody else. */
  predicate Tells(o: Options, r: Report, t: Tally) {
    && r.preserved == t.usable && r.droppedBlocks == t.blocks
    && r.replaced == (if Target(o.target) == Gemini then t.useless else 0)
    && r.droppedSignatures == t.stripped + (if Target(o.target) == Gemini then 0 else t.useless)
    && |r.decisions| == t.usable + t.useless + t.blocks
    && Verdicts(r.decisions) == t.usable
    && forall i :: 0 <= i < |r.decisions| ==>
         r.decisions[i].target == Target(o.target) && (r.decisions[i].compatible <==> r.decisions[i].action == Preserve)
  }

  /** Decisions that found the signature compatible. */
  function Verdicts(ds: seq<Decision>): nat {
    if ds == [] then 0 else Verdicts(ds[..|ds| - 1]) + if ds[|ds| - 1].compatible then 1 else 0
  }

  lemma {:induction false} VerdictsOfBoth(a: seq<Decision>, b: seq<Decision>)
    ensures Verdicts(a + b) == Verdicts(a) + Verdicts(b)
  {
    if b == [] {
      assert a + b == a;
    } else {
      assert (a + b)[..|a + b| - 1] == a + b[..|b| - 1];
      VerdictsOfBoth(a, b[..|b| - 1]);
    }
  }

  lemma BothTell(o: Options, a: Report, s: Tally, b: Report, t: Tally)
    requires Tells(o, a, s) && Tells(o, b, t)
    ensures Tells(o, Plus(a, b), Add(s, t))
  {
    VerdictsOfBoth(a.decisions, b.decisions);
  }

  lemma NothingTells(o: Options)
    ensures Tells(o, NOTHING, Tally(0, 0, 0, 0))
  {
  }

  lemma FieldTells(o: Options, sig: Option<string>)
    ensures Tells(o, FieldReport(o.target, sig), CountOne(o.target, sig))
  {
    hide Detect, Normalized;
    if sig.Some? {
      var d := Decide(o.target, sig.value, ToolKind(o.target));
      assert [d][..0] == [];
      assert Verdicts([d]) == if d.compatible then 1 else 0;
    }
  }

  lemma StrippedExactly(t: Tool)
    ensures StripTool(t) == t <==> Bare(t)
  {
  }

  lemma PartTells(o: Options, p: Part)
    ensures Tells(o, PartReport(o, p), CountPart(o, p))
  {
    match p
    case Other(_) => NothingTells(o);
    case Thinking(_, _, sig) => ThinkingTells(o, p);
    case ToolUse(t) =>
      hide Tells, FieldReport, CountOne, Plus, Add, StripTool, Bare;
      if o.dropToolSignatures {
        StrippedExactly(t);
        StripTells(o, t);
      } else {
        FieldTells(o, t.signature);
        FieldTells(o, t.thought);
        FieldTells(o, GoogleThought(t));
        BothTell(o, FieldReport(o.target, t.signature), CountOne(o.target, t.signature),
                 FieldReport(o.target, t.thought), CountOne(o.target, t.thought));
        BothTell(o, Plus(FieldReport(o.target, t.signature), FieldReport(o.target, t.thought)),
                 Add(CountOne(o.target, t.signature), CountOne(o.target, t.thought)),
                 FieldReport(o.target, GoogleThought(t)), CountOne(o.target, GoogleThought(t)));
      }
  }

  lemma ThinkingTells(o: Options, p: Part)
    requires p.Thinking?
    ensures Tells(o, PartReport(o, p), CountPart(o, p))
  {
    hide Detect, Normalized, Text.TrimSpace;
    var d := Decide(o.target, p.signature, ClaudeThinking);
    assert [d][..0] == [];
    assert Verdicts([d]) == if d.compatible then 1 else 0;
    assert KeptAsIs(o.target, p) <==> !Judged(o.target, p);
  }

  lemma StripTells(o: Options, t: Tool)
    requires o.dropToolSignatures && (StripTool(t) == t <==> Bare(t))
    ensures Tells(o, PartReport(o, ToolUse(t)), CountPart(o, ToolUse(t)))
  {
    hide StripTool, Bare;
  }

  lemma {:induction false} PartsTell(o: Options, parts: seq<Part>)
    ensures Tells(o, PartsReport(o, parts), CountParts(o, parts))
  {
    hide Tells, PartReport, CountPart, Plus, Add;
    if parts == [] {
      NothingTells(o);
    } else {
      var init, last := parts[..|parts| - 1], parts[|parts| - 1];
      PartsTell(o, init);
      PartTells(o, last);
      BothTell(o, PartsReport(o, init), CountParts(o, init), PartReport(o, last), CountPart(o, last));
    }
  }

  /**
   The report counts the signatures the target can use, the thinking blocks it cannot, and
   the tool signatures it cannot as replaced for Gemini and dropped otherwise; a decision is
   recorded for every signature looked at.
   */
  lemma {:induction false} ReportTells(o: Options, ms: seq<Message>)
    ensures Tells(o, MessagesReport(o, ms), CountAll(o, ms))
  {
    hide Tells, PartsReport, CountParts, Plus, Add;
    NothingTells(o);
    if ms != [] {
      var init, last := ms[..|ms| - 1], ms[|ms| - 1];
      ReportTells(o, init);
      if last.content.Some? { PartsTell(o, last.content.value); }
      BothTell(o, MessagesReport(o, init), CountAll(o, init), MessageReport(o, last),
               if last.content.None? then Tally(0, 0, 0, 0) else CountParts(o, last.content.value));
    }
  }
}
