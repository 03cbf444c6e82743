/** SanitizeClaudeMessagesSignaturesForTarget as it runs: nested loops that append and count. */
module Sanitizer {
  import opened Prelude
  import opened Compatibility
  import opened SanitizerSpec

  method Sanitize(o: Options, messages: seq<Message>) returns (kept: seq<Message>, report: Report)
    ensures kept == FixMessages(o, messages)
    ensures report == MessagesReport(o, messages)
  {
    hide FixParts, PartsReport;
    kept, report := [], NOTHING;
    for i := 0 to |messages|
      invariant kept == FixMessages(o, messages[..i])
      invariant report == MessagesReport(o, messages[..i])
    {
      assert messages[..i + 1][..i] == messages[..i];
      var m := messages[i];
      if m.content.None? {
        kept := kept + [m];
        PlusNothing(report);
      } else {
        var keptParts, modified, counted := SanitizeParts(o, m.content.value);
        report := Plus(report, counted);
        if modified {
          if !(keptParts == [] && o.dropEmptyMessages) {
            kept := kept + [m.(content := Some(keptParts))];
          }
        } else {
          kept := kept + [m];
        }
      }
    }
    assert messages[..|messages|] == messages;
  }

  method SanitizeParts(o: Options, parts: seq<Part>) returns (kept: seq<Part>, modified: bool, report: Report)
    ensures kept == FixParts(o, parts) && report == PartsReport(o, parts)
    ensures modified == (kept != parts)
  {
    hide FixPart, PartReport;
    kept, modified, report := [], false, NOTHING;
    for j := 0 to |parts|
      invariant kept == FixParts(o, parts[..j]) && report == PartsReport(o, parts[..j])
      invariant |kept| <= j && modified == (kept != parts[..j])
    {
      assert parts[..j + 1][..j] == parts[..j];
      var fixed, counted := SanitizePart(o, parts[j]);
      report := Plus(report, counted);
      if fixed != Some(parts[j]) { modified := true; }
      if fixed.Some? { kept := kept + [fixed.value]; }
    }
    assert parts[..|parts|] == parts;
  }

  method SanitizePart(o: Options, p: Part) returns (fixed: Option<Part>, report: Report)
    ensures fixed == FixPart(o, p) && report == PartReport(o, p)
  {
    if p.ToolUse? {
      if o.dropToolSignatures {
        var stripped := StripTool(p.tool);
        report := NOTHING;
        if stripped != p.tool { report := report.(droppedSignatures := 1); }
        return Some(ToolUse(stripped)), report;
      }
      return Some(ToolUse(FixTool(o.target, p.tool))), ToolReport(o.target, p.tool);
    }
    if p.Other? || (o.target == Claude && Placeholder(p)) {
      return Some(p), NOTHING;
    }
    var d := Decide(o.target, p.signature, ClaudeThinking);
    report := NOTHING.(decisions := [d]);
    match d.action {
      case Preserve =>
        report := report.(preserved := 1);
        fixed := Some(if d.normalized != "" && d.normalized != p.signature then p.(signature := d.normalized) else p);
      case ReplaceWithGeminiBypass =>
        report := report.(replaced := 1);
        fixed := Some(p.(signature := d.replacement));
      case DropSignature =>
        report := report.(droppedSignatures := 1);
        fixed := Some(p.(signature := ""));
      case _ =>
        report := report.(droppedBlocks := 1);
        fixed := None;
    }
    KeptMeansNormalized(o.target, p.signature);
  }

  lemma KeptMeansNormalized(target: Provider, raw: string)
    ensures Matches(Target(target), Detect(raw)) ==>
      Normalized(Target(target), raw) == Normalized(target, raw)
  {
  }

  lemma PlusNothing(r: Report)
    ensures Plus(r, NOTHING) == r
  {
    assert r.decisions + [] == r.decisions;
  }
}
