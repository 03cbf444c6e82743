/**
 ValidateGeminiFunctionCallPairing: function calls and responses in replayed Gemini
 history must alternate in matching groups; a last group of calls may still be pending.
 */
module Pairing {
  import opened Prelude

  datatype Call = Call(id: string, name: string)
  datatype Response = Response(id: string, name: string)

  /** A part may carry a call, a response, neither, or (malformed) both. */
  datatype Part = Part(call: Option<Call>, response: Option<Response>)

  /** `parts` is None when it is not an array. */
  datatype Content = Content(parts: Option<seq<Part>>)

  datatype Problem =
    | MissingCallName
    | Interleaved
    | CallWhilePending
    | ResponseWithoutCall
    | CountMismatch
    | MissingResponseID
    | WrongResponseID
    | MissingResponseName
    | WrongResponseName

  datatype Verdict = Fine | Bad(content: nat, problem: Problem)

  // ----- the language of valid histories -----------------------------------------------------

  /** All calls and all responses of one content, in order. */
  datatype Group = Group(calls: seq<Call>, responses: seq<Response>)

  function CallsOf(parts: seq<Part>): seq<Call> {
    if parts == [] then []
    else
      var last := parts[|parts| - 1];
      CallsOf(parts[..|parts| - 1]) + (if last.call.Some? then [last.call.value] else [])
  }

  function ResponsesOf(parts: seq<Part>): seq<Response> {
    if parts == [] then []
    else
      var last := parts[|parts| - 1];
      ResponsesOf(parts[..|parts| - 1]) + (if last.response.Some? then [last.response.value] else [])
  }

  function GroupOf(c: Content): Group {
    if c.parts.None? then Group([], []) else Group(CallsOf(c.parts.value), ResponsesOf(c.parts.value))
  }

  predicate Relevant(c: Content) {
    GroupOf(c) != Group([], [])
  }

  /** The contents with a call or a response in them. */
  function Groups(contents: seq<Content>): seq<Group> {
    if contents == [] then []
    else
      var last := contents[|contents| - 1];
      Groups(contents[..|contents| - 1]) + (if Relevant(last) then [GroupOf(last)] else [])
  }

  predicate AllNamed(calls: seq<Call>) {
    forall i :: 0 <= i < |calls| ==> calls[i].name != ""
  }

  /** A response names its call, and repeats the call's id when it has one. */
  predicate Answers(c: Call, r: Response) {
    r.name == c.name && (c.id != "" ==> r.id == c.id)
  }

  /** Even positions hold named calls only; odd ones hold one matching response per call before them. */
  ghost predicate InPlace(g: seq<Group>, i: nat)
    requires i < |g|
  {
    if i % 2 == 0 then
      g[i].responses == [] && g[i].calls != [] && AllNamed(g[i].calls)
    else
      && g[i].calls == []
      && |g[i].responses| == |g[i - 1].calls|
      && forall k :: 0 <= k < |g[i].responses| ==> Answers(g[i - 1].calls[k], g[i].responses[k])
  }

  ghost predicate WellPaired(contents: seq<Content>) {
    forall i :: 0 <= i < |Groups(contents)| ==> InPlace(Groups(contents), i)
  }

  /** The calls still waiting for responses. */
  function Pending(g: seq<Group>): seq<Call> {
    if |g| % 2 == 1 then g[|g| - 1].calls else []
  }

  /** The j-th response is the first that does not answer its call. */
  ghost predicate FirstUnanswered(pending: seq<Call>, responses: seq<Response>, j: nat) {
    && j < |pending| && j < |responses|
    && (forall k :: 0 <= k < j ==> Answers(pending[k], responses[k]))
    && !Answers(pending[j], responses[j])
  }

  /** What is wrong with a group that does not fit after `pending`; each offence has exactly one name. */
  ghost predicate Caused(pending: seq<Call>, g: Group, problem: Problem) {
    match problem
    case MissingCallName => !AllNamed(g.calls)
    case Interleaved => AllNamed(g.calls) && g.calls != [] && g.responses != []
    case CallWhilePending => AllNamed(g.calls) && g.calls != [] && g.responses == [] && pending != []
    case ResponseWithoutCall => g.calls == [] && g.responses != [] && pending == []
    case CountMismatch => g.calls == [] && g.responses != [] && pending != [] && |g.responses| != |pending|
    case _ =>
      && g.calls == [] && |g.responses| == |pending|
      && exists j: nat :: FirstUnanswered(pending, g.responses, j) && Mismatch(pending[j], g.responses[j]) == problem
  }

  /** How a response fails its call: by a missing id, another id, a missing name, or another name. */
  function Mismatch(c: Call, r: Response): Problem
    requires !Answers(c, r)
  {
    if c.id != "" && r.id == "" then MissingResponseID
    else if c.id != "" && r.id != c.id then WrongResponseID
    else if r.name == "" then MissingResponseName
    else WrongResponseName
  }

  lemma CauseIsUnique(pending: seq<Call>, g: Group, a: Problem, b: Problem)
    requires Caused(pending, g, a) && Caused(pending, g, b)
    ensures a == b
  {
    if |g.responses| == |pending| {
      forall i: nat, j: nat | FirstUnanswered(pending, g.responses, i) && FirstUnanswered(pending, g.responses, j)
        ensures i == j
      {
      }
    }
  }

  // ----- the automaton ----------------------------------------------------------------------------

  method Validate(contents: seq<Content>) returns (v: Verdict)
    ensures v == Fine <==> WellPaired(contents)
    ensures v.Bad? ==>
      && v.content < |contents|
      && WellPaired(contents[..v.content]) && !WellPaired(contents[..v.content + 1])
      && Caused(Pending(Groups(contents[..v.content])), GroupOf(contents[v.content]), v.problem)
  {
    var pending := [];
    for i := 0 to |contents|
      invariant WellPaired(contents[..i]) && pending == Pending(Groups(contents[..i]))
    {
      GroupsNext(contents, i);
      PrefixOfWellPaired(contents, i + 1);
      var next, problem := Advance(pending, contents[i], Groups(contents[..i]));
      if problem.Some? {
        return Bad(i, problem.value);
      }
      pending := next;
    }
    assert contents[..|contents|] == contents;
    return Fine;
  }

  /** One content: the new pending calls, or what is wrong with it. */
  method Advance(pending: seq<Call>, c: Content, ghost before: seq<Group>)
    returns (next: seq<Call>, problem: Option<Problem>)
    requires forall i :: 0 <= i < |before| ==> InPlace(before, i)
    requires pending == Pending(before)
    ensures var after := before + (if Relevant(c) then [GroupOf(c)] else []);
      && (problem.None? <==> forall i :: 0 <= i < |after| ==> InPlace(after, i))
      && (problem.None? ==> next == Pending(after))
      && (problem.Some? ==> Caused(pending, GroupOf(c), problem.value))
  {
    ghost var after := before + (if Relevant(c) then [GroupOf(c)] else []);
    LastDecides(before, GroupOf(c));
    next, problem := pending, None;
    if c.parts.None? { return; }
    var calls, responses, unnamed := Collect(c.parts.value);
    if unnamed { return [], Some(MissingCallName); }
    if |calls| > 0 && |responses| > 0 { return [], Some(Interleaved); }
    if |calls| > 0 {
      if |pending| > 0 { return [], Some(CallWhilePending); }
      return calls, None;
    }
    if |responses| == 0 { return; }
    if |pending| == 0 { return [], Some(ResponseWithoutCall); }
    if |responses| != |pending| { return [], Some(CountMismatch); }
    for j := 0 to |responses|
      invariant forall k :: 0 <= k < j ==> Answers(pending[k], responses[k])
    {
      var call, r := pending[j], responses[j];
      assert call.name != "";
      assert Answers(call, r) || FirstUnanswered(pending, responses, j);
      if call.id != "" && r.id == "" { return [], Some(MissingResponseID); }
      if call.id != "" && r.id != call.id { return [], Some(WrongResponseID); }
      if r.name == "" { return [], Some(MissingResponseName); }
      if call.name != "" && r.name != call.name { return [], Some(WrongResponseName); }
    }
    return [], None;
  }

  /** All calls and responses of a content; `unnamed` if some call has no name. */
  method Collect(parts: seq<Part>) returns (calls: seq<Call>, responses: seq<Response>, unnamed: bool)
    ensures unnamed == !AllNamed(CallsOf(parts))
    ensures !unnamed ==> calls == CallsOf(parts) && responses == ResponsesOf(parts)
  {
    calls, responses := [], [];
    for j := 0 to |parts|
      invariant calls == CallsOf(parts[..j]) && responses == ResponsesOf(parts[..j]) && AllNamed(calls)
    {
      assert parts[..j + 1][..j] == parts[..j];
      var part := parts[j];
      if part.call.Some? {
        if part.call.value.name == "" {
          UnnamedStays(parts, j);
          return [], [], true;
        }
        calls := calls + [part.call.value];
      }
      if part.response.Some? { responses := responses + [part.response.value]; }
    }
    assert parts[..|parts|] == parts;
    unnamed := false;
  }

  lemma {:induction false} UnnamedStays(parts: seq<Part>, j: nat)
    requires j < |parts| && parts[j].call.Some? && parts[j].call.value.name == ""
    ensures !AllNamed(CallsOf(parts))
    decreases |parts|
  {
    var init, last := parts[..|parts| - 1], parts[|parts| - 1];
    var calls := CallsOf(parts);
    if j == |parts| - 1 {
      assert calls[|calls| - 1].name == "";
    } else {
      UnnamedStays(init, j);
      var k :| 0 <= k < |CallsOf(init)| && CallsOf(init)[k].name == "";
      assert calls[k].name == "";
    }
  }

  lemma GroupsNext(contents: seq<Content>, i: nat)
    requires i < |contents|
    ensures Groups(contents[..i + 1])
      == Groups(contents[..i]) + (if Relevant(contents[i]) then [GroupOf(contents[i])] else [])
  {
    assert contents[..i + 1][..i] == contents[..i];
  }

  /** Appending one group to a well-placed list leaves everything to the last position. */
  lemma LastDecides(before: seq<Group>, g: Group)
    requires forall i :: 0 <= i < |before| ==> InPlace(before, i)
    ensures (forall i :: 0 <= i < |before + [g]| ==> InPlace(before + [g], i)) <==> InPlace(before + [g], |before|)
    ensures before + [] == before
    ensures |before| % 2 == 1 ==> Pending(before) != [] && AllNamed(Pending(before))
  {
    forall i | 0 <= i < |before|
      ensures InPlace(before + [g], i)
    {
      assert InPlace(before, i);
    }
    if |before| % 2 == 1 { assert InPlace(before, |before| - 1); }
  }

  lemma {:induction false} GroupsPrefix(contents: seq<Content>, n: nat)
    requires n <= |contents|
    ensures Groups(contents[..n]) <= Groups(contents)
    decreases |contents|
  {
    if n == |contents| {
      assert contents[..n] == contents;
    } else {
      var init := contents[..|contents| - 1];
      GroupsPrefix(init, n);
      assert init[..n] == contents[..n];
    }
  }

  /** A well-paired history is well-paired at every earlier point. */
  lemma PrefixOfWellPaired(contents: seq<Content>, n: nat)
    requires n <= |contents|
    ensures WellPaired(contents) ==> WellPaired(contents[..n])
  {
    GroupsPrefix(contents, n);
    var g, h := Groups(contents[..n]), Groups(contents);
    if WellPaired(contents) {
      forall i | 0 <= i < |g|
        ensures InPlace(g, i)
      {
        assert InPlace(h, i);
      }
    }
  }

  // ----- histories built round by round ---------------------------------------------------------------------

  /** Calls made in one content and answered in the next. */
  datatype Round = Round(calls: seq<Call>, responses: seq<Response>)

  function CallParts(calls: seq<Call>): seq<Part> {
    seq(|calls|, i requires 0 <= i < |calls| => Part(Some(calls[i]), None))
  }

  function ResponseParts(responses: seq<Response>): seq<Part> {
    seq(|responses|, i requires 0 <= i < |responses| => Part(None, Some(responses[i])))
  }

  function Build(rounds: seq<Round>): seq<Content> {
    if rounds == [] then []
    else
      var last := rounds[|rounds| - 1];
      Build(rounds[..|rounds| - 1])
        + [Content(Some(CallParts(last.calls)))] + [Content(Some(ResponseParts(last.responses)))]
  }

  /** Named calls, each answered by name and, where it has one, by id. */
  predicate Complete(r: Round) {
    && |r.calls| == |r.responses|
    && forall i :: 0 <= i < |r.calls| ==>
         && r.calls[i].name != "" && r.responses[i].name == r.calls[i].name
         && (r.calls[i].id == "" || r.responses[i].id == r.calls[i].id)
  }

  lemma {:induction false} PartsOfCalls(calls: seq<Call>)
    ensures CallsOf(CallParts(calls)) == calls && ResponsesOf(CallParts(calls)) == []
  {
    if calls != [] {
      var front := calls[..|calls| - 1];
      assert CallParts(calls)[..|calls| - 1] == CallParts(front);
      PartsOfCalls(front);
    }
  }

  lemma {:induction false} PartsOfResponses(responses: seq<Response>)
    ensures ResponsesOf(ResponseParts(responses)) == responses && CallsOf(ResponseParts(responses)) == []
  {
    if responses != [] {
      var front := responses[..|responses| - 1];
      assert ResponseParts(responses)[..|responses| - 1] == ResponseParts(front);
      PartsOfResponses(front);
    }
  }

  lemma GroupsSnoc(contents: seq<Content>, c: Content)
    ensures Groups(contents + [c]) == Groups(contents) + if Relevant(c) then [GroupOf(c)] else []
  {
    assert (contents + [c])[..|contents|] == contents;
  }

  ghost predicate NoEmptyRound(rounds: seq<Round>) {
    forall i :: 0 <= i < |rounds| ==> rounds[i].calls != [] && rounds[i].responses != []
  }

  lemma {:induction false} BuiltGroups(rounds: seq<Round>)
    requires NoEmptyRound(rounds)
    ensures var g := Groups(Build(rounds));
      && |g| == 2 * |rounds|
      && forall i :: 0 <= i < |rounds| ==>
           g[2 * i] == Group(rounds[i].calls, []) && g[2 * i + 1] == Group([], rounds[i].responses)
  {
    hide Groups, GroupOf;
    if rounds == [] {
      NoGroups();
    } else {
      var front, last := rounds[..|rounds| - 1], rounds[|rounds| - 1];
      BuiltGroups(front);
      RoundGroups(last);
      var c, r := Content(Some(CallParts(last.calls))), Content(Some(ResponseParts(last.responses)));
      GroupsSnoc(Build(front), c);
      GroupsSnoc(Build(front) + [c], r);
    }
  }

  lemma NoGroups()
    ensures Groups([]) == []
  {
  }

  lemma RoundGroups(r: Round)
    ensures GroupOf(Content(Some(CallParts(r.calls)))) == Group(r.calls, [])
    ensures GroupOf(Content(Some(ResponseParts(r.responses)))) == Group([], r.responses)
  {
    PartsOfCalls(r.calls);
    PartsOfResponses(r.responses);
  }

  /** A history built of rounds of calls and responses is accepted exactly if every round is complete. */
  lemma BuiltExactly(rounds: seq<Round>)
    requires NoEmptyRound(rounds)
    ensures WellPaired(Build(rounds)) <==> forall i :: 0 <= i < |rounds| ==> Complete(rounds[i])
  {
    hide Groups;
    BuiltGroups(rounds);
    var g := Groups(Build(rounds));
    forall i | 0 <= i < |rounds|
      ensures Complete(rounds[i]) <==> InPlace(g, 2 * i) && InPlace(g, 2 * i + 1)
    {
      RoundInPlace(g, i, rounds[i]);
    }
    if forall i :: 0 <= i < |rounds| ==> Complete(rounds[i]) {
      forall k | 0 <= k < |g|
        ensures InPlace(g, k)
      {
        assert k == 2 * (k / 2) || k == 2 * (k / 2) + 1;
        assert Complete(rounds[k / 2]);
      }
    }
  }

  lemma RoundInPlace(g: seq<Group>, i: nat, r: Round)
    requires 2 * i + 1 < |g| && g[2 * i] == Group(r.calls, []) && g[2 * i + 1] == Group([], r.responses)
    requires r.calls != [] && r.responses != []
    ensures Complete(r) <==> InPlace(g, 2 * i) && InPlace(g, 2 * i + 1)
  {
  }

  /** Contents with neither calls nor responses play no part, wherever they stand. */
  lemma {:induction false} OthersPlayNoPart(before: seq<Content>, c: Content, after: seq<Content>)
    requires c.parts.None? || forall i :: 0 <= i < |c.parts.value| ==> c.parts.value[i] == Part(None, None)
    ensures Groups(before + [c] + after) == Groups(before + after)
  {
    hide GroupOf;
    if after == [] {
      NothingInIt(c);
      GroupsSnoc(before, c);
      assert before + [c] + [] == before + [c] && before + [] == before;
    } else {
      var front, last := after[..|after| - 1], after[|after| - 1];
      OthersPlayNoPart(before, c, front);
      GroupsSnoc(before + [c] + front, last);
      GroupsSnoc(before + front, last);
      assert before + [c] + after == before + [c] + front + [last] && before + after == before + front + [last];
    }
  }

  lemma NothingInIt(c: Content)
    requires c.parts.None? || forall i :: 0 <= i < |c.parts.value| ==> c.parts.value[i] == Part(None, None)
    ensures !Relevant(c)
  {
    if c.parts.Some? { NothingInParts(c.parts.value); }
  }

  lemma {:induction false} NothingInParts(parts: seq<Part>)
    requires forall i :: 0 <= i < |parts| ==> parts[i] == Part(None, None)
    ensures CallsOf(parts) == [] && ResponsesOf(parts) == []
  {
    if parts != [] { NothingInParts(parts[..|parts| - 1]); }
  }
}
