/** When a validated configuration fits the model, and what validation changes. */
module ThinkingFits {
  import opened Prelude
  import opened ThinkingSpec
  import Text

  // ----- the nearest level -------------------------------------------------------------------------

  /** Some supported level stands at this standard position. */
  ghost predicate Offers(levels: seq<string>, idx: nat) {
    idx < |STANDARD| && exists i :: 0 <= i < |levels| && LevelIndex(Text.TrimSpace(levels[i])) == idx
  }

  ghost predicate Nearest(levels: seq<string>, pos: nat, idx: nat) {
    && Offers(levels, idx)
    && forall other :: Offers(levels, other) && other != idx ==> Closer(pos, idx, other)
  }

  lemma OffersSnoc(levels: seq<string>, idx: nat)
    requires levels != []
    ensures Offers(levels, idx) <==>
      Offers(levels[..|levels| - 1], idx)
        || (idx < |STANDARD| && LevelIndex(Text.TrimSpace(levels[|levels| - 1])) == idx)
  {
    hide LevelIndex, Text.TrimSpace;
    var n := |levels| - 1;
    if Offers(levels[..n], idx) {
      var i :| 0 <= i < n && LevelIndex(Text.TrimSpace(levels[..n][i])) == idx;
      assert levels[i] == levels[..n][i];
    }
    if Offers(levels, idx) && LevelIndex(Text.TrimSpace(levels[n])) != idx {
      var i :| 0 <= i <= n && LevelIndex(Text.TrimSpace(levels[i])) == idx;
      assert levels[i] == levels[..n][i];
    }
  }

  /** The loop over the supported levels finds the nearest one, the lower of two equally near. */
  lemma {:induction false} BestIsNearest(levels: seq<string>, pos: nat)
    ensures match BestIndex(levels, pos)
            case None => forall idx :: !Offers(levels, idx)
            case Some(best) => Nearest(levels, pos, best)
  {
    hide LevelIndex, Offers;
    if levels == [] {
      forall idx: nat
        ensures !Offers(levels, idx)
      {
        OffersNothing(idx);
      }
    } else {
      BestIsNearest(levels[..|levels| - 1], pos);
      forall idx: nat
        ensures Offers(levels, idx) <==>
          Offers(levels[..|levels| - 1], idx)
            || (idx < |STANDARD| && LevelIndex(Text.TrimSpace(levels[|levels| - 1])) == idx)
      {
        OffersSnoc(levels, idx);
      }
    }
  }

  lemma OffersNothing(idx: nat)
    ensures !Offers([], idx)
  {
  }

  /** Clamping does not depend on the order, spelling or repetition of the supported levels. */
  lemma ClampIsOrderIndependent(level: string, a: seq<string>, b: seq<string>)
    requires forall idx :: Offers(a, idx) <==> Offers(b, idx)
    requires LevelSupported(level, a) <==> LevelSupported(level, b)
    requires a != [] && b != []
    ensures ClampLevel(level, a) == ClampLevel(level, b)
  {
    BestIsNearest(a, LevelIndex(level));
    BestIsNearest(b, LevelIndex(level));
  }

  /** A standard level is clamped to a supported one whenever the model offers any standard level. */
  lemma ClampedIsSupported(level: string, levels: seq<string>)
    requires LevelIndex(level) < |STANDARD| && exists idx: nat :: Offers(levels, idx)
    ensures LevelSupported(ClampLevel(level, levels), levels)
    ensures !LevelSupported(level, levels) ==>
      exists idx: nat :: Nearest(levels, LevelIndex(level), idx) && ClampLevel(level, levels) == STANDARD[idx]
  {
    BestIsNearest(levels, LevelIndex(level));
    if !LevelSupported(level, levels) {
      var best := BestIndex(levels, LevelIndex(level)).value;
      var i :| 0 <= i < |levels| && LevelIndex(Text.TrimSpace(levels[i])) == best;
      assert Text.EqualFold(STANDARD[best], Text.TrimSpace(levels[i]));
    }
  }

  /** Clamping leaves a supported level alone, and what it changes is a standard level. */
  lemma ClampCases(level: string, levels: seq<string>)
    ensures LevelSupported(level, levels) ==> ClampLevel(level, levels) == level
    ensures ClampLevel(level, levels) == level || ClampLevel(level, levels) in STANDARD
  {
  }

  // ----- fitting the model -----------------------------------------------------------------------------

  /** Support as the registry declares it. */
  predicate Ranged(s: Support) {
    0 <= s.min <= s.max
  }

  /** A configuration as the extractors build it. */
  predicate Extracted(c: Config) {
    match c.mode
    case ModeNone => c.budget == 0 && c.level == ""
    case ModeAuto => c.budget == -1 && c.level == ""
    case ModeBudget => c.budget != 0 && c.budget != -1 && c.level == ""
    case ModeLevel => c.budget == 0 && c.level != "none"
  }

  /** Inside the model's capability for this target: what the appliers may rely on. */
  predicate Fits(c: Config, s: Support, r: Route) {
    match c.mode
    case ModeNone =>
      if r.to == "claude" then c.budget == 0 && c.level == ""
      else
        && c.budget == (if s.zeroAllowed then 0 else s.min)
        && c.level == (if c.budget > 0 && s.levels != [] then s.levels[0] else "")
    case ModeAuto => s.dynamicAllowed && c.budget == -1 && c.level == ""
    case ModeBudget =>
      && CapabilityOf(s) != LevelOnly && c.budget > 0 && c.level == ""
      && (s.max > 0 ==> s.min <= c.budget <= s.max)
    case ModeLevel => c.budget == 0 && c.level != "none" && c.level != "auto" && LevelSupported(c.level, s.levels)
  }

  predicate AsksAuto(c: Config) {
    c.mode == ModeAuto || (c.mode == ModeLevel && c.level == "auto")
  }

  /** When the model has an answer to such a configuration; all of it can be checked beforehand. */
  predicate Answerable(c: Config, s: Support) {
    if c.mode == ModeNone then true
    else if AsksAuto(c) then
      || s.dynamicAllowed
      || (if CapabilityOf(s) == LevelOnly then LevelSupported("medium", s.levels)
          else s.zeroAllowed || s.min + s.max >= 2)
    else if c.mode == ModeBudget then c.budget > 0 || s.min > 0
    else s.levels != [] || (s.max > 0 && Text.ToLower(c.level) != "auto")
  }

  /**
   A successful validation yields a configuration inside the model's capability exactly
   when the request was answerable.
   */
  lemma ResultFitsExactly(c: Config, s: Support, r: Route)
    requires Ranged(s) && Extracted(c) && Validate(c, Some(s), r).Ok?
    ensures Fits(Validate(c, Some(s), r).value, s, r) <==> Answerable(c, s)
  {
    hide Validate, Fits;
    match c.mode
    case ModeNone => NoneFits(c, s, r);
    case ModeAuto => AutoFits(c, s, r);
    case ModeBudget => BudgetFits(c, s, r);
    case ModeLevel => LevelFits(c, s, r);
  }

  lemma NoneFits(c: Config, s: Support, r: Route)
    requires Ranged(s) && Extracted(c) && c.mode == ModeNone
    ensures Validate(c, Some(s), r).Ok? && Fits(Validate(c, Some(s), r).value, s, r)
  {
  }

  lemma AutoFits(c: Config, s: Support, r: Route)
    requires Ranged(s) && Extracted(c) && AsksAuto(c) && Validate(c, Some(s), r).Ok?
    ensures Fits(Validate(c, Some(s), r).value, s, r) <==> Answerable(c, s)
  {
  }

  lemma BudgetFits(c: Config, s: Support, r: Route)
    requires Ranged(s) && Extracted(c) && c.mode == ModeBudget && Validate(c, Some(s), r).Ok?
    ensures Fits(Validate(c, Some(s), r).value, s, r) <==> Answerable(c, s)
  {
    hide ClampLevel, BudgetToLevel;
    BudgetConverts(c.budget, s);
    if c.budget > 0 { ClampCases(ClampLevel(BudgetToLevel(c.budget).value, s.levels), s.levels); }
    NoSpecialStandard();
  }

  lemma LevelFits(c: Config, s: Support, r: Route)
    requires Ranged(s) && Extracted(c) && c.mode == ModeLevel && Validate(c, Some(s), r).Ok?
    ensures Fits(Validate(c, Some(s), r).value, s, r) <==> Answerable(c, s)
  {
    if c.level == "auto" {
      AutoFits(c, s, r);
    } else {
      hide ClampLevel;
      ClampCases(c.level, s.levels);
      NoSpecialStandard();
    }
  }

  lemma NoSpecialStandard()
    ensures "none" !in STANDARD && "auto" !in STANDARD
  {
    assert "none"[0] == 'n' && "auto"[0] == 'a';
  }

  lemma BudgetConverts(budget: int, s: Support)
    requires budget != 0 && budget != -1
    ensures BudgetToLevel(budget) != None <==> budget > 0
    ensures budget > 0 ==>
      BudgetToLevel(budget).value in STANDARD && ClampLevel(BudgetToLevel(budget).value, s.levels) in STANDARD
  {
    if budget > 0 { ClampCases(BudgetToLevel(budget).value, s.levels); }
  }

  /** Whatever fits is left alone, so validating an answerable request twice is validating it once. */
  lemma FittingIsFixed(c: Config, s: Support, r: Route)
    requires Ranged(s) && Fits(c, s, r)
    ensures Validate(c, Some(s), r) == Ok(c)
  {
  }

  lemma ValidatingTwice(c: Config, s: Support, r: Route)
    requires Ranged(s) && Extracted(c) && Answerable(c, s) && Validate(c, Some(s), r).Ok?
    ensures Validate(Validate(c, Some(s), r).value, Some(s), r) == Validate(c, Some(s), r)
  {
    ResultFitsExactly(c, s, r);
    FittingIsFixed(Validate(c, Some(s), r).value, s, r);
  }

  // ----- what is refused ------------------------------------------------------------------------------------

  /**
   Across families a standard level or a positive budget is refused exactly when it has to
   become a level and the model's list of levels holds no standard one.
   */
  lemma CrossFamilyRefusedExactly(c: Config, s: Support, r: Route)
    requires Ranged(s) && !SameFamily(r.from, r.to)
    requires (c.mode == ModeBudget && c.budget > 0) || (c.mode == ModeLevel && c.level in STANDARD)
    ensures Validate(c, Some(s), r).Ok? <==>
      s.levels == [] || (c.mode == ModeBudget && s.max > 0) || exists idx: nat :: Offers(s.levels, idx)
  {
    hide LevelIndex, LevelToBudget, ClampLevel, BudgetToLevel, Finished, MidRange, Offers, LevelSupported;
    if c.mode == ModeBudget { BudgetConverts(c.budget, s); }
    var level := if c.mode == ModeBudget then BudgetToLevel(c.budget).value else c.level;
    if s.levels == [] || exists idx: nat :: Offers(s.levels, idx) {
      StandardPasses(level, s);
    } else {
      StandardFails(level, s);
    }
  }

  lemma {:induction false} FoldedLevelIndex(a: string, b: string, i: nat)
    requires Text.EqualFold(a, b) && i <= |STANDARD|
    ensures LevelIndexFrom(a, i) == LevelIndexFrom(b, i)
    decreases |STANDARD| - i
  {
    if i < |STANDARD| { FoldedLevelIndex(a, b, i + 1); }
  }

  lemma StandardFails(level: string, s: Support)
    requires level in STANDARD && s.levels != [] && !exists idx: nat :: Offers(s.levels, idx)
    ensures ClampLevel(level, s.levels) == level && !LevelSupported(level, s.levels)
    ensures LevelToBudget(level) != None && level != "none" && level != "auto"
  {
    StandardHasIndex(level);
    NoSpecialStandard();
    BestIsNearest(s.levels, LevelIndex(level));
    if LevelSupported(level, s.levels) {
      var i :| 0 <= i < |s.levels| && Text.EqualFold(level, Text.TrimSpace(s.levels[i]));
      FoldedLevelIndex(level, Text.TrimSpace(s.levels[i]), 0);
      assert Offers(s.levels, LevelIndex(level));
    }
  }

  lemma StandardPasses(level: string, s: Support)
    requires level in STANDARD && (s.levels != [] ==> exists idx: nat :: Offers(s.levels, idx))
    ensures LevelToBudget(level) != None && level != "none" && level != "auto"
    ensures s.levels != [] ==> LevelSupported(ClampLevel(level, s.levels), s.levels)
    ensures s.levels != [] ==> ClampLevel(level, s.levels) in STANDARD
    ensures ClampLevel(level, s.levels) != "none" && ClampLevel(level, s.levels) != "auto"
  {
    hide ClampLevel;
    StandardHasIndex(level);
    NoSpecialStandard();
    ClampCases(level, s.levels);
    if s.levels != [] { ClampedIsSupported(level, s.levels); }
  }

  lemma StandardHasIndex(level: string)
    requires level in STANDARD
    ensures LevelIndex(level) < |STANDARD| && LevelToBudget(level) != None
  {
    hide Text.ToLower, LevelIndex, LevelToBudget;
    TableOfLevels();
    var i :| 0 <= i < |STANDARD| && STANDARD[i] == level;
    assert LevelIndex(STANDARD[i]) == i;
  }

  /**
   Within a family, on a model with a budget range, a non-zero body budget passes exactly when it is in range,
   and then unchanged.
   */
  lemma StrictBudgetExactly(budget: int, s: Support, r: Route)
    requires Ranged(s) && s.max > 0 && budget != 0
    requires !r.fromSuffix && r.from != "" && SameFamily(r.from, r.to)
    ensures var c := Config(ModeBudget, budget, "");
      Validate(c, Some(s), r) == if s.min <= budget <= s.max then Ok(c) else Err(BudgetOutOfRange)
  {
  }

  /** Otherwise it is clamped to the nearest end of the range; -1 stands for automatic and passes as it is. */
  lemma LenientBudgetIsClamped(budget: int, s: Support, r: Route)
    requires Ranged(s) && s.max > 0 && budget != 0
    requires r.fromSuffix || r.from == "" || !SameFamily(r.from, r.to)
    ensures Validate(Config(ModeBudget, budget, ""), Some(s), r)
      == Ok(Config(ModeBudget, if budget == -1 then -1 else Max(s.min, Min(budget, s.max)), ""))
  {
  }

  /** On a model that declares neither a range nor levels, no budget but zero is looked at. */
  lemma UndeclaredBudgetPasses(budget: int, s: Support, r: Route)
    requires s.min == 0 && s.max == 0 && s.levels == [] && budget != 0
    ensures Validate(Config(ModeBudget, budget, ""), Some(s), r) == Ok(Config(ModeBudget, budget, ""))
  {
  }

  // ----- the two scales -----------------------------------------------------------------------------------------

  /**
   A budget becomes a level that covers it exactly up to xhigh's 32768, and no lower level
   does. Beyond that it still becomes xhigh, although max would cover it up to 128000.
   */
  lemma LowestCoveringLevel(budget: int, i: nat)
    requires 0 < budget && i < |STANDARD|
    ensures BudgetToLevel(budget).Some?
    ensures var l := BudgetToLevel(budget).value;
      && LevelIndex(l) < |STANDARD|
      && (Covers(l, budget) <==> budget <= 32768)
      && (i < LevelIndex(l) ==> !Covers(STANDARD[i], budget))
  {
    TableOfLevels();
  }

  /** The level stands for that many tokens or more. */
  predicate Covers(level: string, budget: int) {
    match LevelToBudget(level)
    case None => false
    case Some(most) => budget <= most
  }

  lemma TableOfLevels()
    ensures forall i :: 0 <= i < |STANDARD| ==> LevelIndex(STANDARD[i]) == i
    ensures LevelToBudget("minimal") == Some(512) && LevelToBudget("low") == Some(1024)
    ensures LevelToBudget("medium") == Some(8192) && LevelToBudget("high") == Some(24576)
    ensures LevelToBudget("xhigh") == Some(32768) && LevelToBudget("max") == Some(128000)
  {
    assert Text.ToLower("minimal") == "minimal" && Text.ToLower("low") == "low" && Text.ToLower("medium") == "medium";
    assert Text.ToLower("high") == "high" && Text.ToLower("xhigh") == "xhigh" && Text.ToLower("max") == "max";
    forall i | 0 <= i < |STANDARD|
      ensures LevelIndex(STANDARD[i]) == i
    {
      IndexOfStandard(i, 0);
    }
  }

  lemma {:induction false} IndexOfStandard(i: nat, from: nat)
    requires from <= i < |STANDARD|
    ensures LevelIndexFrom(STANDARD[i], from) == i
    decreases i - from
  {
    if from < i {
      StandardDiffer(from, i);
      IndexOfStandard(i, from + 1);
    }
  }

  lemma StandardDiffer(i: nat, j: nat)
    requires i < j < |STANDARD|
    ensures !Text.EqualFold(STANDARD[j], STANDARD[i])
  {
    var a, b := STANDARD[i], STANDARD[j];
    assert |a| != |b| || a[0] != b[0];
    assert Text.ToLower(a)[0] == a[0] && Text.ToLower(b)[0] == b[0];
  }

  /** Level to budget and back is the identity, except that max comes back as xhigh. */
  lemma LevelRoundTrip(i: nat)
    requires i < |STANDARD|
    ensures BudgetToLevel(LevelToBudget(STANDARD[i]).value) == Some(STANDARD[if i == 5 then 4 else i])
  {
    TableOfLevels();
  }

  // ----- requests no answer fits ----------------------------------------------------------------------------------

  /** A request an extractor can build that passes validation and comes out outside the model's capability. */
  ghost predicate Misfit(c: Config, s: Support, r: Route, result: Config) {
    Ranged(s) && Extracted(c) && Validate(c, Some(s), r) == Ok(result) && !Fits(result, s, r)
  }

  /** An upper-case AUTO, a negative budget, and automatic thinking where medium is no level. */
  lemma UnanswerableRequests(r: Route)
    requires !SameFamily(r.from, r.to)
    ensures Misfit(Config(ModeLevel, 0, "AUTO"), Support(1024, 32000, true, true, []), r, Config(ModeBudget, -1, ""))
    ensures Misfit(Config(ModeBudget, -5, ""), Support(0, 24576, true, true, []), r, Config(ModeBudget, 0, ""))
    ensures Misfit(Config(ModeAuto, -1, ""), Support(0, 0, false, false, ["low", "high"]), r,
                   Config(ModeLevel, 0, "medium"))
  {
    assert Text.ToLower("AUTO") == "auto";
    MediumIsNoLevel();
  }

  lemma MediumIsNoLevel()
    ensures !LevelSupported("medium", ["low", "high"])
  {
    Text.TrimmedIsFixed("low");
    Text.TrimmedIsFixed("high");
    assert |Text.ToLower("medium")| == 6 && |Text.ToLower("low")| == 3 && |Text.ToLower("high")| == 4;
  }

  // ----- which budget, which level -------------------------------------------------------------------------

  /** The token budgets of the standard levels. */
  const BUDGETS: seq<int> := [512, 1024, 8192, 24576, 32768, 128000]

  lemma BudgetsOfLevels(i: nat)
    requires i < |STANDARD|
    ensures LevelToBudget(STANDARD[i]) == Some(BUDGETS[i]) && LevelIndex(STANDARD[i]) == i
  {
    TableOfLevels();
  }

  /** On a model that takes budgets only, a level becomes its budget, moved to the nearest end of the range. */
  lemma LevelBecomesBudget(i: nat, s: Support, r: Route)
    requires i < |STANDARD| && Ranged(s) && s.max > 0 && s.levels == []
    ensures Validate(Config(ModeLevel, 0, STANDARD[i]), Some(s), r)
      == Ok(Config(ModeBudget, Max(s.min, Min(BUDGETS[i], s.max)), ""))
  {
    hide LevelToBudget;
    BudgetsOfLevels(i);
    NoSpecialStandard();
  }

  /** The lowest level that covers the budget, short of max. */
  function LevelFor(budget: int): nat {
    if budget <= 512 then 0 else if budget <= 1024 then 1 else if budget <= 8192 then 2 else if budget <= 24576 then 3
    else 4
  }

  /**
   On a model that takes levels only, a budget becomes the lowest level covering it if that
   is on offer, and otherwise the nearest one that is.
   */
  lemma BudgetBecomesLevel(budget: int, s: Support, r: Route)
    requires 0 < budget && s.min == 0 && s.max == 0 && s.levels != [] && exists idx: nat :: Offers(s.levels, idx)
    ensures var i := LevelFor(budget);
      var v := Validate(Config(ModeBudget, budget, ""), Some(s), r);
      && v.Ok? && v.value.mode == ModeLevel && v.value.budget == 0 && LevelSupported(v.value.level, s.levels)
      && (LevelSupported(STANDARD[i], s.levels) ==> v.value.level == STANDARD[i])
      && (!LevelSupported(STANDARD[i], s.levels) ==>
            exists idx: nat :: Nearest(s.levels, i, idx) && v.value.level == STANDARD[idx])
  {
    hide LevelIndex, ClampLevel, LevelSupported, Nearest, Offers;
    var i := LevelFor(budget);
    assert BudgetToLevel(budget) == Some(STANDARD[i]);
    BudgetsOfLevels(i);
    StandardPasses(STANDARD[i], s);
    ClampCases(STANDARD[i], s.levels);
    ClampedIsSupported(STANDARD[i], s.levels);
    NoSpecialStandard();
  }

  /**
   Automatic thinking stays automatic where the model allows it; elsewhere it becomes medium
   on a model of levels only, and half way between the ends of the range, if that is positive.
   */
  lemma AutoBecomesMiddle(c: Config, s: Support, r: Route)
    requires Ranged(s) && Extracted(c) && AsksAuto(c)
    ensures Validate(c, Some(s), r)
      == Ok(if s.dynamicAllowed then Config(ModeAuto, -1, "")
            else if s.levels != [] && s.max == 0 then Config(ModeLevel, 0, "medium")
            else if s.min + s.max >= 2 then Config(ModeBudget, (s.min + s.max) / 2, "")
            else if s.zeroAllowed then Config(ModeNone, 0, "")
            else Config(ModeBudget, s.min, ""))
  {
  }

  /** The formats that count as one family. */
  lemma FamiliesAre(a: string, b: string)
    ensures SameFamily(a, b) <==>
      || a == b
      || {a, b} <= {"gemini", "gemini-cli", "antigravity"}
      || {a, b} <= {"openai", "openai-response", "codex", "xai"}
  {
  }

  /** Within a family, on a model with levels, a level passes exactly if it is listed, and then unchanged. */
  lemma SameFamilyLevelExactly(level: string, s: Support, r: Route)
    requires SameFamily(r.from, r.to) && s.levels != [] && level != "none" && level != "auto"
    ensures var c := Config(ModeLevel, 0, level);
      Validate(c, Some(s), r) == if LevelSupported(level, s.levels) then Ok(c) else Err(LevelNotSupported)
  {
  }

  /** Across families a standard level that is not listed becomes the nearest standard one that is. */
  lemma CrossFamilyLevelIsNearest(i: nat, s: Support, r: Route)
    requires i < |STANDARD| && !SameFamily(r.from, r.to) && s.levels != [] && exists idx: nat :: Offers(s.levels, idx)
    ensures var v := Validate(Config(ModeLevel, 0, STANDARD[i]), Some(s), r);
      && v.Ok? && v.value.mode == ModeLevel && v.value.budget == 0 && LevelSupported(v.value.level, s.levels)
      && (LevelSupported(STANDARD[i], s.levels) ==> v.value.level == STANDARD[i])
      && (!LevelSupported(STANDARD[i], s.levels) ==>
            exists idx: nat :: Nearest(s.levels, i, idx) && v.value.level == STANDARD[idx])
  {
    hide LevelIndex, ClampLevel, LevelSupported, Nearest, Offers, SameFamily;
    BudgetsOfLevels(i);
    StandardPasses(STANDARD[i], s);
    ClampCases(STANDARD[i], s.levels);
    ClampedIsSupported(STANDARD[i], s.levels);
    NoSpecialStandard();
  }
}
