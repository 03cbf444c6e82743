/** Validation of thinking configurations, stage by stage. */
module Thinking {
  import opened Prelude
  import opened ThinkingSpec
  import opened ThinkingFits
  import Text

  method IsLevelSupported(level: string, supported: seq<string>) returns (ok: bool)
    ensures ok == LevelSupported(level, supported)
  {
    for i := 0 to |supported|
      invariant forall k :: 0 <= k < i ==> !Text.EqualFold(level, Text.TrimSpace(supported[k]))
    {
      if Text.EqualFold(level, Text.TrimSpace(supported[i])) { return true; }
    }
    ok := false;
  }

  /** levelIndex */
  method FindLevelIndex(level: string) returns (idx: int)
    ensures idx == if LevelIndex(level) < |STANDARD| then LevelIndex(level) else -1
  {
    for i := 0 to |STANDARD|
      invariant LevelIndex(level) == LevelIndexFrom(level, i)
    {
      if Text.EqualFold(level, STANDARD[i]) { return i; }
    }
    idx := -1;
  }

  /** A standard level the model does not list, though it lists another standard one. */
  ghost predicate Unoffered(level: string, supported: seq<string>) {
    !LevelSupported(level, supported) && LevelIndex(level) < |STANDARD| && exists idx: nat :: Offers(supported, idx)
  }

  /** clampLevel */
  method ClampToSupported(level: string, supported: seq<string>) returns (r: string)
    ensures r == ClampLevel(level, supported)
    ensures Unoffered(level, supported) ==>
      exists idx: nat :: Nearest(supported, LevelIndex(level), idx) && r == STANDARD[idx]
  {
    var ok := IsLevelSupported(level, supported);
    if supported == [] || ok { return level; }
    var pos := FindLevelIndex(level);
    if pos == -1 { return level; }
    var bestIdx, bestDist := -1, |STANDARD| + 1;
    for i := 0 to |supported|
      invariant bestIdx == -1 ==> BestIndex(supported[..i], pos) == None && bestDist == |STANDARD| + 1
      invariant bestIdx != -1 ==> 0 <= bestIdx && BestIndex(supported[..i], pos) == Some(bestIdx)
      invariant bestIdx != -1 ==> bestDist == Distance(pos, bestIdx)
    {
      assert supported[..i + 1][..i] == supported[..i];
      var idx := FindLevelIndex(Text.TrimSpace(supported[i]));
      if idx != -1 {
        var dist := Distance(pos, idx);
        if dist < bestDist || (dist == bestDist && idx < bestIdx) { bestIdx, bestDist := idx, dist; }
      }
    }
    assert supported[..|supported|] == supported;
    BestIsNearest(supported, pos);
    r := if bestIdx >= 0 then STANDARD[bestIdx] else level;
  }

  /** ValidateConfig; formats are trimmed and lower-cased first. */
  method ValidateConfig(config: Config, support: Option<Support>, fromFormat: string, toFormat: string,
                        fromSuffix: bool)
    returns (r: Result<Config, Error>)
    ensures r == Validate(config, support, Normal(fromFormat, toFormat, fromSuffix))
  {
    hide ClampLevel, LevelChecked, Settled, Finished, MidRange, LevelToBudget, BudgetToLevel, SameFamily;
    hide LevelIndex, Converted;
    var from, to := Text.ToLower(Text.TrimSpace(fromFormat)), Text.ToLower(Text.TrimSpace(toFormat));
    ghost var route := Normal(fromFormat, toFormat, fromSuffix);
    if support == None {
      return if config.mode != ModeNone then Err(ThinkingNotSupported) else Ok(config);
    }
    var s := support.value;
    var capability := CapabilityOf(s);
    var allowClamp := (capability == LevelOnly || capability == Hybrid) && !SameFamily(from, to);
    var strict := !fromSuffix && from != "" && SameFamily(from, to);
    var converted := Convert(config, s);
    if converted.Err? { return Err(converted.error); }
    var (c, derived) := converted.value;

    c := Settle(c);
    var checked := CheckLevel(c, s, allowClamp, route);
    if checked.Err? { return Err(checked.error); }
    c := checked.value;
    if strict && c.mode == ModeBudget && !derived && (s.min != 0 || s.max != 0) {
      if c.budget < s.min || c.budget > s.max || (c.budget == 0 && !s.zeroAllowed) { return Err(BudgetOutOfRange); }
    }
    if c.mode == ModeAuto && !s.dynamicAllowed { c := MidRange(c, s); }
    c := Finish(c, s, to, route);
    r := Ok(c);
  }

  method Convert(config: Config, s: Support) returns (r: Result<(Config, bool), Error>)
    ensures r == Converted(config, s)
  {
    hide ClampLevel, LevelToBudget, BudgetToLevel;
    var capability := CapabilityOf(s);
    if capability == BudgetOnly && config.mode == ModeLevel && config.level != "auto" {
      var budget := LevelToBudget(config.level);
      return if budget == None then Err(UnknownLevel) else Ok((Config(ModeBudget, budget.value, ""), true));
    }
    if capability == LevelOnly && config.mode == ModeBudget {
      var level := BudgetToLevel(config.budget);
      if level == None { return Err(UnknownLevel); }
      var clamped := ClampToSupported(level.value, s.levels);
      return Ok((Config(ModeLevel, 0, clamped), false));
    }
    r := Ok((config, false));
  }

  ghost function Normal(fromFormat: string, toFormat: string, fromSuffix: bool): Route {
    Route(Text.ToLower(Text.TrimSpace(fromFormat)), Text.ToLower(Text.TrimSpace(toFormat)), fromSuffix)
  }

  method Settle(config: Config) returns (c: Config)
    ensures c == Settled(config)
  {
    c := config;
    if c.mode == ModeLevel && c.level == "none" { c := Config(ModeNone, 0, ""); }
    if c.mode == ModeLevel && c.level == "auto" { c := Config(ModeAuto, -1, ""); }
    if c.mode == ModeBudget && c.budget == 0 { c := Config(ModeNone, c.budget, ""); }
  }

  method CheckLevel(config: Config, s: Support, allowClamp: bool, ghost route: Route) returns (r: Result<Config, Error>)
    requires s.levels != [] ==> allowClamp == ClampsLevels(s, route)
    ensures r == LevelChecked(config, s, route)
  {
    var c := config;
    if s.levels != [] && c.mode == ModeLevel {
      var ok := IsLevelSupported(c.level, s.levels);
      if !ok {
        if allowClamp {
          var clamped := ClampToSupported(c.level, s.levels);
          c := c.(level := clamped);
        }
        ok := IsLevelSupported(c.level, s.levels);
        if !ok { return Err(LevelNotSupported); }
      }
    }
    r := Ok(c);
  }

  method Finish(config: Config, s: Support, to: string, ghost route: Route) returns (c: Config)
    requires to == route.to
    ensures c == Finished(config, s, route)
  {
    c := config;
    if c.mode == ModeNone && to == "claude" {
      c := c.(budget := 0, level := "");
    } else {
      if c.mode != ModeLevel { c := c.(budget := ClampBudget(c.budget, s)); }
      if c.mode == ModeNone && c.budget > 0 && s.levels != [] { c := c.(level := s.levels[0]); }
    }
  }
}
