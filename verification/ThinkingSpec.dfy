/** Thinking configurations, what a model supports, and how the first are fitted to the second. */
module ThinkingSpec {
  import opened Prelude
  import Text

  datatype Mode = ModeBudget | ModeLevel | ModeNone | ModeAuto

  datatype Config = Config(mode: Mode, budget: int, level: string)

  datatype Support = Support(min: int, max: int, zeroAllowed: bool, dynamicAllowed: bool, levels: seq<string>)

  datatype Error = ThinkingNotSupported | UnknownLevel | LevelNotSupported | BudgetOutOfRange

  datatype Capability = Nothing | BudgetOnly | LevelOnly | Hybrid

  /** standardLevelOrder */
  const STANDARD: seq<string> := ["minimal", "low", "medium", "high", "xhigh", "max"]

  // ----- conversions --------------------------------------------------------------------------

  /** ConvertLevelToBudget */
  function LevelToBudget(level: string): Option<int> {
    var l := Text.ToLower(level);
    if l == "none" then Some(0)
    else if l == "auto" then Some(-1)
    else if l == "minimal" then Some(512)
    else if l == "low" then Some(1024)
    else if l == "medium" then Some(8192)
    else if l == "high" then Some(24576)
    else if l == "xhigh" then Some(32768)
    else if l == "max" then Some(128000)
    else None
  }

  /** ConvertBudgetToLevel */
  function BudgetToLevel(budget: int): Option<string> {
    if budget < -1 then None
    else if budget == -1 then Some("auto")
    else if budget == 0 then Some("none")
    else if budget <= 512 then Some("minimal")
    else if budget <= 1024 then Some("low")
    else if budget <= 8192 then Some("medium")
    else if budget <= 24576 then Some("high")
    else Some("xhigh")
  }

  /** detectModelCapability on a model with thinking support. */
  function CapabilityOf(s: Support): Capability {
    if s.min > 0 || s.max > 0 then if s.levels != [] then Hybrid else BudgetOnly
    else if s.levels != [] then LevelOnly else Nothing
  }

  // ----- levels ----------------------------------------------------------------------------------

  predicate LevelSupported(level: string, levels: seq<string>) {
    exists i :: 0 <= i < |levels| && Text.EqualFold(level, Text.TrimSpace(levels[i]))
  }

  /** levelIndex, with the number of standard levels for -1. */
  function LevelIndexFrom(level: string, i: nat): (r: nat)
    requires i <= |STANDARD|
    ensures i <= r <= |STANDARD|
    ensures r < |STANDARD| ==> Text.EqualFold(level, STANDARD[r])
    decreases |STANDARD| - i
  {
    if i == |STANDARD| || Text.EqualFold(level, STANDARD[i]) then i else LevelIndexFrom(level, i + 1)
  }

  function LevelIndex(level: string): (r: nat)
    ensures r <= |STANDARD|
    ensures r < |STANDARD| ==> Text.EqualFold(level, STANDARD[r])
  {
    LevelIndexFrom(level, 0)
  }

  function Distance(a: int, b: int): nat {
    if a < b then b - a else a - b
  }

  /** Whether position a is a better stand-in for pos than b. */
  predicate Closer(pos: nat, a: nat, b: nat) {
    Distance(pos, a) < Distance(pos, b) || (Distance(pos, a) == Distance(pos, b) && a < b)
  }

  /** The best standard position among the first n supported levels. */
  function BestIndex(levels: seq<string>, pos: nat): (r: Option<nat>)
    ensures r != None ==> r.value < |STANDARD|
  {
    if levels == [] then None
    else
      var best := BestIndex(levels[..|levels| - 1], pos);
      var idx := LevelIndex(Text.TrimSpace(levels[|levels| - 1]));
      if idx < |STANDARD| && (best == None || Closer(pos, idx, best.value)) then Some(idx) else best
  }

  /** clampLevel */
  function ClampLevel(level: string, levels: seq<string>): string {
    if levels == [] || LevelSupported(level, levels) || LevelIndex(level) == |STANDARD| then level
    else
      match BestIndex(levels, LevelIndex(level))
      case Some(idx) => STANDARD[idx]
      case None => level
  }

  // ----- budgets ------------------------------------------------------------------------------------

  /** clampBudget */
  function ClampBudget(value: int, s: Support): int {
    if value == -1 then value
    else if value == 0 && !s.zeroAllowed then s.min
    else if s.min == 0 && s.max == 0 then value
    else if value < s.min then if value == 0 then 0 else s.min
    else if value > s.max then s.max
    else value
  }

  // ----- formats ---------------------------------------------------------------------------------------

  predicate GeminiFamily(p: string) {
    p == "gemini" || p == "gemini-cli" || p == "antigravity"
  }

  predicate OpenAIFamily(p: string) {
    p == "openai" || p == "openai-response" || p == "codex" || p == "xai"
  }

  predicate SameFamily(from: string, to: string) {
    from == to || (GeminiFamily(from) && GeminiFamily(to)) || (OpenAIFamily(from) && OpenAIFamily(to))
  }

  /** The request's circumstances, with formats already trimmed and lower-cased. */
  datatype Route = Route(from: string, to: string, fromSuffix: bool)

  predicate ClampsLevels(s: Support, r: Route) {
    s.levels != [] && !SameFamily(r.from, r.to)
  }

  predicate StrictBudget(r: Route) {
    !r.fromSuffix && r.from != "" && SameFamily(r.from, r.to)
  }

  // ----- the stages of ValidateConfig ------------------------------------------------------------------

  /** To the form the model takes; the flag says a budget was derived from a level. */
  function Converted(c: Config, s: Support): Result<(Config, bool), Error> {
    match CapabilityOf(s)
    case BudgetOnly =>
      if c.mode != ModeLevel || c.level == "auto" then Ok((c, false))
      else (match LevelToBudget(c.level)
            case None => Err(UnknownLevel)
            case Some(b) => Ok((Config(ModeBudget, b, ""), true)))
    case LevelOnly =>
      if c.mode != ModeBudget then Ok((c, false))
      else (match BudgetToLevel(c.budget)
            case None => Err(UnknownLevel)
            case Some(l) => Ok((Config(ModeLevel, 0, ClampLevel(l, s.levels)), false)))
    case _ => Ok((c, false))
  }

  /** The special levels and the zero budget become modes. */
  function Settled(c: Config): Config {
    if c.mode == ModeLevel && c.level == "none" then Config(ModeNone, 0, "")
    else if c.mode == ModeLevel && c.level == "auto" then Config(ModeAuto, -1, "")
    else if c.mode == ModeBudget && c.budget == 0 then Config(ModeNone, 0, "")
    else c
  }

  function LevelChecked(c: Config, s: Support, r: Route): Result<Config, Error> {
    if s.levels == [] || c.mode != ModeLevel || LevelSupported(c.level, s.levels) then Ok(c)
    else
      var l := if ClampsLevels(s, r) then ClampLevel(c.level, s.levels) else c.level;
      if LevelSupported(l, s.levels) then Ok(c.(level := l)) else Err(LevelNotSupported)
  }

  predicate BudgetRefused(c: Config, derived: bool, s: Support, r: Route) {
    && StrictBudget(r) && c.mode == ModeBudget && !derived
    && (s.min != 0 || s.max != 0)
    && (c.budget < s.min || c.budget > s.max || (c.budget == 0 && !s.zeroAllowed))
  }

  /** convertAutoToMidRange; Go's division truncates toward zero. */
  function MidRange(c: Config, s: Support): Config {
    if s.levels != [] && s.min == 0 && s.max == 0 then Config(ModeLevel, 0, "medium")
    else
      var sum := s.min + s.max;
      var mid := if sum < 0 then -(-sum / 2) else sum / 2;
      if mid <= 0 && s.zeroAllowed then Config(ModeNone, 0, c.level)
      else if mid <= 0 then Config(ModeBudget, s.min, c.level)
      else Config(ModeBudget, mid, c.level)
  }

  function Finished(c: Config, s: Support, r: Route): Config {
    if c.mode == ModeNone && r.to == "claude" then Config(ModeNone, 0, "")
    else
      var b := if c.mode == ModeLevel then c.budget else ClampBudget(c.budget, s);
      if c.mode == ModeNone && b > 0 && s.levels != [] then Config(ModeNone, b, s.levels[0]) else c.(budget := b)
  }

  /** ValidateConfig; `None` is a model without thinking support. */
  function Validate(c: Config, support: Option<Support>, r: Route): Result<Config, Error> {
    match support
    case None => if c.mode == ModeNone then Ok(c) else Err(ThinkingNotSupported)
    case Some(s) =>
      match Converted(c, s)
      case Err(e) => Err(e)
      case Ok((converted, derived)) =>
        match LevelChecked(Settled(converted), s, r)
        case Err(e) => Err(e)
        case Ok(checked) =>
          if BudgetRefused(checked, derived, s, r) then Err(BudgetOutOfRange)
          else
            var ranged := if checked.mode == ModeAuto && !s.dynamicAllowed then MidRange(checked, s) else checked;
            Ok(Finished(ranged, s, r))
  }
}
