/**
 What a merge may leave out, judged by what the configuration means: the value a scalar
 stands for, and the value the program works with where a setting is absent.
 */
module YamlMeaning {
  import opened Prelude
  import opened YamlSpec
  import opened YamlReflect
  import Text

  // ----- what a scalar stands for ------------------------------------------------------------------

  datatype Meaning = Flag(on: bool) | Amount(n: real) | Words(text: string) | Unset | Other(tag: string, text: string)
    | NoEntry

  function Digit(c: char): Option<int> {
    if '0' <= c <= '9' then Some((c - '0') as int) else None
  }

  /** Decimal digits before a point. */
  function Whole(s: string): Option<int> {
    if s == "" then None
    else
      match Digit(s[|s| - 1])
      case None => None
      case Some(d) =>
        if |s| == 1 then Some(d)
        else
          match Whole(s[..|s| - 1])
          case None => None
          case Some(v) => Some(10 * v + d)
  }

  /** And after it. */
  function Part(s: string): Option<real> {
    if s == "" then None
    else
      match Digit(s[0])
      case None => None
      case Some(d) =>
        if |s| == 1 then Some(d as real / 10.0)
        else
          match Part(s[1..])
          case None => None
          case Some(v) => Some((d as real + v) / 10.0)
  }

  function PointIn(s: string): (i: nat)
    ensures i <= |s|
  {
    if s == "" || s[0] == '.' then 0 else 1 + PointIn(s[1..])
  }

  function Unsigned(s: string): Option<real> {
    var i := PointIn(s);
    match Whole(s[..i])
    case None => None
    case Some(v) =>
      if i == |s| then Some(v as real)
      else
        match Part(s[i + 1..])
        case None => None
        case Some(f) => Some(v as real + f)
  }

  /** A number in plain decimal notation. */
  function Decimal(s: string): Option<real> {
    if s != "" && s[0] == '-' then
      match Unsigned(s[1..])
      case None => None
      case Some(r) => Some(-r)
    else Unsigned(s)
  }

  /** What a scalar says, by its tag. */
  function Says(n: Y): Meaning
    requires n != Nil
  {
    if n.tag == "!!null" then Unset
    else if n.tag == "!!str" then Words(n.value)
    else if n.tag == "!!bool" && (n.value == "true" || n.value == "false") then Flag(n.value == "true")
    else if (n.tag == "!!int" || n.tag == "!!float") && Decimal(n.value).Some? then Amount(Decimal(n.value).value)
    else Other(n.tag, n.value)
  }

  /** False, zero, empty or null. */
  predicate Hollow(m: Meaning) {
    m == Flag(false) || m == Amount(0.0) || m == Words("") || m == Unset
  }

  // ----- what the program works with -----------------------------------------------------------------

  /** An entry of a free-form map; without it there is no entry. */
  predicate IsEntry(path: Path) {
    && |path| >= 4 && path[0] == "payload"
    && (path[2] == "params" || (|path| >= 5 && path[2] == "models" && path[3] in {"match", "not-match", "headers"}))
  }

  /** The settings whose absence is not simply nothing. */
  datatype Setting = Plain | Entry | PprofAddr | PanelRepository | Strategy | ErrorLogs | UsageStatistics
    | SignatureCache | AppendEffort | EffortPercent | QueueRetention | RequestRetry | RetryInterval

  function SettingAt(path: Path): Setting {
    if IsEntry(path) then Entry else SettingNamed(Join(path))
  }

  function SettingNamed(name: string): (r: Setting)
    ensures r != Entry
    ensures r == PprofAddr ==> name == "pprof.addr"
    ensures r == PanelRepository ==> name == "remote-management.panel-github-repository"
    ensures r == Strategy ==> name == "routing.strategy"
    ensures r == ErrorLogs ==> name == "error-logs-max-files"
    ensures r == AppendEffort ==> name == "openai-compatibility." + "append-reasoning-effort-to-model"
  {
    if name == "pprof.addr" then PprofAddr
    else if name == "routing.strategy" then Strategy
    else if name == "error-logs-max-files" then ErrorLogs
    else if name == "remote-management.panel-github-repository" then PanelRepository
    else if name == "openai-compatibility." + "append-reasoning-effort-to-model" then AppendEffort
    else MoreNamed(name)
  }

  function MoreNamed(name: string): (r: Setting)
    ensures r !in {Entry, PprofAddr, PanelRepository, Strategy, ErrorLogs, AppendEffort}
  {
    if name == "usage-statistics-enabled" then UsageStatistics
    else if name == "antigravity-signature-cache-enabled" then SignatureCache
    else if name == "openai-compatibility." + "append-reasoning-effort-to-model-percent" then EffortPercent
    else if name == "redis-usage-queue-retention-seconds" then QueueRetention
    else if name == "request-retry" then RequestRetry
    else if name == "max-retry-interval" then RetryInterval
    else Plain
  }

  /** On, or not zero, unless configured. */
  predicate DefaultsToMore(at: Setting) {
    at in {UsageStatistics, SignatureCache, ErrorLogs, AppendEffort, EffortPercent}
  }

  /** What the program works with where the setting is absent; `like` is a value of its type. */
  function Absent(at: Setting, like: Meaning): Meaning {
    match at
    case Entry => NoEntry
    case PprofAddr => Words("127.0.0.1:8316")
    case PanelRepository => Words("https://github.com/zsecducna/" + "Cli-Proxy-API-Management-Center")
    case Strategy => Words("round-robin")
    case ErrorLogs => Amount(10.0)
    case UsageStatistics => Flag(true)
    case SignatureCache => Flag(true)
    case AppendEffort => Flag(true)
    case EffortPercent => Amount(100.0)
    case QueueRetention => Amount(60.0)
    case RequestRetry => Amount(3.0)
    case RetryInterval => Amount(30.0)
    case Plain =>
      match like
      case Flag(_) => Flag(false)
      case Amount(_) => Amount(0.0)
      case Words(_) => Words("")
      case _ => Unset
  }

  function AtLeast(n: real, least: real, instead: real): real {
    if n < least then instead else n
  }

  /** What the program makes of a configured value. */
  function Loaded(at: Setting, m: Meaning): Meaning {
    if at == Entry then m
    else
      match m
      case Unset => Absent(at, m)
      case Amount(n) =>
        (match at
         case QueueRetention => Amount(if n > 3600.0 then 3600.0 else AtLeast(n, 1.0, 60.0))
         case RequestRetry => Amount(AtLeast(n, 1.0, 3.0))
         case RetryInterval => Amount(AtLeast(n, 1.0, 30.0))
         case ErrorLogs => Amount(AtLeast(n, 0.0, 10.0))
         case EffortPercent => Amount(if n > 100.0 then 100.0 else AtLeast(n, 0.0, 0.0))
         case _ => m)
      case Words(text) =>
        var t := Text.TrimSpace(text);
        if at == PprofAddr || at == PanelRepository then (if t == "" then Absent(at, m) else Words(t))
        else if at == Strategy then
          Words(if Text.ToLower(t) in {"fill-first", "fillfirst", "ff"} then "fill-first" else "round-robin")
        else m
      case _ => m
  }

  // ----- what a left-out value may mean -----------------------------------------------------------------

  /** Written or not, the program works with the same. */
  ghost predicate SaysNothing(path: Path, v: Y)
    decreases v
  {
    v != Nil && SettingAt(path) != Entry && match v.kind
    case Scalar => Loaded(SettingAt(path), Says(v)) == Absent(SettingAt(path), Says(v))
    case Mapping =>
      forall i :: 0 <= i && 2 * i + 1 < |v.content| ==>
        v.content[2 * i] != Nil && SaysNothing(path + [v.content[2 * i].value], v.content[2 * i + 1])
    case Sequence => v.content == []
    case _ => false
  }

  /** There is something in it that only looks empty: a map entry, a list with elements, or a zero for a default. */
  ghost predicate LooksEmpty(path: Path, v: Y)
    decreases v
  {
    v != Nil && (SettingAt(path) == Entry || match v.kind
    case Scalar => DefaultsToMore(SettingAt(path)) && Hollow(Says(v)) && Says(v) != Unset
    case Mapping =>
      exists i :: 0 <= i && 2 * i + 1 < |v.content| && v.content[2 * i] != Nil
                  && LooksEmpty(path + [v.content[2 * i].value], v.content[2 * i + 1])
    case Sequence => v.content != []
    case _ => false)
  }

  /** A named setting is written with a value of its own type. */
  predicate RightType(at: Setting, m: Meaning) {
    match Absent(at, m)
    case Flag(_) => m.Flag? || m.Unset? || m.Other?
    case Amount(_) => m.Amount? || m.Unset? || m.Other?
    case Words(_) => m.Words? || m.Unset? || m.Other?
    case _ => true
  }

  /** The tree of a configuration as the encoder writes it; it writes nought as 0 and ten as the integer 10. */
  ghost predicate Rendered(path: Path, s: Y)
    decreases s
  {
    && WellFormed(s)
    && (s.kind == Scalar ==>
          && RightType(SettingAt(path), Says(s))
          && (Says(s) == Amount(0.0) ==> s.value == "0")
          && (Says(s) == Amount(10.0) ==> s.tag == "!!int" && s.value == "10"))
    && (s.kind == Mapping ==>
          forall i :: 0 <= i && 2 * i + 1 < |s.content| ==>
            s.content[2 * i] != Nil && Rendered(path + [s.content[2 * i].value], s.content[2 * i + 1]))
    && (s.kind == Sequence ==> forall i :: 0 <= i < |s.content| ==> Rendered(path, s.content[i]))
  }

  lemma DecimalsOfDefaults()
    ensures Decimal("0") == Some(0.0) && Decimal("0.0") == Some(0.0) && Decimal("10") == Some(10.0)
  {
    assert Whole("0") == Some(0) && Whole("10"[..1]) == Some(1);
    assert PointIn("0") == 1 && PointIn("0"[1..]) == 0;
    assert "0.0"[1..] == ".0" && PointIn(".0") == 0 && PointIn("0.0") == 1;
    assert "0.0"[..1] == "0" && "0.0"[2..] == "0" && Part("0") == Some(0.0);
    assert "10"[1..] == "0" && PointIn("10") == 2 && "10"[..2] == "10" && "10"[..1] == "1";
    assert Whole("10") == Some(10);
    assert "0"[..1] == "0";
  }

  /** A scalar counts as zero only if it is hollow. */
  lemma ZeroIsHollow(v: Y)
    requires v != Nil && v.kind == Scalar && IsZero(v)
    ensures Hollow(Says(v))
  {
    hide Decimal;
    DecimalsOfDefaults();
  }

  /** A hollow scalar says nothing, except where the setting defaults to more or is an entry. */
  lemma HollowSaysNothing(path: Path, v: Y)
    requires v != Nil && v.kind == Scalar && Hollow(Says(v)) && RightType(SettingAt(path), Says(v))
    ensures SaysNothing(path, v) <==> !LooksEmpty(path, v)
  {
    hide Says, SettingAt, Text.ToLower;
    BlankIsBlank();
  }

  lemma BlankIsBlank()
    ensures Text.TrimSpace("") == "" && Text.ToLower("") == ""
  {
  }

  /** The default of one of the four settings whose default is a text or a number but not zero, as it is written. */
  predicate QuietDefault(at: Setting, v: Y)
    requires v != Nil
  {
    match at
    case PprofAddr => v.tag == "!!str" && v.value == "127.0.0.1:8316"
    case PanelRepository =>
      v.tag == "!!str" && v.value == "https://github.com/zsecducna/" + "Cli-Proxy-API-Management-Center"
    case Strategy => v.tag == "!!str" && v.value == "round-robin"
    case ErrorLogs => v.tag == "!!int" && v.value == "10"
    case _ => false
  }

  lemma KnownDefaultExactly(path: Path, v: Y)
    requires v != Nil
    ensures IsKnownDefault(path, v) <==>
      SettingAt(path) != AppendEffort && (IsZero(v) || (v.kind == Scalar && QuietDefault(SettingAt(path), v)))
  {
    hide Join, IsZero, SettingNamed, IsEntry;
    if IsEntry(path) {
      EntryIsUnnamed(path);
    } else if path == [] {
      RootIsUnnamed();
    } else {
      NamedExactly(Join(path));
    }
  }

  lemma RootIsUnnamed()
    ensures Join([]) == "" && SettingAt([]) !in {Entry, PprofAddr, PanelRepository, Strategy, ErrorLogs, AppendEffort}
  {
    hide SettingNamed;
    assert |Join([])| == 0 && |"pprof.addr"| == 10 && |"routing.strategy"| == 16 && |"error-logs-max-files"| == 20;
    assert |"remote-management.panel-github-repository"| == 41 && |"openai-compatibility."| == 21;
  }

  /** The names of five settings name them; the converse is part of `SettingNamed`. */
  lemma NamedExactly(name: string)
    ensures name == "pprof.addr" ==> SettingNamed(name) == PprofAddr
    ensures name == "routing.strategy" ==> SettingNamed(name) == Strategy
    ensures name == "error-logs-max-files" ==> SettingNamed(name) == ErrorLogs
    ensures name == "remote-management.panel-github-repository" ==> SettingNamed(name) == PanelRepository
    ensures name == "openai-compatibility." + "append-reasoning-effort-to-model" ==> SettingNamed(name) == AppendEffort
  {
    hide SettingNamed;
    PprofIsNamed();
    StrategyIsNamed();
    ErrorLogsAreNamed();
    PanelIsNamed();
    EffortIsNamed();
  }

  lemma PprofIsNamed()
    ensures SettingNamed("pprof.addr") == PprofAddr
  {
  }

  lemma StrategyIsNamed()
    ensures SettingNamed("routing.strategy") == Strategy
  {
    assert |"routing.strategy"| == 16 && |"pprof.addr"| == 10;
  }

  lemma ErrorLogsAreNamed()
    ensures SettingNamed("error-logs-max-files") == ErrorLogs
  {
    assert |"error-logs-max-files"| == 20 && |"routing.strategy"| == 16 && |"pprof.addr"| == 10;
  }

  lemma PanelIsNamed()
    ensures SettingNamed("remote-management.panel-github-repository") == PanelRepository
  {
    assert |"remote-management.panel-github-repository"| == 41;
    assert |"error-logs-max-files"| == 20 && |"routing.strategy"| == 16 && |"pprof.addr"| == 10;
  }

  lemma EffortIsNamed()
    ensures SettingNamed("openai-compatibility." + "append-reasoning-effort-to-model") == AppendEffort
  {
    assert |"openai-compatibility."| == 21 && |"append-reasoning-effort-to-model"| == 32;
    assert |"remote-management.panel-github-repository"| == 41;
    assert |"error-logs-max-files"| == 20 && |"routing.strategy"| == 16 && |"pprof.addr"| == 10;
  }

  lemma EntryIsUnnamed(path: Path)
    requires IsEntry(path)
    ensures Join(path) != "pprof.addr" && Join(path) != "remote-management.panel-github-repository"
    ensures Join(path) != "routing.strategy" && Join(path) != "error-logs-max-files"
    ensures Join(path) != "openai-compatibility." + "append-reasoning-effort-to-model"
  {
    hide Join;
    PayloadStart(path);
    SecondLetters();
  }

  lemma SecondLetters()
    ensures "pprof.addr"[1] == 'p' && "remote-management.panel-github-repository"[1] == 'e'
    ensures "routing.strategy"[1] == 'o' && "error-logs-max-files"[1] == 'r'
    ensures "openai-compatibility."[1] == 'p'
  {
  }

  lemma PayloadStart(path: Path)
    requires IsEntry(path)
    ensures |Join(path)| >= 2 && Join(path)[0] == 'p' && Join(path)[1] == 'a'
  {
    assert Join(path) == path[0] + "." + Join(path[1..]);
  }

  lemma QuietSaysNothing(path: Path, v: Y)
    requires v != Nil && v.kind == Scalar && QuietDefault(SettingAt(path), v)
    ensures SaysNothing(path, v) && !Hollow(Says(v))
  {
    hide SettingAt, Decimal, Text.ToLower, Text.TrimSpace;
    DecimalsOfDefaults();
    DefaultTexts();
  }

  lemma DefaultTexts()
    ensures Text.TrimSpace("127.0.0.1:8316") == "127.0.0.1:8316"
    ensures var r := "https://github.com/zsecducna/" + "Cli-Proxy-API-Management-Center"; Text.TrimSpace(r) == r
    ensures Text.TrimSpace("round-robin") == "round-robin"
    ensures Text.ToLower("round-robin") !in {"fill-first", "fillfirst", "ff"}
  {
    Text.TrimmedIsFixed("127.0.0.1:8316");
    var r := "https://github.com/zsecducna/" + "Cli-Proxy-API-Management-Center";
    assert r[0] == 'h' && r[|r| - 1] == 'r';
    Text.TrimmedIsFixed(r);
    Text.TrimmedIsFixed("round-robin");
    assert Text.ToLower("round-robin")[0] == 'r';
  }

  lemma ScalarExactly(path: Path, v: Y)
    requires v != Nil && v.kind == Scalar && Rendered(path, v) && Defaulty(path, v)
    ensures SaysNothing(path, v) <==> !LooksEmpty(path, v)
  {
    hide SaysNothing, LooksEmpty, Says, IsKnownDefault, SettingAt, QuietDefault, RightType;
    KnownDefaultExactly(path, v);
    if IsZero(v) {
      ZeroIsHollow(v);
      HollowSaysNothing(path, v);
    } else {
      QuietSaysNothing(path, v);
      NotHollowIsNotEmpty(path, v);
    }
  }

  lemma NotHollowIsNotEmpty(path: Path, v: Y)
    requires v != Nil && v.kind == Scalar && !Hollow(Says(v)) && SaysNothing(path, v)
    ensures !LooksEmpty(path, v)
  {
    hide Says, Loaded, Absent;
  }

  /**
   A value not worth writing says nothing if and only if nothing in it only looks empty:
   no list with elements, no entry of a free-form map, no zero where the default is more.
   */
  lemma {:induction false} DefaultyExactly(path: Path, v: Y)
    requires Rendered(path, v) && Defaulty(path, v)
    ensures SaysNothing(path, v) <==> !LooksEmpty(path, v)
    decreases v
  {
    hide IsKnownDefault, SettingAt;
    if v.kind == Scalar {
      ScalarExactly(path, v);
    } else if v.kind == Mapping {
      forall i | 0 <= i && 2 * i + 1 < |v.content|
        ensures v.content[2 * i] != Nil
        ensures var p, w := path + [v.content[2 * i].value], v.content[2 * i + 1];
          SaysNothing(p, w) <==> !LooksEmpty(p, w)
      {
        ChildIsDefaulty(path, v, i);
        DefaultyExactly(path + [v.content[2 * i].value], v.content[2 * i + 1]);
      }
    }
  }

  lemma ChildIsDefaulty(path: Path, v: Y, i: nat)
    requires v != Nil && v.kind == Mapping && Rendered(path, v) && Defaulty(path, v) && 2 * i + 1 < |v.content|
    ensures v.content[2 * i] != Nil
    ensures var p := path + [v.content[2 * i].value];
      Defaulty(p, v.content[2 * i + 1]) && Rendered(p, v.content[2 * i + 1])
  {
    hide Join, IsKnownDefault, WellFormed;
    RenderedValue(path, v, i);
    if IsZero(v) {
      assert IsZero(v.content[2 * i + 1]);
    } else {
      MappingIsNoDefault(path, v);
    }
  }

  lemma MappingIsNoDefault(path: Path, v: Y)
    requires v != Nil && v.kind == Mapping && !IsZero(v)
    ensures !IsKnownDefault(path, v)
  {
    hide Join, IsZero;
  }

  // ----- what a merge leaves out ---------------------------------------------------------------------------

  /** As `Reflects`, but of a missing key it is said what its absence means. */
  ghost predicate Carries(d: Y, s: Y, path: Path)
    requires s != Nil
    decreases s, 1
  {
    && d != Nil
    && match s.kind
       case Scalar => d.kind == Scalar && d.tag == s.tag && d.value == s.value
       case Mapping =>
         d.kind == Mapping && |d.content| % 2 == 0
         && forall i :: 0 <= i && 2 * i + 1 < |s.content| ==> CarriesKey(d.content, s, path, i)
       case Sequence =>
         || (d.kind == Scalar && d.tag == "!!null" && s.content == [])
         || (d.kind == Sequence && |d.content| == |s.content|
             && forall i :: 0 <= i < |s.content| ==> s.content[i] != Nil && Carries(d.content[i], s.content[i], path))
       case _ => true
  }

  ghost predicate CarriesKey(c: seq<Y>, s: Y, path: Path, i: nat)
    requires s != Nil && 2 * i + 1 < |s.content|
    decreases s, 0
  {
    var k, v := s.content[2 * i], s.content[2 * i + 1];
    k != Nil && v != Nil &&
    var at, p := FindKey(c, k.value), path + [k.value];
    if at < |c| then Carries(c[at + 1], v, p) else SaysNothing(p, v) <==> !LooksEmpty(p, v)
  }

  lemma {:induction false} ReflectsCarries(d: Y, s: Y, path: Path)
    requires s != Nil && Rendered(path, s) && Reflects(d, s, path)
    ensures Carries(d, s, path)
    decreases s
  {
    hide FindKey, SaysNothing, LooksEmpty, Defaulty, WellFormed;
    if s.kind == Mapping {
      forall i | 0 <= i && 2 * i + 1 < |s.content|
        ensures CarriesKey(d.content, s, path, i)
      {
        assert ReflectsKey(d.content, s, path, i);
        var k, v := s.content[2 * i], s.content[2 * i + 1];
        ValuesAreOdd(d.content, k.value);
        if FindKey(d.content, k.value) < |d.content| {
          ReflectsCarries(d.content[FindKey(d.content, k.value) + 1], v, path + [k.value]);
        } else {
          DefaultyExactly(path + [k.value], v);
        }
      }
    } else if s.kind == Sequence && !NullFor(d, s) {
      forall i | 0 <= i < |s.content|
        ensures Carries(d.content[i], s.content[i], path)
      {
        ReflectsCarries(d.content[i], s.content[i], path);
      }
    }
  }

  /**
   After a merge, at every depth, a key of the source is found with what it says; a key
   left out works as if it were written if and only if nothing in it only looks empty.
   */
  lemma MergeCarries(d: Y, s: Y, path: Path)
    requires d != Nil && Paired(d) && Rendered(path, s)
    ensures Carries(MergeNode(d, s, path), s, path)
  {
    hide MergeNode, Reflects, Carries, Paired;
    MergeReflects(d, s, path);
    ReflectsCarries(MergeNode(d, s, path), s, path);
  }

  // ----- which new keys are written ------------------------------------------------------------------------

  /** Nothing in it but hollow scalars. */
  ghost predicate HollowTree(v: Y)
    decreases v
  {
    v != Nil && match v.kind
    case Scalar => Hollow(Says(v))
    case Sequence => forall i :: 0 <= i < |v.content| ==> HollowTree(v.content[i])
    case Mapping => forall i :: 0 <= i < |v.content| && i % 2 == 1 ==> HollowTree(v.content[i])
    case _ => false
  }

  /** The default of one of four settings, which is not hollow. */
  predicate OwnDefault(path: Path, v: Y)
    requires v != Nil
  {
    v.kind == Scalar && SettingAt(path) in {PprofAddr, PanelRepository, Strategy, ErrorLogs}
    && Says(v) == Absent(SettingAt(path), Says(v))
  }

  /** Hollow, or such a default - except for one setting, which is always written. */
  ghost predicate Spare(path: Path, v: Y)
    requires v != Nil
  {
    SettingAt(path) != AppendEffort && (HollowTree(v) || OwnDefault(path, v))
  }

  /** Dropped from a new mapping: spare, or a mapping of dropped values, or a list without elements. */
  ghost predicate Dropped(path: Path, v: Y)
    requires v != Nil
    decreases v
  {
    || Spare(path, v)
    || (v.kind == Sequence && v.content == [])
    || (v.kind == Mapping && forall i :: 0 <= i && 2 * i + 1 < |v.content| ==>
          v.content[2 * i] != Nil && v.content[2 * i + 1] != Nil
          && Dropped(path + [v.content[2 * i].value], v.content[2 * i + 1]))
  }

  /** Nothing but hollow scalars is left of it once what is dropped is gone. */
  ghost predicate Vanishes(path: Path, v: Y)
    requires v != Nil
    decreases v
  {
    match v.kind
    case Scalar => Hollow(Says(v))
    case Sequence => forall i :: 0 <= i < |v.content| ==> v.content[i] != Nil && Vanishes(path, v.content[i])
    case Mapping =>
      forall i :: 0 <= i && 2 * i + 1 < |v.content| ==>
        v.content[2 * i] != Nil && v.content[2 * i + 1] != Nil &&
        var p, w := path + [v.content[2 * i].value], v.content[2 * i + 1];
        Dropped(p, w) || Vanishes(p, w)
    case _ => false
  }

  /** A new key's value that is not written at all. */
  ghost predicate LeftOut(path: Path, v: Y)
    requires v != Nil
  {
    SettingAt(path) != AppendEffort && (Vanishes(path, v) || OwnDefault(path, v))
  }

  lemma {:induction false} ZeroExactly(path: Path, v: Y)
    requires Rendered(path, v)
    ensures v != Nil && (IsZero(v) <==> HollowTree(v))
    decreases v
  {
    hide WellFormed, Says, SettingAt;
    RenderedIsWellFormed(path, v);
    if v.kind == Scalar {
      HollowExactly(v);
    } else if v.kind == Sequence {
      forall i | 0 <= i < |v.content|
        ensures IsZero(v.content[i]) <==> HollowTree(v.content[i])
      {
        ZeroExactly(path, v.content[i]);
      }
    } else {
      forall i | 0 <= i < |v.content| && i % 2 == 1
        ensures IsZero(v.content[i]) <==> HollowTree(v.content[i])
      {
        RenderedValue(path, v, i / 2);
        ZeroExactly(path + [v.content[i - 1].value], v.content[i]);
      }
    }
  }

  lemma SpareExactly(path: Path, v: Y)
    requires Rendered(path, v)
    ensures v != Nil && (IsKnownDefault(path, v) <==> Spare(path, v))
  {
    hide Says, IsZero, HollowTree, IsKnownDefault, SettingAt, QuietDefault, Absent, RightType, WellFormed;
    RenderedIsWellFormed(path, v);
    KnownDefaultExactly(path, v);
    ZeroExactly(path, v);
    if v.kind == Scalar { QuietExactly(SettingAt(path), v); }
  }

  lemma QuietExactly(at: Setting, v: Y)
    requires v != Nil && (Says(v) == Amount(10.0) ==> v.tag == "!!int" && v.value == "10")
    ensures QuietDefault(at, v) <==>
      at in {PprofAddr, PanelRepository, Strategy, ErrorLogs} && Says(v) == Absent(at, Says(v))
  {
    hide Decimal;
    DecimalsOfDefaults();
  }

  lemma HollowExactly(v: Y)
    requires v != Nil && v.kind == Scalar && (Says(v) == Amount(0.0) ==> v.value == "0")
    ensures IsZero(v) <==> Hollow(Says(v))
  {
    hide Decimal;
    DecimalsOfDefaults();
  }

  /** A key d lacks is found once its pair is merged exactly if its pruned value is no known default. */
  lemma {:induction false} NewKeyFound(c: seq<Y>, s: Y, path: Path, i: nat, n: nat)
    requires s != Nil && WellFormed(s) && s.kind == Mapping && 2 * i + 1 < |s.content| && 2 * n <= |s.content|
    requires |c| % 2 == 0 && s.content[2 * i] != Nil && FindKey(c, s.content[2 * i].value) == |c|
    ensures var k, v, e := s.content[2 * i], s.content[2 * i + 1], MergePairs(c, s, path, n);
      && |e| % 2 == 0
      && (FindKey(e, k.value) < |e| <==> i < n && !IsKnownDefault(path + [k.value], Prune(path + [k.value], v)))
      && (FindKey(e, k.value) < |e| ==> e[FindKey(e, k.value) + 1] == Prune(path + [k.value], v))
    decreases n
  {
    hide FindKey, IsKnownDefault, Prune, MergeNode, MergePairs, WellFormed, Existing;
    if n == 0 {
      NoPairsMerged(c, s, path);
    } else {
      var before, key := MergePairs(c, s, path, n - 1), s.content[2 * i].value;
      var k, v := s.content[2 * n - 2], s.content[2 * n - 1];
      NewKeyFound(c, s, path, i, n - 1);
      MergePairsNext(c, s, path, n - 1);
      SourcePair(s, n - 1);
      if n - 1 != i { KeysDiffer(s, if i < n - 1 then i else n - 1, if i < n - 1 then n - 1 else i); }
      FindIsFirst(before, k.value);
      FindIsFirst(before, key);
      MergedPairFound(before, k, v, path, MergeNode(Existing(before, k), v, path + [k.value]), key);
    }
  }

  /** What merging one pair does to the lookup of a key. */
  lemma MergedPairFound(c: seq<Y>, k: Y, v: Y, path: Path, merged: Y, key: string)
    requires |c| % 2 == 0 && k != Nil
    ensures var e, p := MergePair(c, k, v, path, merged), path + [k.value];
      && |e| % 2 == 0
      && (k.value != key ==>
            && (FindKey(e, key) < |e| <==> FindKey(c, key) < |c|)
            && (FindKey(c, key) < |c| ==> e[FindKey(e, key) + 1] == c[FindKey(c, key) + 1]))
      && (k.value == key && FindKey(c, key) == |c| ==>
            && (FindKey(e, key) < |e| <==> !IsKnownDefault(p, Prune(p, v)))
            && (FindKey(e, key) < |e| ==> e[FindKey(e, key) + 1] == Prune(p, v)))
  {
    hide FindKey, IsKnownDefault, Prune;
    var at := FindKey(c, k.value);
    FindIsFirst(c, k.value);
    FindIsFirst(c, key);
    if at < |c| {
      FindAfterValue(c, key, at + 1, merged);
    } else {
      FindAfterPair(c, key, k, Prune(path + [k.value], v));
    }
  }

  /** The new value is the source's without what is dropped, at every depth of its mappings. */
  ghost predicate Spared(path: Path, q: Y, v: Y)
    requires v != Nil
    decreases v
  {
    q != Nil && match v.kind
    case Mapping =>
      q.kind == Mapping && |q.content| % 2 == 0
      && forall i :: 0 <= i && 2 * i + 1 < |v.content| ==>
           v.content[2 * i] != Nil && v.content[2 * i + 1] != Nil &&
           var w, p := v.content[2 * i + 1], path + [v.content[2 * i].value];
           var at := FindKey(q.content, v.content[2 * i].value);
           && (at < |q.content| <==> !Dropped(p, w))
           && (at < |q.content| ==> Spared(p, q.content[at + 1], w))
    case Sequence =>
      q.kind == Sequence && |q.content| == |v.content|
      && forall i :: 0 <= i < |v.content| ==> v.content[i] != Nil && Spared(path, q.content[i], v.content[i])
    case _ => q == v
  }

  lemma {:induction false} PrunedIsSpared(path: Path, v: Y)
    requires Rendered(path, v)
    ensures Spared(path, Prune(path, v), v)
    decreases v
  {
    hide FindKey, IsKnownDefault, Dropped, WellFormed, PrunePairs, KeepsPair;
    RenderedIsWellFormed(path, v);
    if v.kind == Mapping {
      PruneOfMapping(path, v);
      var q := Prune(path, v);
      PrunePairsPaired(path, v, 0);
      forall i | 0 <= i && 2 * i + 1 < |v.content|
        ensures v.content[2 * i] != Nil && v.content[2 * i + 1] != Nil
        ensures var w, p := v.content[2 * i + 1], path + [v.content[2 * i].value];
          var at := FindKey(q.content, v.content[2 * i].value);
          && (at < |q.content| <==> !Dropped(p, w))
          && (at < |q.content| ==> at + 1 < |q.content| && Spared(p, q.content[at + 1], w))
      {
        SourcePair(v, i);
        PrunedIsSpared(path + [v.content[2 * i].value], v.content[2 * i + 1]);
        FindInPruned(path, v, 0, i);
        ValuesAreOdd(q.content, v.content[2 * i].value);
        KeptExactly(path, v, i);
      }
    } else if v.kind == Sequence {
      forall i | 0 <= i < |v.content|
        ensures v.content[i] != Nil && Spared(path, Prune(path, v).content[i], v.content[i])
      {
        RenderedIsWellFormed(path, v.content[i]);
        PrunedIsSpared(path, v.content[i]);
      }
    }
  }

  lemma RenderedIsWellFormed(path: Path, v: Y)
    requires Rendered(path, v)
    ensures WellFormed(v) && v != Nil && (v.kind == Scalar || v.kind == Mapping || v.kind == Sequence)
  {
  }

  /** Pruning keeps a pair exactly if its value is not dropped. */
  lemma {:induction false} KeptExactly(path: Path, v: Y, i: nat)
    requires v != Nil && v.kind == Mapping && Rendered(path, v) && 2 * i + 1 < |v.content|
    ensures v.content[2 * i] != Nil && v.content[2 * i + 1] != Nil
    ensures KeepsPair(path, v, i) <==> !Dropped(path + [v.content[2 * i].value], v.content[2 * i + 1])
    decreases v, 0
  {
    hide IsKnownDefault, Spare, SettingAt, WellFormed;
    RenderedValue(path, v, i);
    var p, w := path + [v.content[2 * i].value], v.content[2 * i + 1];
    RenderedIsWellFormed(p, w);
    SpareExactly(p, w);
    EmptiedExactly(p, w);
  }

  lemma {:induction false} EmptiedExactly(path: Path, v: Y)
    requires Rendered(path, v)
    ensures v != Nil && (Emptied(Prune(path, v)) <==>
                         || (v.kind == Sequence && v.content == [])
                         || (v.kind == Mapping && forall i :: 0 <= i && 2 * i + 1 < |v.content| ==>
                               v.content[2 * i] != Nil && v.content[2 * i + 1] != Nil
                               && Dropped(path + [v.content[2 * i].value], v.content[2 * i + 1])))
    decreases v, 1
  {
    hide PrunePairs, KeepsPair, Dropped, WellFormed;
    RenderedIsWellFormed(path, v);
    if v.kind == Mapping {
      NothingKept(path, v, 0);
      forall i | 0 <= i && 2 * i + 1 < |v.content|
        ensures v.content[2 * i] != Nil && v.content[2 * i + 1] != Nil
        ensures KeepsPair(path, v, i) <==> !Dropped(path + [v.content[2 * i].value], v.content[2 * i + 1])
      {
        KeptExactly(path, v, i);
      }
    }
  }

  lemma {:induction false} NothingKept(path: Path, n: Y, j: nat)
    requires n != Nil && n.kind == Mapping && 2 * j <= |n.content|
    ensures PrunePairs(path, n, 2 * j) == [] <==>
      forall i :: j <= i && 2 * i + 1 < |n.content| ==> !KeepsPair(path, n, i)
    decreases |n.content| - 2 * j
  {
    hide KeepsPair, PrunePairs, Prune;
    if 2 * j + 1 < |n.content| {
      PrunePairsStep(path, n, j);
      NothingKept(path, n, j + 1);
    } else {
      NothingPruned(path, n, j);
    }
  }

  /** Every value left by pruning is a kept one, pruned. */
  lemma {:induction false} PrunedIsKept(path: Path, n: Y, j: nat, at: nat) returns (i: nat)
    requires n != Nil && n.kind == Mapping && 2 * j <= |n.content|
    requires at < |PrunePairs(path, n, 2 * j)| && at % 2 == 1
    ensures j <= i && 2 * i + 1 < |n.content| && KeepsPair(path, n, i) && n.content[2 * i] != Nil
    ensures PrunePairs(path, n, 2 * j)[at] == Prune(path + [n.content[2 * i].value], n.content[2 * i + 1])
    decreases |n.content| - 2 * j
  {
    hide PrunePairs, Prune, IsKnownDefault;
    if 2 * j + 1 >= |n.content| { NothingPruned(path, n, j); }
    PrunePairsStep(path, n, j);
    if !KeepsPair(path, n, j) {
      i := PrunedIsKept(path, n, j + 1, at);
    } else if at == 1 {
      i := j;
    } else {
      i := PrunedIsKept(path, n, j + 1, at - 2);
    }
  }

  lemma MappingVanishes(path: Path, v: Y)
    requires v != Nil && WellFormed(v) && v.kind == Mapping
    ensures IsZero(Prune(path, v)) <==>
      forall i :: 0 <= i && 2 * i + 1 < |v.content| && KeepsPair(path, v, i) ==>
        IsZero(Prune(path + [v.content[2 * i].value], v.content[2 * i + 1]))
  {
    hide KeepsPair, PrunePairs, WellFormed, Prune;
    PruneOfMapping(path, v);
    var c := PrunePairs(path, v, 0);
    if IsZero(Prune(path, v)) {
      forall i | 0 <= i && 2 * i + 1 < |v.content| && KeepsPair(path, v, i)
        ensures v.content[2 * i] != Nil
        ensures IsZero(Prune(path + [v.content[2 * i].value], v.content[2 * i + 1]))
      {
        NonNilKey(v, i);
        KeptPairIsZero(path, v, i);
      }
    } else {
      var at :| 0 <= at < |c| && at % 2 == 1 && !IsZero(c[at]);
      var i := PrunedIsKept(path, v, 0, at);
    }
  }

  lemma {:induction false} VanishesExactly(path: Path, v: Y)
    requires Rendered(path, v)
    ensures v != Nil && (IsZero(Prune(path, v)) <==> Vanishes(path, v))
    decreases v
  {
    hide KeepsPair, Dropped, WellFormed, PrunePairs, Says, SettingAt, IsZero;
    RenderedIsWellFormed(path, v);
    if v.kind == Mapping {
      MappingVanishes(path, v);
      forall i | 0 <= i && 2 * i + 1 < |v.content|
        ensures v.content[2 * i] != Nil && v.content[2 * i + 1] != Nil
        ensures var p, w := path + [v.content[2 * i].value], v.content[2 * i + 1];
          && (KeepsPair(path, v, i) <==> !Dropped(p, w))
          && (IsZero(Prune(p, w)) <==> Vanishes(p, w))
      {
        RenderedValue(path, v, i);
        KeptExactly(path, v, i);
        VanishesExactly(path + [v.content[2 * i].value], v.content[2 * i + 1]);
      }
    } else if v.kind == Sequence {
      forall i | 0 <= i < |v.content|
        ensures v.content[i] != Nil && (IsZero(Prune(path, v.content[i])) <==> Vanishes(path, v.content[i]))
      {
        VanishesExactly(path, v.content[i]);
      }
      ListIsZero(path, v);
    } else {
      ScalarIsItself(path, v);
      HollowExactly(v);
    }
  }

  lemma ListIsZero(path: Path, v: Y)
    requires v != Nil && v.kind == Sequence
    ensures IsZero(Prune(path, v)) <==> forall i :: 0 <= i < |v.content| ==> IsZero(Prune(path, v.content[i]))
  {
    assert forall i :: 0 <= i < |v.content| ==> Prune(path, v).content[i] == Prune(path, v.content[i]);
  }

  lemma LeftOutExactly(path: Path, v: Y)
    requires Rendered(path, v)
    ensures v != Nil && (IsKnownDefault(path, Prune(path, v)) <==> LeftOut(path, v))
  {
    hide IsKnownDefault, Says, Vanishes, IsZero, SettingAt, QuietDefault, Absent, RightType, WellFormed;
    RenderedIsWellFormed(path, v);
    KnownDefaultExactly(path, Prune(path, v));
    VanishesExactly(path, v);
    if v.kind == Scalar {
      ScalarIsItself(path, v);
      QuietExactly(SettingAt(path), v);
    }
  }

  /**
   A key the destination lacks is written exactly if its value is not to be left out, and
   the value written is the source's without what is dropped.
   */
  lemma NewKeyExactly(d: Y, s: Y, path: Path, i: nat)
    requires d != Nil && d.kind == Mapping && Paired(d) && Rendered(path, s) && s.kind == Mapping
    requires 2 * i + 1 < |s.content| && s.content[2 * i] != Nil && s.content[2 * i + 1] != Nil
    requires FindKey(d.content, s.content[2 * i].value) == |d.content|
    ensures var c, k, v := MergeNode(d, s, path).content, s.content[2 * i], s.content[2 * i + 1];
      var at, p := FindKey(c, k.value), path + [k.value];
      && (at < |c| <==> !LeftOut(p, v))
      && (at < |c| ==> Spared(p, c[at + 1], v))
  {
    hide *;
    RenderedIsWellFormed(path, s);
    MergedContent(d, s, path);
    RenderedValue(path, s, i);
    var k, v := s.content[2 * i], s.content[2 * i + 1];
    EvenContent(d);
    EvenContent(s) by { WellFormedIsPaired(s); }
    NewKeyFound(d.content, s, path, i, |s.content| / 2);
    PrunedIsSpared(path + [k.value], v);
    LeftOutExactly(path + [k.value], v);
  }

  lemma EvenContent(d: Y)
    requires d != Nil && d.kind == Mapping && Paired(d)
    ensures |d.content| % 2 == 0
  {
  }

  lemma MergedContent(d: Y, s: Y, path: Path)
    requires d != Nil && d.kind == Mapping && s != Nil && s.kind == Mapping
    ensures MergeNode(d, s, path) == d.(content := MergePairs(d.content, s, path, |s.content| / 2))
  {
    hide MergePairs;
  }

  lemma RenderedValue(path: Path, s: Y, i: nat)
    requires s != Nil && s.kind == Mapping && Rendered(path, s) && 2 * i + 1 < |s.content|
    ensures s.content[2 * i] != Nil && Rendered(path + [s.content[2 * i].value], s.content[2 * i + 1])
  {
  }

  lemma ScalarIsItself(path: Path, v: Y)
    requires v != Nil && v.kind == Scalar
    ensures Prune(path, v) == v
  {
  }

  // ----- a switch that cannot be turned off --------------------------------------------------------------------

  function Line(key: string, tag: string, value: string): Y {
    Node(Mapping, "!!map", "", "", [Node(Scalar, "!!str", key, "", []), Node(Scalar, tag, value, "", [])])
  }

  /**
   Usage statistics are on unless configured: written into a file that does not mention
   them, "off" is left out and they stay on, while a debug switch turned on is written.
   */
  lemma SwitchedOffIsLost(d: Y)
    requires d != Nil && d.kind == Mapping && d.content == []
    ensures var off := Line("usage-statistics-enabled", "!!bool", "false");
      && Rendered([], off) && MergeNode(d, off, []) == d
      && !SaysNothing(["usage-statistics-enabled"], off.content[1])
    ensures var on := Line("debug", "!!bool", "true"); MergeNode(d, on, []).content == on.content
  {
    hide MergeNode, Rendered, SaysNothing;
    StatisticsDefaultToOn();
    LineIsRendered("usage-statistics-enabled", "false");
    LineMerges(d, "usage-statistics-enabled", "false");
    LineMerges(d, "debug", "true");
  }

  lemma StatisticsDefaultToOn()
    ensures RightType(SettingAt(["usage-statistics-enabled"]), Flag(false))
    ensures Text.TrimSpace("usage-statistics-enabled") != ""
    ensures !SaysNothing(["usage-statistics-enabled"], Line("usage-statistics-enabled", "!!bool", "false").content[1])
  {
    Text.TrimmedIsFixed("usage-statistics-enabled");
    OneKey("usage-statistics-enabled");
  }

  lemma OneKey(key: string)
    ensures [] + [key] == [key] && Join([key]) == key
  {
  }

  lemma LineIsRendered(key: string, value: string)
    requires Text.TrimSpace(key) != "" && (value == "true" || value == "false")
    requires RightType(SettingAt([key]), Flag(value == "true"))
    ensures Rendered([], Line(key, "!!bool", value))
  {
    hide Text.TrimSpace, RightType, Decimal, SettingAt, Join;
    OneKey(key);
    var line := Line(key, "!!bool", value);
    assert line.content[0].value == key && line.content[1].kind == Scalar;
    assert Rendered([key], line.content[1]);
  }

  lemma LineMerges(d: Y, key: string, value: string)
    requires d != Nil && d.kind == Mapping && d.content == []
    requires value == "true" || value == "false"
    requires key != "openai-compatibility." + "append-reasoning-effort-to-model"
    ensures var line := Line(key, "!!bool", value);
      MergeNode(d, line, []) == if value == "true" then d.(content := line.content) else d
  {
    hide Join, IsKnownDefault, MergePairs, MergeNode;
    OneKey(key);
    var line := Line(key, "!!bool", value);
    var v := line.content[1];
    MergedContent(d, line, []);
    NoPairsMerged(d.content, line, []);
    MergePairsNext(d.content, line, [], 0);
    FlagIsDefault([key], v);
    ScalarIsItself([key], v);
    assert [] + line.content == line.content;
  }

  lemma FlagIsDefault(path: Path, v: Y)
    requires v != Nil && v.kind == Scalar && v.tag == "!!bool" && |path| == 1
    requires path[0] != "openai-compatibility." + "append-reasoning-effort-to-model"
    ensures IsKnownDefault(path, v) <==> v.value == "false"
  {
    hide SettingAt;
    assert Join(path) == path[0];
  }
}
