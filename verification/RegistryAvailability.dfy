/**
 Who appears in the list of available models, told by the clients that list a model, the
 times of their cooldowns and the reasons of their suspensions.
 */
module RegistryAvailability {
  import opened Prelude
  import opened RegistrySpec
  import opened RegistryRecount
  import opened RegistryCounts
  import Text

  /** When the client's cooldown on the model was set, if one is set. */
  function CooldownOf(s: State, m: ModelID, c: ClientID): Option<int> {
    if m in s.models && c in s.models[m].quota then Some(s.models[m].quota[c]) else None
  }

  /** Why the client is suspended from the model, if it is. */
  function SuspensionOf(s: State, m: ModelID, c: ClientID): Option<string> {
    if m in s.models && c in s.models[m].suspended then Some(s.models[m].suspended[c]) else None
  }

  /** A cooldown set less than five minutes ago. */
  predicate Cools(s: State, m: ModelID, c: ClientID, now: int) {
    CooldownOf(s, m, c).Some? && now - CooldownOf(s, m, c).value < 5 * 60
  }

  /** The word "quota", in letters of either case. */
  predicate SaysQuota(reason: string) {
    && |reason| == 5
    && (reason[0] == 'q' || reason[0] == 'Q') && (reason[1] == 'u' || reason[1] == 'U')
    && (reason[2] == 'o' || reason[2] == 'O') && (reason[3] == 't' || reason[3] == 'T')
    && (reason[4] == 'a' || reason[4] == 'A')
  }

  /** Suspended for its quota. */
  predicate Waits(s: State, m: ModelID, c: ClientID) {
    SuspensionOf(s, m, c).Some? && SaysQuota(SuspensionOf(s, m, c).value)
  }

  /** Suspended for any other reason. */
  predicate Blocked(s: State, m: ModelID, c: ClientID) {
    SuspensionOf(s, m, c).Some? && !SaysQuota(SuspensionOf(s, m, c).value)
  }

  ghost predicate Lists(s: State, c: ClientID, m: ModelID) {
    c in s.clientModels && m in s.clientModels[c]
  }

  /** Lists the model and can serve it now. */
  ghost predicate CanServe(s: State, m: ModelID, c: ClientID, now: int) {
    Lists(s, c, m) && !Cools(s, m, c, now) && !Blocked(s, m, c)
  }

  /** Everybody the tables mention for the model. */
  ghost function Mentioned(s: State, m: ModelID): set<ClientID> {
    s.clientModels.Keys + if m in s.models then s.models[m].quota.Keys + s.models[m].suspended.Keys else {}
  }

  ghost function Servers(s: State, m: ModelID, now: int): set<ClientID> {
    set c | c in Mentioned(s, m) && CanServe(s, m, c, now)
  }

  /** Cooling down and blocked at once. */
  ghost function Twice(s: State, m: ModelID, now: int): set<ClientID> {
    set c | c in Mentioned(s, m) && Cools(s, m, c, now) && Blocked(s, m, c)
  }

  /** Cooling down or blocked on a model they do not list. */
  ghost function Strangers(s: State, m: ModelID, now: int): set<ClientID> {
    set c | c in Mentioned(s, m) && !Lists(s, c, m) && (Cools(s, m, c, now) || Blocked(s, m, c))
  }

  /** Nobody can serve the model now, but somebody lists it and nothing but quota stands in the way. */
  ghost predicate OnlyWaiting(s: State, m: ModelID, now: int) {
    && (exists c :: Lists(s, c, m))
    && (exists c :: Cools(s, m, c, now) || Waits(s, m, c))
    && (forall c :: !Blocked(s, m, c))
  }

  /** A row of the list shows the model. */
  predicate Shows(list: seq<Row>, m: ModelID) {
    exists i :: 0 <= i < |list| && list[i].info.id == m
  }

  // ----- the rule inside --------------------------------------------------------------------------

  lemma QuotaFolds(reason: string)
    ensures Text.EqualFold(reason, "quota") <==> SaysQuota(reason)
  {
    var low := Text.ToLower(reason);
    assert Text.ToLower("quota") == "quota";
    if low == "quota" {
      assert |reason| == 5 && low[0] == 'q' && low[1] == 'u' && low[2] == 'o' && low[3] == 't' && low[4] == 'a';
    }
    if SaysQuota(reason) { assert low == "quota"; }
  }

  /** The three sets the rule counts, by their members. */
  lemma MarkSets(s: State, m: ModelID, now: int)
    requires m in s.models
    ensures var g := s.models[m];
      && (forall c :: c in Active(g, now) <==> Cools(s, m, c, now))
      && (forall c :: c in Cooling(g) <==> Waits(s, m, c))
      && (forall c :: c in Barred(g) <==> Blocked(s, m, c))
  {
    hide Text.EqualFold, SaysQuota;
    forall c | c in s.models[m].suspended
      ensures Text.EqualFold(s.models[m].suspended[c], "quota") <==> SaysQuota(s.models[m].suspended[c])
    {
      QuotaFolds(s.models[m].suspended[c]);
    }
  }

  lemma Mentions(s: State, m: ModelID, c: ClientID, now: int)
    ensures Cools(s, m, c, now) || Blocked(s, m, c) || Waits(s, m, c) || Lists(s, c, m) ==> c in Mentioned(s, m)
    ensures c in Listers(s, m) <==> Lists(s, c, m)
  {
  }

  /** The counting rule in terms of these sets, for a model somebody may list. */
  lemma ByMembers(s: State, m: ModelID, now: int)
    requires m in s.models
    ensures var a, b, l := Active(s.models[m], now), Barred(s.models[m]), Listers(s, m);
      && Servers(s, m, now) == l - a - b && Twice(s, m, now) == a * b && Strangers(s, m, now) == (a + b) - l
  {
    hide Active, Barred, Listers, Cools, Blocked, Waits, Lists, Mentioned;
    MarkSets(s, m, now);
    var a, b, l := Active(s.models[m], now), Barred(s.models[m]), Listers(s, m);
    forall c
      ensures c in Servers(s, m, now) <==> c in l - a - b
      ensures c in Twice(s, m, now) <==> c in a * b
      ensures c in Strangers(s, m, now) <==> c in (a + b) - l
    {
      Mentions(s, m, c, now);
    }
  }

  lemma WaitingByMembers(s: State, m: ModelID, now: int)
    requires m in s.models
    ensures var g := s.models[m];
      OnlyWaiting(s, m, now) <==>
        Listers(s, m) != {} && (Active(g, now) != {} || Cooling(g) != {}) && Barred(g) == {}
  {
    hide Active, Barred, Cooling, Listers, Cools, Blocked, Waits, Lists;
    MarkSets(s, m, now);
    forall c
      ensures c in Listers(s, m) <==> Lists(s, c, m)
    {
      Mentions(s, m, c, now);
    }
  }

  lemma UnknownModel(s: State, m: ModelID, now: int)
    requires m !in s.models && Listers(s, m) == {}
    ensures Servers(s, m, now) == Twice(s, m, now) == Strangers(s, m, now) == {} && !OnlyWaiting(s, m, now)
  {
    forall c
      ensures !Lists(s, c, m) && !Cools(s, m, c, now) && !Blocked(s, m, c) && !Waits(s, m, c)
    {
      Mentions(s, m, c, now);
    }
  }

  /** What the availability rule comes to, for any registry that agrees with its recount. */
  lemma ListedExactly(s: State, m: ModelID, now: int)
    requires Recounted(s)
    ensures m in s.models && Listed(s.models[m], now) <==>
      || |Servers(s, m, now)| + Repeats(s, m) > |Twice(s, m, now)| + |Strangers(s, m, now)|
      || OnlyWaiting(s, m, now)
  {
    hide Recounted, Total, Active, Cooling, Barred, Listers, Servers, Twice, Strangers, OnlyWaiting;
    RecountedTables(s, m);
    RepeatsAreNotNegative(s, m);
    if m in s.models {
      ByMembers(s, m, now);
      WaitingByMembers(s, m, now);
      Sizes(Active(s.models[m], now), Barred(s.models[m]), Listers(s, m));
      if Listers(s, m) == {} { NoListersNoTotal(s, m); }
    } else {
      NobodyLists(s, m);
      UnknownModel(s, m, now);
    }
  }

  lemma NoListersNoTotal(s: State, m: ModelID)
    requires Listers(s, m) == {}
    ensures Total(s, m) == 0
  {
    var w := Bindings(s, m);
    forall c | c in w
      ensures w[c] == 0
    {
      assert c !in Listers(s, m);
    }
    PositiveSum(w);
  }

  lemma {:induction false} PositiveSum(w: map<ClientID, nat>)
    requires forall c :: c in w ==> w[c] == 0
    ensures Sum(w) == 0
    decreases |w|
  {
    if w != map[] {
      var c :| c in w;
      SumPick(w, c);
      PositiveSum(w - {c});
    }
  }

  // ----- the list ---------------------------------------------------------------------------------------

  lemma ShowsExactly(list: seq<Row>, s: State, handler: string, now: int, m: ModelID)
    requires Recounted(s) && IsListAt(list, s.models, handler, now)
    ensures Shows(list, m) <==> m in s.models && Listed(s.models[m], now)
  {
    hide Listed, Recounted;
    if Shows(list, m) {
      var i :| 0 <= i < |list| && list[i].info.id == m;
      assert list[i] in multiset(list);
      assert Rows(s.models, handler, now, list[i]) > 0;
      var k :| k in RowKeys(s.models, handler, now, list[i]);
      RecountedTables(s, k);
    }
    if m in s.models && Listed(s.models[m], now) {
      var row := Row(handler, s.models[m].info);
      RecountedTables(s, m);
      assert m in RowKeys(s.models, handler, now, row);
      assert multiset(list)[row] > 0;
      assert row in list;
      var i :| 0 <= i < |list| && list[i] == row;
    }
  }

  /**
   After any run, a list built at `now` shows a model exactly if its servers and repeated
   listings outnumber the clients marked both ways and the marked strangers, or if nobody
   is blocked and those who list it are only waiting for their quota.
   */
  lemma ShownExactly(ops: seq<Op>, list: seq<Row>, handler: string, now: int, m: ModelID)
    requires IsListAt(list, Run(EMPTY, ops).models, handler, now)
    ensures var s := Run(EMPTY, ops);
      Shows(list, m) <==>
        || |Servers(s, m, now)| + Repeats(s, m) > |Twice(s, m, now)| + |Strangers(s, m, now)|
        || OnlyWaiting(s, m, now)
  {
    hide Run, Recounted, IsListAt, Listed, Servers, Repeats, Twice, Strangers, OnlyWaiting;
    var s := Run(EMPTY, ops);
    EveryRunIsRecounted(ops);
    ShowsExactly(list, s, handler, now, m);
    ListedExactly(s, m, now);
  }

  /** No client lists the model more than once, is marked both ways, or is marked without listing it. */
  ghost predicate PlainlyMarked(s: State, m: ModelID, now: int) {
    && (forall c :: c in s.clientModels ==> Cnt(s.clientModels[c], m) <= 1)
    && (forall c :: !(Cools(s, m, c, now) && Blocked(s, m, c)))
    && (forall c :: Cools(s, m, c, now) || Blocked(s, m, c) ==> Lists(s, c, m))
  }

  /**
   Without such marks and repeats a model is shown exactly if some client can serve it now,
   or somebody lists it and only quota stands in the way.
   */
  lemma ShownWhenServed(ops: seq<Op>, list: seq<Row>, handler: string, now: int, m: ModelID)
    requires IsListAt(list, Run(EMPTY, ops).models, handler, now)
    requires PlainlyMarked(Run(EMPTY, ops), m, now)
    ensures var s := Run(EMPTY, ops);
      Shows(list, m) <==> (exists c :: CanServe(s, m, c, now)) || OnlyWaiting(s, m, now)
  {
    hide Run, IsListAt, OnlyWaiting, Cools, Blocked;
    var s := Run(EMPTY, ops);
    ShownExactly(ops, list, handler, now, m);
    OnceEach(s, m);
    assert Twice(s, m, now) == {} && Strangers(s, m, now) == {};
    forall c
      ensures c in Servers(s, m, now) <==> CanServe(s, m, c, now)
    {
      Mentions(s, m, c, now);
    }
    if Servers(s, m, now) != {} {
      var c :| c in Servers(s, m, now);
      assert |Servers(s, m, now)| > 0;
    }
  }

  lemma OnceEach(s: State, m: ModelID)
    requires forall c :: c in s.clientModels ==> Cnt(s.clientModels[c], m) <= 1
    ensures Repeats(s, m) == 0
  {
    var w := Bindings(s, m);
    SumOfOnes(w);
    assert Listers(s, m) == set c | c in w && w[c] > 0;
  }

  lemma {:induction false} SumOfOnes(w: map<ClientID, nat>)
    requires forall c :: c in w ==> w[c] <= 1
    ensures Sum(w) == |set c | c in w && w[c] > 0|
    decreases |w|
  {
    var all := set c | c in w && w[c] > 0;
    if w != map[] {
      var c :| c in w;
      SumPick(w, c);
      SumOfOnes(w - {c});
      var rest := set d | d in w - {c} && (w - {c})[d] > 0;
      assert all == if w[c] > 0 then rest + {c} else rest;
    } else {
      assert all == {};
    }
  }

  /** A list shows every model once, under its handler, and nothing but registered definitions. */
  lemma RowsAreModels(ops: seq<Op>, list: seq<Row>, handler: string, now: int)
    requires IsListAt(list, Run(EMPTY, ops).models, handler, now)
    ensures var s := Run(EMPTY, ops);
      && (forall i :: 0 <= i < |list| ==>
            list[i].handler == handler && list[i].info.id in s.models
            && s.models[list[i].info.id].info == list[i].info)
      && (forall i, j :: 0 <= i < j < |list| ==> list[i].info.id != list[j].info.id)
  {
    hide Run, Listed, Recounted;
    var s := Run(EMPTY, ops);
    EveryRunIsRecounted(ops);
    forall i | 0 <= i < |list|
      ensures list[i].handler == handler && list[i].info.id in s.models
      ensures s.models[list[i].info.id].info == list[i].info
      ensures multiset(list)[list[i]] == 1
    {
      RowIsModel(s, list, handler, now, i);
    }
    forall i, j | 0 <= i < j < |list|
      ensures list[i].info.id != list[j].info.id
    {
      if list[i] == list[j] { TwoAlike(list, i, j); }
    }
  }

  lemma RowIsModel(s: State, list: seq<Row>, handler: string, now: int, i: nat)
    requires Recounted(s) && IsListAt(list, s.models, handler, now) && i < |list|
    ensures list[i].handler == handler && list[i].info.id in s.models
    ensures s.models[list[i].info.id].info == list[i].info && multiset(list)[list[i]] == 1
  {
    hide Listed, Recounted;
    var keys := RowKeys(s.models, handler, now, list[i]);
    assert list[i] in multiset(list) && |keys| > 0;
    var k :| k in keys;
    RecountedTables(s, k);
    forall e | e in keys
      ensures e == k
    {
      RecountedTables(s, e);
    }
    assert keys == {k};
  }

  lemma TwoAlike(list: seq<Row>, i: nat, j: nat)
    requires i < j < |list| && list[i] == list[j]
    ensures multiset(list)[list[i]] >= 2
  {
    assert list == list[..i] + [list[i]] + list[i + 1..j] + [list[j]] + list[j + 1..];
  }

  // ----- a single client in cooldown ----------------------------------------------------------------------

  /** One client registers a model and gets a 429: the model stays in the list, though nobody can serve it. */
  lemma StillShownInCooldown(provider: string, info: ModelInfo, now: int, list: seq<Row>, handler: string)
    requires info.id != ""
    requires var ops := [OpRegister("a", provider, [Some(info)], now), OpSetQuota("a", info.id, now)];
      IsListAt(list, Run(EMPTY, ops).models, handler, now)
    ensures var ops := [OpRegister("a", provider, [Some(info)], now), OpSetQuota("a", info.id, now)];
      Shows(list, info.id) && forall c :: !CanServe(Run(EMPTY, ops), info.id, c, now)
  {
    hide Run, Apply, IsListAt;
    var register, cool := OpRegister("a", provider, [Some(info)], now), OpSetQuota("a", info.id, now);
    var ops, m := [register, cool], info.id;
    ShownExactly(ops, list, handler, now, m);
    RunTwo(register, cool);
    OneCooling(provider, info, now);
    var s := Run(EMPTY, ops);
    assert Lists(s, "a", m) && Cools(s, m, "a", now);
  }

  lemma RunTwo(a: Op, b: Op)
    ensures Run(EMPTY, [a, b]) == Apply(Apply(EMPTY, a), b)
  {
    hide Apply;
    assert [a, b][..1] == [a] && [a][..0] == [];
    assert Run(EMPTY, [a]) == Apply(EMPTY, a);
  }

  lemma OneCooling(provider: string, info: ModelInfo, now: int)
    requires info.id != ""
    ensures var m := info.id;
      var s := Apply(Apply(EMPTY, OpRegister("a", provider, [Some(info)], now)), OpSetQuota("a", m, now));
      && s.clientModels == map["a" := [m]]
      && m in s.models && s.models[m].quota == map["a" := now] && s.models[m].suspended == map[]
  {
    hide AddTimes, FirstInfos;
    var m, p, infos := info.id, Text.ToLower(provider), FirstInfos([Some(info)]);
    OneId(info);
    FreshAt(EMPTY, "a", p, [m], infos, now, m);
    OneBinding(None, p, infos[m], now);
  }
}
