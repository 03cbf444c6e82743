/**
 The model registry as a value: what one registration holds, what each registry
 operation does to it, and the recount every reachable registry agrees with.
 */
module RegistrySpec {
  import opened Prelude
  import Text

  type ModelID = string
  type ClientID = string

  /** The fields of a model definition that the registry carries around unchanged. */
  datatype ModelInfo = ModelInfo(id: ModelID, ownedBy: string, displayName: string, created: int)

  /** One registration: `count` bindings of clients to the model, split by provider. */
  datatype Reg = Reg(
    info: ModelInfo,
    infoByProvider: map<string, ModelInfo>,
    count: int,
    lastUpdated: int,
    quota: map<ClientID, int>,
    providers: map<string, int>,
    suspended: map<ClientID, string>)

  /** The four cross-linked tables. */
  datatype State = State(
    models: map<ModelID, Reg>,
    clientModels: map<ClientID, seq<ModelID>>,
    clientInfos: map<ClientID, map<ModelID, ModelInfo>>,
    clientProviders: map<ClientID, string>)

  const EMPTY := State(map[], map[], map[], map[])

  function Look<K, V>(m: map<K, V>, k: K): Option<V> {
    if k in m then Some(m[k]) else None
  }

  function Cnt(ids: seq<ModelID>, m: ModelID): nat {
    multiset(ids)[m]
  }

  // ----- reading the argument of RegisterClient ---------------------------------

  /** The non-blank ids supplied, in order, duplicates kept. */
  function RawIds(models: seq<Option<ModelInfo>>): seq<ModelID> {
    if models == [] then []
    else
      var last := models[|models| - 1];
      RawIds(models[..|models| - 1]) + (if last.Some? && last.value.id != "" then [last.value.id] else [])
  }

  /** The first definition supplied for each id. */
  function FirstInfos(models: seq<Option<ModelInfo>>): (r: map<ModelID, ModelInfo>)
    ensures forall m :: m in r <==> m in RawIds(models)
    ensures forall m :: m in r ==> m != "" && r[m].id == m
  {
    if models == [] then map[]
    else
      var last := models[|models| - 1];
      var rest := FirstInfos(models[..|models| - 1]);
      if last.Some? && last.value.id != "" && last.value.id !in rest
      then rest[last.value.id := last.value]
      else rest
  }

  // ----- one binding added, removed, moved, refreshed -----------------------------

  function AddOne(r: Option<Reg>, provider: string, info: ModelInfo, now: int): Option<Reg> {
    match r
    case Some(g) =>
      Some(g.(count := g.count + 1, lastUpdated := now, info := info,
              providers := if provider == "" then g.providers
                           else g.providers[provider := ProviderCount(g, provider) + 1],
              infoByProvider := if provider == "" then g.infoByProvider
                                else g.infoByProvider[provider := info]))
    case None =>
      Some(Reg(info,
               if provider == "" then map[] else map[provider := info],
               1, now, map[],
               if provider == "" then map[] else map[provider := 1],
               map[]))
  }

  function ProviderCount(g: Reg, provider: string): int {
    if provider in g.providers then g.providers[provider] else 0
  }

  /** Takes up to `k` bindings away from a provider; a provider left with none disappears. */
  function Withdraw(g: Reg, provider: string, k: int): Reg {
    if provider !in g.providers then g
    else if g.providers[provider] <= k then
      g.(providers := g.providers - {provider}, infoByProvider := g.infoByProvider - {provider})
    else
      g.(providers := g.providers[provider := g.providers[provider] - k])
  }

  function WithdrawAt(r: Option<Reg>, provider: string, k: int): Option<Reg> {
    if r.Some? then Some(Withdraw(r.value, provider, k)) else None
  }

  /** One binding of a client released. */
  function Released(g: Reg, client: ClientID, provider: string, now: int): Reg {
    var h := g.(count := Max(g.count - 1, 0), lastUpdated := now,
                quota := g.quota - {client}, suspended := g.suspended - {client});
    if provider == "" then h else Withdraw(h, provider, 1)
  }

  function RemoveOne(r: Option<Reg>, client: ClientID, provider: string, now: int): Option<Reg> {
    if r.None? || Released(r.value, client, provider, now).count <= 0 then None
    else Some(Released(r.value, client, provider, now))
  }

  function AddTimes(r: Option<Reg>, k: nat, provider: string, info: ModelInfo, now: int): Option<Reg> {
    if k == 0 then r else AddOne(AddTimes(r, k - 1, provider, info, now), provider, info, now)
  }

  function RemoveTimes(r: Option<Reg>, k: nat, client: ClientID, provider: string, now: int): Option<Reg> {
    if k == 0 then r else RemoveOne(RemoveTimes(r, k - 1, client, provider, now), client, provider, now)
  }

  /** Latest definition wins; this client's cooldown and suspension are forgotten. */
  function Refresh(r: Option<Reg>, client: ClientID, provider: string, info: ModelInfo,
                   moved: nat, now: int): Option<Reg> {
    match r
    case None => None
    case Some(g) =>
      Some(g.(info := info, lastUpdated := now,
              infoByProvider := if provider == "" then g.infoByProvider
                                else g.infoByProvider[provider := info],
              quota := g.quota - {client}, suspended := g.suspended - {client},
              providers := if provider == "" || moved == 0 then g.providers
                           else g.providers[provider := ProviderCount(g, provider) + moved]))
  }

  // ----- the diff a re-registration applies to one model --------------------------

  /** Everything a re-registration knows. `oldIds` and `newIds` are raw id lists. */
  datatype Diff = Diff(client: ClientID, oldProvider: string, provider: string,
                       oldIds: seq<ModelID>, newIds: seq<ModelID>, infos: map<ModelID, ModelInfo>, now: int)
  {
    function O(m: ModelID): nat { Cnt(oldIds, m) }
    function N(m: ModelID): nat { Cnt(newIds, m) }
    predicate ProviderChanged() { oldProvider != provider }
    ghost predicate WellFormed() { forall m :: m in newIds ==> m in infos }
  }

  /** Bindings kept under a new provider leave the old provider's tally. */
  function StageMove(d: Diff, r: Option<Reg>, m: ModelID): Option<Reg> {
    if d.ProviderChanged() && d.oldProvider != "" && d.N(m) > 0 && d.O(m) > 0
    then WithdrawAt(r, d.oldProvider, Min(d.N(m), d.O(m)))
    else r
  }

  /** Models dropped altogether. */
  function StageDrop(d: Diff, r: Option<Reg>, m: ModelID): Option<Reg> {
    if d.N(m) == 0 then RemoveTimes(r, d.O(m), d.client, d.oldProvider, d.now) else r
  }

  /** Duplicates of a kept model that are no longer listed. */
  function StageOverage(d: Diff, r: Option<Reg>, m: ModelID): Option<Reg> {
    if 0 < d.N(m) < d.O(m) then RemoveTimes(r, d.O(m) - d.N(m), d.client, d.oldProvider, d.now) else r
  }

  /** New models and new duplicates. */
  function StageAdd(d: Diff, r: Option<Reg>, m: ModelID): Option<Reg>
    requires d.WellFormed()
  {
    if d.N(m) > d.O(m) then AddTimes(r, d.N(m) - d.O(m), d.provider, d.infos[m], d.now) else r
  }

  /** Metadata, transient state, and the new provider's share of the kept bindings. */
  function StageRefresh(d: Diff, r: Option<Reg>, m: ModelID): Option<Reg>
    requires d.WellFormed()
  {
    if d.N(m) > 0
    then Refresh(r, d.client, d.provider, d.infos[m],
                 if d.ProviderChanged() then Min(d.N(m), d.O(m)) else 0, d.now)
    else r
  }

  function Reconcile(d: Diff, r: Option<Reg>, m: ModelID): Option<Reg>
    requires d.WellFormed()
  {
    StageRefresh(d, StageAdd(d, StageOverage(d, StageDrop(d, StageMove(d, r, m), m), m), m), m)
  }

  // ----- whole operations ---------------------------------------------------------

  function ProviderOf(s: State, c: ClientID): string {
    if c in s.clientProviders then s.clientProviders[c] else ""
  }

  function PutProvider(providers: map<ClientID, string>, c: ClientID, p: string): map<ClientID, string> {
    if p == "" then providers - {c} else providers[c := p]
  }

  /** unregisterClientInternal */
  ghost function Unregister(s: State, c: ClientID, now: int): State {
    if c !in s.clientModels then s.(clientProviders := s.clientProviders - {c})
    else
      State(map m | m in s.models
                    && RemoveTimes(Some(s.models[m]), Cnt(s.clientModels[c], m), c, ProviderOf(s, c), now).Some?
              :: RemoveTimes(Some(s.models[m]), Cnt(s.clientModels[c], m), c, ProviderOf(s, c), now).value,
            s.clientModels - {c}, s.clientInfos - {c}, s.clientProviders - {c})
  }

  /** The pure-addition path of RegisterClient. */
  ghost function RegisterFresh(s: State, c: ClientID, p: string, ids: seq<ModelID>,
                               infos: map<ModelID, ModelInfo>, now: int): State
    requires forall m :: m in ids ==> m in infos
  {
    var keys := s.models.Keys + set m | m in ids;
    State(map m | m in keys
            :: if m in ids then AddTimes(Look(s.models, m), Cnt(ids, m), p, infos[m], now).value else s.models[m],
          s.clientModels[c := ids], s.clientInfos[c := infos], PutProvider(s.clientProviders, c, p))
  }

  /** The reconciliation path of RegisterClient. */
  ghost function Reregister(s: State, c: ClientID, p: string, ids: seq<ModelID>,
                            infos: map<ModelID, ModelInfo>, now: int): State
    requires c in s.clientModels
    requires forall m :: m in ids ==> m in infos
  {
    var d := DiffOf(s, c, p, ids, infos, now);
    var keys := s.models.Keys + set m | m in ids;
    State(map m | m in keys && Reconcile(d, Look(s.models, m), m).Some?
            :: Reconcile(d, Look(s.models, m), m).value,
          s.clientModels[c := ids], s.clientInfos[c := infos], PutProvider(s.clientProviders, c, p))
  }

  function DiffOf(s: State, c: ClientID, p: string, ids: seq<ModelID>,
                  infos: map<ModelID, ModelInfo>, now: int): (d: Diff)
    requires c in s.clientModels
  {
    Diff(c, ProviderOf(s, c), p, s.clientModels[c], ids, infos, now)
  }

  /** RegisterClient with nothing to register. */
  ghost function Forget(s: State, c: ClientID, now: int): State {
    var u := Unregister(s, c, now);
    State(u.models, u.clientModels - {c}, u.clientInfos - {c}, u.clientProviders - {c})
  }

  /** RegisterClient */
  ghost function Register(s: State, c: ClientID, provider: string, models: seq<Option<ModelInfo>>, now: int): State {
    var p := Text.ToLower(provider);
    var ids := RawIds(models);
    if ids == [] then Forget(s, c, now)
    else if c !in s.clientModels then RegisterFresh(s, c, p, ids, FirstInfos(models), now)
    else Reregister(s, c, p, ids, FirstInfos(models), now)
  }

  function Touch(s: State, m: ModelID, g: Reg): State {
    s.(models := s.models[m := g])
  }

  function SetQuota(s: State, c: ClientID, m: ModelID, now: int): State {
    if m in s.models then Touch(s, m, s.models[m].(quota := s.models[m].quota[c := now])) else s
  }

  function ClearQuota(s: State, c: ClientID, m: ModelID): State {
    if m in s.models then Touch(s, m, s.models[m].(quota := s.models[m].quota - {c})) else s
  }

  function Suspend(s: State, c: ClientID, m: ModelID, reason: string, now: int): State {
    if c == "" || m == "" || m !in s.models || c in s.models[m].suspended then s
    else Touch(s, m, s.models[m].(suspended := s.models[m].suspended[c := reason], lastUpdated := now))
  }

  function Resume(s: State, c: ClientID, m: ModelID, now: int): State {
    if c == "" || m == "" || m !in s.models || c !in s.models[m].suspended then s
    else Touch(s, m, s.models[m].(suspended := s.models[m].suspended - {c}, lastUpdated := now))
  }

  /** modelQuotaExceededWindow, in seconds */
  const WINDOW := 300

  function LiveQuota(q: map<ClientID, int>, now: int): map<ClientID, int> {
    map c | c in q && now - q[c] < WINDOW :: q[c]
  }

  /** CleanupExpiredQuotas */
  function Cleanup(s: State, now: int): State {
    s.(models := map m | m in s.models :: s.models[m].(quota := LiveQuota(s.models[m].quota, now)))
  }

  // ----- availability ---------------------------------------------------------------

  function Active(g: Reg, now: int): set<ClientID> {
    set c | c in g.quota && now < g.quota[c] + WINDOW
  }

  function Cooling(g: Reg): set<ClientID> {
    set c | c in g.suspended && Text.EqualFold(g.suspended[c], "quota")
  }

  function Barred(g: Reg): set<ClientID> {
    set c | c in g.suspended && !Text.EqualFold(g.suspended[c], "quota")
  }

  /** Whether buildAvailableModelsLocked lists a model at time `now`. */
  predicate Listed(g: Reg, now: int) {
    || g.count - |Active(g, now)| - |Barred(g)| > 0
    || (g.count > 0 && (Active(g, now) != {} || Cooling(g) != {}) && Barred(g) == {})
  }

  /** A model definition formatted for one handler type. */
  datatype Row = Row(handler: string, info: ModelInfo)

  /** How many times a row must appear in a list built at `now`. */
  ghost function Rows(models: map<ModelID, Reg>, handler: string, now: int, row: Row): nat {
    |RowKeys(models, handler, now, row)|
  }

  ghost function RowKeys(models: map<ModelID, Reg>, handler: string, now: int, row: Row): set<ModelID> {
    set m | m in models && Listed(models[m], now) && Row(handler, models[m].info) == row
  }

  /** A list, in whatever order, is the one built from `models` at `now`. */
  ghost predicate IsListAt(list: seq<Row>, models: map<ModelID, Reg>, handler: string, now: int) {
    forall row :: multiset(list)[row] == Rows(models, handler, now, row)
  }

  /** The first moment at which a cooldown counted at `now` runs out, if any is counted. */
  ghost predicate IsExpiry(models: map<ModelID, Reg>, now: int, e: Option<int>) {
    && (forall m, c :: m in models && c in Active(models[m], now) ==>
          e.Some? && e.value <= models[m].quota[c] + WINDOW)
    && (e.Some? ==> exists m, c :: m in models && c in Active(models[m], now)
                                   && e.value == models[m].quota[c] + WINDOW)
  }

  /** GetModelCount */
  function ModelCount(models: map<ModelID, Reg>, m: ModelID, now: int): (r: int)
    ensures r >= 0
  {
    if m in models then Max(models[m].count - |Active(models[m], now)| - |models[m].suspended|, 0) else 0
  }

  /** A cached list stays right from the moment it was built until it expires. */
  lemma CachedListStaysRight(list: seq<Row>, models: map<ModelID, Reg>, handler: string, built: int,
                             e: Option<int>, t: int)
    requires IsListAt(list, models, handler, built)
    requires IsExpiry(models, built, e)
    requires built <= t && (e.Some? ==> t < e.value)
    ensures IsListAt(list, models, handler, t)
  {
    forall m | m in models
      ensures Active(models[m], t) == Active(models[m], built)
    {
      forall c | c in models[m].quota
        ensures c in Active(models[m], t) <==> c in Active(models[m], built)
      {
      }
    }
    forall row
      ensures Rows(models, handler, t, row) == Rows(models, handler, built, row)
    {
      assert (set m | m in models && Listed(models[m], t) && Row(handler, models[m].info) == row)
          == (set m | m in models && Listed(models[m], built) && Row(handler, models[m].info) == row);
    }
  }

  /** Dropping expired cooldowns is invisible from then on. */
  lemma CleanupIsInvisible(s: State, now: int, t: int)
    requires now <= t
    ensures Cleanup(s, now).models.Keys == s.models.Keys
    ensures forall m :: ModelCount(Cleanup(s, now).models, m, t) == ModelCount(s.models, m, t)
    ensures forall handler, row :: Rows(Cleanup(s, now).models, handler, t, row) == Rows(s.models, handler, t, row)
  {
    hide Active, Listed, Rows, ModelCount;
    var u := Cleanup(s, now);
    forall m
      ensures ModelCount(u.models, m, t) == ModelCount(s.models, m, t)
    {
      CleanedAt(s, now, t, m);
    }
    forall handler, row
      ensures Rows(u.models, handler, t, row) == Rows(s.models, handler, t, row)
    {
      SameRows(s, u, now, handler, t, row);
    }
  }

  lemma CleanedAt(s: State, now: int, t: int, m: ModelID)
    requires now <= t
    ensures var u := Cleanup(s, now);
      && ModelCount(u.models, m, t) == ModelCount(s.models, m, t)
      && (m in s.models ==> Listed(u.models[m], t) == Listed(s.models[m], t) && u.models[m].info == s.models[m].info)
  {
    if m in s.models { assert Active(Cleanup(s, now).models[m], t) == Active(s.models[m], t); }
  }

  lemma SameRows(s: State, u: State, now: int, handler: string, t: int, row: Row)
    requires now <= t && u == Cleanup(s, now)
    ensures Rows(u.models, handler, t, row) == Rows(s.models, handler, t, row)
  {
    hide Listed;
    forall m
      ensures m in u.models <==> m in s.models
      ensures m in s.models ==> Listed(u.models[m], t) == Listed(s.models[m], t) && u.models[m].info == s.models[m].info
    {
      CleanedAt(s, now, t, m);
    }
    hide Cleanup;
    assert (set m | m in u.models && Listed(u.models[m], t) && Row(handler, u.models[m].info) == row)
        == (set m | m in s.models && Listed(s.models[m], t) && Row(handler, s.models[m].info) == row);
  }
}
