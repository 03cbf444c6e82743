/**
 The registry object. Every method is one region under the registry's mutex, with
 the clock reading it uses passed in as `now`.
 */
module Registry {
  import opened Prelude
  import opened RegistrySpec
  import opened RegistryRecount
  import Text

  class Registration {
    var info: ModelInfo
    var infoByProvider: map<string, ModelInfo>
    var count: int
    var lastUpdated: int
    var quota: map<ClientID, int>
    var providers: map<string, int>
    var suspended: map<ClientID, string>
    ghost const id: ModelID   // the key it is filed under

    constructor (ghost id: ModelID, info: ModelInfo, provider: string, now: int)
      ensures View() == AddOne(None, provider, info, now).value && this.id == id
    {
      this.id := id;
      this.info := info;
      infoByProvider := if provider == "" then map[] else map[provider := info];
      count := 1;
      lastUpdated := now;
      quota := map[];
      providers := if provider == "" then map[] else map[provider := 1];
      suspended := map[];
    }

    ghost function View(): Reg
      reads this
    {
      Reg(info, infoByProvider, count, lastUpdated, quota, providers, suspended)
    }

    /** Takes up to k bindings away from a provider, dropping an exhausted provider. */
    method WithdrawFrom(provider: string, k: nat)
      modifies this`providers, this`infoByProvider
      ensures View() == Withdraw(old(View()), provider, k)
    {
      if provider in providers {
        if providers[provider] <= k {
          providers := providers - {provider};
          infoByProvider := infoByProvider - {provider};
        } else {
          providers := providers[provider := providers[provider] - k];
        }
      }
    }

    /** One more binding. */
    method Bind(provider: string, info: ModelInfo, now: int)
      modifies this
      ensures View() == AddOne(Some(old(View())), provider, info, now).value
    {
      count := count + 1;
      lastUpdated := now;
      this.info := info;
      if provider != "" {
        providers := providers[provider := (if provider in providers then providers[provider] else 0) + 1];
        infoByProvider := infoByProvider[provider := info];
      }
    }

    /** Metadata and the new provider's share of `overlap` kept bindings; the client's marks go. */
    method RefreshBinding(client: ClientID, provider: string, info: ModelInfo, overlap: nat, now: int)
      modifies this
      ensures View() == Refresh(Some(old(View())), client, provider, info, overlap, now).value
    {
      this.info := info;
      if provider != "" {
        infoByProvider := infoByProvider[provider := info];
        if overlap > 0 {
          providers := providers[provider := (if provider in providers then providers[provider] else 0) + overlap];
        }
      }
      lastUpdated := now;
      quota := quota - {client};
      suspended := suspended - {client};
    }

    method Release(clientID: ClientID, provider: string, now: int)
      modifies this
      ensures View() == Released(old(View()), clientID, provider, now)
    {
      count := count - 1;
      lastUpdated := now;
      quota := quota - {clientID};
      suspended := suspended - {clientID};
      if count < 0 {
        count := 0;
      }
      if provider != "" {
        WithdrawFrom(provider, 1);
      }
    }

    /** Whether a list built at `now` shows this model, and the expiry it contributes. */
    method Assess(now: int, e0: Option<int>) returns (listed: bool, e: Option<int>)
      ensures listed == Listed(View(), now)
      ensures Earliest(quota, now, e0, e)
    {
      var expired, cooling, barred;
      expired, e := ScanQuota(quota, now, e0);
      cooling, barred := ScanSuspended(suspended);
      var effective := count - expired - barred;
      if effective < 0 { effective := 0; }
      SetSizes(View(), now);
      listed := effective > 0 || (count > 0 && (expired > 0 || cooling > 0) && barred == 0);
    }
  }

  /** A cached list with its expiry; `builtAt` records when it was computed. */
  datatype CacheEntry = CacheEntry(models: seq<Row>, expiresAt: Option<int>, builtAt: int)

  class ModelRegistry {
    var models: map<ModelID, Registration>
    var clientModels: map<ClientID, seq<ModelID>>
    var clientInfos: map<ClientID, map<ModelID, ModelInfo>>
    var clientProviders: map<ClientID, string>
    var cache: map<string, CacheEntry>

    constructor ()
      ensures Valid() && View() == EMPTY && cache == map[]
    {
      models, clientModels, clientInfos, clientProviders, cache := map[], map[], map[], map[], map[];
    }

    /** No registration object is filed under two ids. */
    ghost predicate NoAlias()
      reads this`models
    {
      forall m :: m in models ==> models[m].id == m
    }

    ghost function Snapshot(): map<ModelID, Reg>
      reads this`models, models.Values
    {
      map m | m in models :: models[m].View()
    }

    ghost function View(): State
      reads this, models.Values
    {
      State(Snapshot(), clientModels, clientInfos, clientProviders)
    }

    /** Every cached list is the list of the moment it was built, with that moment's expiry. */
    ghost predicate CacheSound()
      reads this, models.Values
    {
      forall h :: h in cache ==>
        && IsListAt(cache[h].models, Snapshot(), h, cache[h].builtAt)
        && IsExpiry(Snapshot(), cache[h].builtAt, cache[h].expiresAt)
    }

    ghost predicate Valid()
      reads this, models.Values
    {
      NoAlias() && CacheSound()
    }

    // ----- single bindings ---------------------------------------------------------------

    /** addModelRegistration */
    method AddModelRegistration(modelID: ModelID, provider: string, info: ModelInfo, now: int)
      requires NoAlias() && modelID != ""
      modifies this`models, models.Values
      ensures NoAlias() && fresh(models.Values - old(models.Values))
      ensures forall m ::
        Look(Snapshot(), m) ==
        (if m == modelID then AddOne(Look(old(Snapshot()), m), provider, info, now) else Look(old(Snapshot()), m))
    {
      if modelID in models {
        models[modelID].Bind(provider, info, now);
      } else {
        var registration := new Registration(modelID, info, provider, now);
        models := models[modelID := registration];
      }
    }

    /** removeModelRegistration; unregisterClientInternal releases each binding the same way. */
    method RemoveModelRegistration(clientID: ClientID, modelID: ModelID, provider: string, now: int)
      requires NoAlias()
      modifies this`models, models.Values
      ensures NoAlias() && models.Values <= old(models.Values)
      ensures forall m ::
        Look(Snapshot(), m) ==
        (if m == modelID then RemoveOne(Look(old(Snapshot()), m), clientID, provider, now)
          else Look(old(Snapshot()), m))
    {
      if modelID !in models { return; }
      var registration := models[modelID];
      registration.Release(clientID, provider, now);
      if registration.count <= 0 {
        models := models - {modelID};
      }
    }

    method RemoveRepeatedly(clientID: ClientID, modelID: ModelID, provider: string, k: nat, now: int)
      requires NoAlias()
      modifies this`models, models.Values
      ensures NoAlias() && models.Values <= old(models.Values)
      ensures forall m ::
        Look(Snapshot(), m) ==
        (if m == modelID then RemoveTimes(Look(old(Snapshot()), m), k, clientID, provider, now)
         else Look(old(Snapshot()), m))
    {
      hide RemoveOne;
      for i := 0 to k
        invariant NoAlias() && models.Values <= old(models.Values)
        invariant forall m ::
          Look(Snapshot(), m) ==
          (if m == modelID then RemoveTimes(Look(old(Snapshot()), m), i, clientID, provider, now)
           else Look(old(Snapshot()), m))
      {
        RemoveModelRegistration(clientID, modelID, provider, now);
      }
    }

    method AddRepeatedly(modelID: ModelID, provider: string, info: ModelInfo, k: nat, now: int)
      requires NoAlias() && modelID != ""
      modifies this`models, models.Values
      ensures NoAlias() && fresh(models.Values - old(models.Values))
      ensures forall m ::
        Look(Snapshot(), m) ==
        (if m == modelID then AddTimes(Look(old(Snapshot()), m), k, provider, info, now)
         else Look(old(Snapshot()), m))
    {
      hide AddOne;
      for i := 0 to k
        invariant NoAlias() && fresh(models.Values - old(models.Values))
        invariant forall m ::
          Look(Snapshot(), m) ==
          (if m == modelID then AddTimes(Look(old(Snapshot()), m), i, provider, info, now)
           else Look(old(Snapshot()), m))
      {
        AddModelRegistration(modelID, provider, info, now);
      }
    }

    /** The pure-addition path: one binding per supplied id, duplicates included. */
    method AddFresh(ids: seq<ModelID>, provider: string, infos: map<ModelID, ModelInfo>, now: int)
      requires NoAlias() && "" !in ids && forall m :: m in ids ==> m in infos
      modifies this`models, models.Values
      ensures NoAlias() && fresh(models.Values - old(models.Values))
      ensures forall m ::
        Look(Snapshot(), m) == AddListed(Look(old(Snapshot()), m), Cnt(ids, m), provider, infos, now, m)
    {
      hide AddOne;
      for i := 0 to |ids|
        invariant NoAlias() && fresh(models.Values - old(models.Values))
        invariant forall m ::
          Look(Snapshot(), m) == AddListed(Look(old(Snapshot()), m), Cnt(ids[..i], m), provider, infos, now, m)
      {
        CntNext(ids, i);
        assert ids[i] in ids;
        AddModelRegistration(ids[i], provider, infos[ids[i]], now);
      }
      assert ids[..|ids|] == ids;
    }

    method RecordClient(clientID: ClientID, provider: string, ids: seq<ModelID>, infos: map<ModelID, ModelInfo>)
      modifies this`clientModels, this`clientInfos, this`clientProviders, this`cache
      ensures clientModels == old(clientModels)[clientID := ids]
      ensures clientInfos == old(clientInfos)[clientID := infos]
      ensures clientProviders == PutProvider(old(clientProviders), clientID, provider)
      ensures cache == map[]
    {
      clientModels := clientModels[clientID := ids];
      clientInfos := clientInfos[clientID := infos];
      clientProviders := if provider == "" then clientProviders - {clientID} else clientProviders[clientID := provider];
      cache := map[];
    }

    // ----- reconciling one client --------------------------------------------------------

    method ReleaseAll(clientID: ClientID, ids: seq<ModelID>, provider: string, now: int)
      requires NoAlias()
      modifies this`models, models.Values
      ensures NoAlias() && models.Values <= old(models.Values)
      ensures forall m ::
        Look(Snapshot(), m) == RemoveTimes(Look(old(Snapshot()), m), Cnt(ids, m), clientID, provider, now)
    {
      hide RemoveOne;
      for i := 0 to |ids|
        invariant NoAlias() && models.Values <= old(models.Values)
        invariant forall m ::
          Look(Snapshot(), m) == RemoveTimes(Look(old(Snapshot()), m), Cnt(ids[..i], m), clientID, provider, now)
      {
        CntNext(ids, i);
        RemoveModelRegistration(clientID, ids[i], provider, now);
      }
      assert ids[..|ids|] == ids;
    }

    /** unregisterClientInternal */
    method UnregisterClientInternal(clientID: ClientID, now: int)
      requires NoAlias()
      modifies this`models, this`clientModels, this`clientInfos, this`clientProviders, models.Values
      ensures NoAlias() && fresh(models.Values - old(models.Values))
      ensures View() == Unregister(old(View()), clientID, now)
    {
      if clientID !in clientModels {
        clientProviders := clientProviders - {clientID};
        return;
      }
      var ids := clientModels[clientID];
      var provider := if clientID in clientProviders then clientProviders[clientID] else "";
      ReleaseAll(clientID, ids, provider, now);
      clientModels := clientModels - {clientID};
      clientInfos := clientInfos - {clientID};
      clientProviders := clientProviders - {clientID};
      forall m
        ensures Look(Snapshot(), m) == Look(Unregister(old(View()), clientID, now).models, m)
      {
        UnregisterAt(old(View()), clientID, now, m);
      }
      LookDetermines(Snapshot(), Unregister(old(View()), clientID, now).models);
    }

    /** Bindings kept under a new provider leave the old provider's tally. */
    method MoveKept(d: Diff, oldCounts: map<ModelID, nat>, newCounts: map<ModelID, nat>)
      requires NoAlias() && Counts(oldCounts, d.oldIds) && Counts(newCounts, d.newIds)
      modifies models.Values
      ensures NoAlias()
      ensures forall m :: Look(Snapshot(), m) == StageMove(d, Look(old(Snapshot()), m), m)
    {
      hide WithdrawAt;
      if !d.ProviderChanged() || d.oldProvider == "" { return; }
      var todo := newCounts.Keys;
      while todo != {}
        invariant NoAlias() && todo <= newCounts.Keys
        invariant forall m ::
          Look(Snapshot(), m) ==
          (if m in todo then Look(old(Snapshot()), m) else StageMove(d, Look(old(Snapshot()), m), m))
      {
        var id :| id in todo;
        todo := todo - {id};
        var newCount, oldCount := newCounts[id], CountAt(oldCounts, id);
        if oldCount != 0 {
          MoveOne(id, d.oldProvider, if oldCount < newCount then oldCount else newCount);
        }
      }
    }

    /** Models the client no longer lists. */
    method DropRemoved(d: Diff, oldCounts: map<ModelID, nat>, newCounts: map<ModelID, nat>)
      requires NoAlias() && Counts(oldCounts, d.oldIds) && Counts(newCounts, d.newIds)
      modifies this`models, models.Values
      ensures NoAlias() && models.Values <= old(models.Values)
      ensures forall m :: Look(Snapshot(), m) == StageDrop(d, Look(old(Snapshot()), m), m)
    {
      var todo := set id | id in oldCounts && CountAt(newCounts, id) == 0;
      while todo != {}
        invariant NoAlias() && models.Values <= old(models.Values)
        invariant todo <= set id | id in oldCounts && CountAt(newCounts, id) == 0
        invariant forall m ::
          Look(Snapshot(), m) ==
          (if m in todo then Look(old(Snapshot()), m) else StageDrop(d, Look(old(Snapshot()), m), m))
      {
        var id :| id in todo;
        todo := todo - {id};
        RemoveRepeatedly(d.client, id, d.oldProvider, oldCounts[id], d.now);
      }
    }

    /** Surplus duplicates of models the client keeps. */
    method DropOverage(d: Diff, oldCounts: map<ModelID, nat>, newCounts: map<ModelID, nat>)
      requires NoAlias() && Counts(oldCounts, d.oldIds) && Counts(newCounts, d.newIds)
      modifies this`models, models.Values
      ensures NoAlias() && models.Values <= old(models.Values)
      ensures forall m :: Look(Snapshot(), m) == StageOverage(d, Look(old(Snapshot()), m), m)
    {
      hide RemoveTimes;
      var todo := oldCounts.Keys;
      while todo != {}
        invariant NoAlias() && models.Values <= old(models.Values) && todo <= oldCounts.Keys
        invariant forall m ::
          Look(Snapshot(), m) ==
          (if m in todo then Look(old(Snapshot()), m) else StageOverage(d, Look(old(Snapshot()), m), m))
      {
        var id :| id in todo;
        todo := todo - {id};
        var oldCount, newCount := oldCounts[id], CountAt(newCounts, id);
        if newCount != 0 && oldCount > newCount {
          RemoveRepeatedly(d.client, id, d.oldProvider, oldCount - newCount, d.now);
        }
      }
    }

    /** New models and new duplicates. */
    method AddMissing(d: Diff, oldCounts: map<ModelID, nat>, newCounts: map<ModelID, nat>)
      requires NoAlias() && Counts(oldCounts, d.oldIds) && Counts(newCounts, d.newIds)
      requires d.WellFormed() && "" !in d.newIds
      modifies this`models, models.Values
      ensures NoAlias() && fresh(models.Values - old(models.Values))
      ensures forall m :: Look(Snapshot(), m) == StageAdd(d, Look(old(Snapshot()), m), m)
    {
      hide AddTimes;
      var todo := newCounts.Keys;
      while todo != {}
        invariant NoAlias() && fresh(models.Values - old(models.Values)) && todo <= newCounts.Keys
        invariant forall m ::
          Look(Snapshot(), m) ==
          (if m in todo then Look(old(Snapshot()), m) else StageAdd(d, Look(old(Snapshot()), m), m))
      {
        var id :| id in todo;
        todo := todo - {id};
        var newCount, oldCount := newCounts[id], CountAt(oldCounts, id);
        AddMissingOf(d, id, newCount, oldCount);
      }
    }

    method AddMissingOf(d: Diff, id: ModelID, newCount: nat, oldCount: nat)
      requires NoAlias() && d.WellFormed() && id != "" && id in d.infos
      requires newCount == d.N(id) && oldCount == d.O(id)
      modifies this`models, models.Values
      ensures NoAlias() && fresh(models.Values - old(models.Values))
      ensures forall m ::
        Look(Snapshot(), m) ==
        (if m == id then StageAdd(d, Look(old(Snapshot()), m), m) else Look(old(Snapshot()), m))
    {
      hide AddTimes;
      if newCount > oldCount {
        AddRepeatedly(id, d.provider, d.infos[id], newCount - oldCount, d.now);
      }
    }

    /** Metadata, transient state and the new provider's share of the kept bindings. */
    method RefreshListed(d: Diff, oldCounts: map<ModelID, nat>, newCounts: map<ModelID, nat>)
      requires NoAlias() && Counts(oldCounts, d.oldIds) && Counts(newCounts, d.newIds)
      requires d.WellFormed()
      modifies models.Values
      ensures NoAlias()
      ensures forall m :: Look(Snapshot(), m) == StageRefresh(d, Look(old(Snapshot()), m), m)
    {
      hide Refresh, Look;
      var todo := newCounts.Keys;
      while todo != {}
        invariant NoAlias() && todo <= newCounts.Keys
        invariant forall m ::
          Look(Snapshot(), m) ==
          (if m in todo then Look(old(Snapshot()), m) else StageRefresh(d, Look(old(Snapshot()), m), m))
      {
        var id :| id in todo;
        todo := todo - {id};
        var overlap := 0;
        if d.ProviderChanged() {
          overlap := newCounts[id];
          if CountAt(oldCounts, id) < overlap { overlap := CountAt(oldCounts, id); }
        }
        RefreshOne(id, d.client, d.provider, d.infos[id], overlap, d.now);
      }
    }

    /** The reconciliation path: the five passes in order. */
    method ReconcileClient(clientID: ClientID, provider: string, ids: seq<ModelID>,
                           infos: map<ModelID, ModelInfo>, newCounts: map<ModelID, nat>, now: int)
      requires NoAlias() && clientID in clientModels && Counts(newCounts, ids)
      requires "" !in ids && forall m :: m in ids ==> m in infos
      modifies this`models, models.Values
      ensures NoAlias() && fresh(models.Values - old(models.Values))
      ensures forall m ::
        Look(Snapshot(), m) ==
        Reconcile(DiffOf(old(View()), clientID, provider, ids, infos, now), Look(old(Snapshot()), m), m)
    {
      hide StageMove, StageDrop, StageOverage, StageAdd, StageRefresh;
      var oldProvider := if clientID in clientProviders then clientProviders[clientID] else "";
      var d := Diff(clientID, oldProvider, provider, clientModels[clientID], ids, infos, now);
      var oldCounts := CountIds(clientModels[clientID]);
      MoveKept(d, oldCounts, newCounts);
      DropRemoved(d, oldCounts, newCounts);
      DropOverage(d, oldCounts, newCounts);
      AddMissing(d, oldCounts, newCounts);
      RefreshListed(d, oldCounts, newCounts);
    }

    method MoveOne(id: ModelID, provider: string, k: nat)
      requires NoAlias()
      modifies models.Values
      ensures NoAlias()
      ensures forall m ::
        Look(Snapshot(), m) ==
        (if m == id then WithdrawAt(Look(old(Snapshot()), m), provider, k) else Look(old(Snapshot()), m))
    {
      if id in models {
        models[id].WithdrawFrom(provider, k);
      }
    }

    method RefreshOne(id: ModelID, client: ClientID, provider: string, info: ModelInfo, overlap: nat, now: int)
      requires NoAlias()
      modifies models.Values
      ensures NoAlias()
      ensures forall m ::
        Look(Snapshot(), m) ==
        (if m == id then Refresh(Look(old(Snapshot()), m), client, provider, info, overlap, now)
         else Look(old(Snapshot()), m))
    {
      if id in models {
        models[id].RefreshBinding(client, provider, info, overlap, now);
      }
    }

    /** Registering nothing forgets the client. */
    method ForgetClient(clientID: ClientID, now: int)
      requires NoAlias()
      modifies this, models.Values
      ensures NoAlias() && fresh(models.Values - old(models.Values))
      ensures View() == Forget(old(View()), clientID, now)
      ensures cache == map[]
    {
      ghost var s := View();
      UnregisterClientInternal(clientID, now);
      ghost var u := View();
      ForgetIs(s, clientID, now, u);
      RecordNothing(clientID);
      assert Snapshot() == u.models;
    }

    method RecordNothing(clientID: ClientID)
      modifies this`clientModels, this`clientInfos, this`clientProviders, this`cache
      ensures clientModels == old(clientModels) - {clientID}
      ensures clientInfos == old(clientInfos) - {clientID}
      ensures clientProviders == old(clientProviders) - {clientID}
      ensures cache == map[]
    {
      clientModels := clientModels - {clientID};
      clientInfos := clientInfos - {clientID};
      clientProviders := clientProviders - {clientID};
      cache := map[];
    }

    method RegisterNewClient(clientID: ClientID, provider: string, ids: seq<ModelID>,
                             infos: map<ModelID, ModelInfo>, now: int)
      requires NoAlias() && clientID !in clientModels && Definitions(ids, infos)
      modifies this, models.Values
      ensures NoAlias() && fresh(models.Values - old(models.Values))
      ensures View() == RegisterFresh(old(View()), clientID, provider, ids, infos, now)
      ensures cache == map[]
    {
      AddFresh(ids, provider, infos, now);
      RecordClient(clientID, provider, ids, infos);
      FreshTable(old(View()), clientID, provider, ids, infos, now, Snapshot());
    }

    method ReregisterClient(clientID: ClientID, provider: string, ids: seq<ModelID>,
                            infos: map<ModelID, ModelInfo>, newCounts: map<ModelID, nat>, now: int)
      requires NoAlias() && clientID in clientModels && Definitions(ids, infos) && Counts(newCounts, ids)
      modifies this, models.Values
      ensures NoAlias() && fresh(models.Values - old(models.Values))
      ensures View() == Reregister(old(View()), clientID, provider, ids, infos, now)
      ensures cache == map[]
    {
      ReconcileClient(clientID, provider, ids, infos, newCounts, now);
      RecordClient(clientID, provider, ids, infos);
      ReregisterTable(old(View()), clientID, provider, ids, infos, now, Snapshot());
    }

    // ----- the public operations -----------------------------------------------------------

    method RegisterClient(clientID: ClientID, clientProvider: string, supplied: seq<Option<ModelInfo>>, now: int)
      requires Valid()
      modifies this, models.Values
      ensures Valid() && fresh(models.Values - old(models.Values))
      ensures View() == Register(old(View()), clientID, clientProvider, supplied, now)
      ensures cache == map[]
    {
      hide FirstInfos, Counts, Forget, RegisterFresh, Reregister, RawIds, Text.ToLower, IsListAt, IsExpiry;
      var provider := Text.ToLower(clientProvider);
      var rawModelIDs, newModels, newCounts := ReadSupplied(supplied);
      RawIdsNonBlank(supplied);
      if rawModelIDs == [] {
        ForgetClient(clientID, now);
      } else if clientID !in clientModels {
        RegisterNewClient(clientID, provider, rawModelIDs, newModels, now);
      } else {
        ReregisterClient(clientID, provider, rawModelIDs, newModels, newCounts, now);
      }
    }

    method UnregisterClient(clientID: ClientID, now: int)
      requires Valid()
      modifies this, models.Values
      ensures Valid() && fresh(models.Values - old(models.Values))
      ensures View() == Unregister(old(View()), clientID, now)
      ensures cache == map[]
    {
      UnregisterClientInternal(clientID, now);
      cache := map[];
    }

    method SetModelQuotaExceeded(clientID: ClientID, modelID: ModelID, now: int)
      requires Valid()
      modifies this`cache, models.Values
      ensures Valid()
      ensures View() == SetQuota(old(View()), clientID, modelID, now)
      ensures View() != old(View()) ==> cache == map[]
    {
      hide IsListAt, IsExpiry;
      if modelID in models {
        models[modelID].quota := models[modelID].quota[clientID := now];
        cache := map[];
        assert Snapshot() == SetQuota(old(View()), clientID, modelID, now).models;
      }
    }

    method ClearModelQuotaExceeded(clientID: ClientID, modelID: ModelID)
      requires Valid()
      modifies this`cache, models.Values
      ensures Valid()
      ensures View() == ClearQuota(old(View()), clientID, modelID)
      ensures View() != old(View()) ==> cache == map[]
    {
      hide IsListAt, IsExpiry;
      if modelID in models {
        models[modelID].quota := models[modelID].quota - {clientID};
        cache := map[];
        assert Snapshot() == ClearQuota(old(View()), clientID, modelID).models;
      }
    }

    method SuspendClientModel(clientID: ClientID, modelID: ModelID, reason: string, now: int)
      requires Valid()
      modifies this`cache, models.Values
      ensures Valid()
      ensures View() == Suspend(old(View()), clientID, modelID, reason, now)
      ensures View() != old(View()) ==> cache == map[]
    {
      hide IsListAt, IsExpiry;
      if clientID == "" || modelID == "" { return; }
      if modelID !in models { return; }
      var registration := models[modelID];
      if clientID in registration.suspended { return; }
      registration.suspended := registration.suspended[clientID := reason];
      registration.lastUpdated := now;
      cache := map[];
      assert Snapshot() == old(Snapshot())[modelID := registration.View()];
    }

    method ResumeClientModel(clientID: ClientID, modelID: ModelID, now: int)
      requires Valid()
      modifies this`cache, models.Values
      ensures Valid()
      ensures View() == Resume(old(View()), clientID, modelID, now)
      ensures View() != old(View()) ==> cache == map[]
    {
      hide IsListAt, IsExpiry;
      if clientID == "" || modelID == "" { return; }
      if modelID !in models { return; }
      var registration := models[modelID];
      if clientID !in registration.suspended { return; }
      registration.suspended := registration.suspended - {clientID};
      registration.lastUpdated := now;
      cache := map[];
      assert Snapshot() == old(Snapshot())[modelID := registration.View()];
    }

    /** CleanupExpiredQuotas; the cache is cleared only when something was removed. */
    method CleanupExpiredQuotas(now: int)
      requires Valid()
      modifies this`cache, models.Values
      ensures Valid()
      ensures View() == Cleanup(old(View()), now)
      ensures View() != old(View()) ==> cache == map[]
    {
      hide IsListAt, IsExpiry, LiveQuota, Cleanup;
      var invalidated := PruneQuotas(now);
      if invalidated { cache := map[]; }
    }

    method PruneQuotas(now: int) returns (invalidated: bool)
      requires NoAlias()
      modifies models.Values
      ensures View() == Cleanup(old(View()), now)
      ensures !invalidated ==> Snapshot() == old(Snapshot())
    {
      hide LiveQuota, Cleanup;
      invalidated := PruneEach(now);
      CleanedUp(old(View()), Snapshot(), now);
    }

    method PruneEach(now: int) returns (invalidated: bool)
      requires NoAlias()
      modifies models.Values
      ensures forall m :: m in models ==>
        models[m].View() == old(models[m].View()).(quota := LiveQuota(old(models[m].quota), now))
      ensures !invalidated ==> forall m :: m in models ==> models[m].View() == old(models[m].View())
    {
      hide IsListAt, IsExpiry, LiveQuota;
      invalidated := false;
      var todo := models.Keys;
      while todo != {}
        invariant todo <= models.Keys
        invariant forall m :: m in todo ==> models[m].View() == old(models[m].View())
        invariant forall m :: m in models && m !in todo ==>
          models[m].View() == old(models[m].View()).(quota := LiveQuota(old(models[m].quota), now))
        invariant !invalidated ==> forall m :: m in models ==> models[m].View() == old(models[m].View())
      {
        var m :| m in todo;
        todo := todo - {m};
        var kept := LiveQuota(models[m].quota, now);
        if kept != models[m].quota {
          models[m].quota := kept;
          invalidated := true;
        }
      }
    }

    // ----- queries -------------------------------------------------------------------------

    /**
     GetAvailableModels. The list served is the one a rebuild would give at `now` - or,
     for a caller whose clock reading predates the cached build, at the time of that build.
     */
    method GetAvailableModels(handlerType: string, now: int) returns (list: seq<Row>)
      requires Valid()
      modifies this`cache
      ensures Valid()
      ensures handlerType in cache && IsListAt(list, Snapshot(), handlerType, Max(now, cache[handlerType].builtAt))
      ensures handlerType in old(cache) || cache[handlerType].builtAt == now
      ensures forall h :: h != handlerType ==> Look(cache, h) == old(Look(cache, h))
    {
      hide IsListAt;
      if handlerType in cache {
        var entry := cache[handlerType];
        if entry.expiresAt.None? || now < entry.expiresAt.value {
          CachedListStaysRight(entry.models, Snapshot(), handlerType, entry.builtAt, entry.expiresAt,
                               Max(now, entry.builtAt));
          return entry.models;
        }
      }
      var expiresAt;
      list, expiresAt := BuildAvailableModels(handlerType, now);
      cache := cache[handlerType := CacheEntry(list, expiresAt, now)];
    }

    /** buildAvailableModelsLocked */
    method BuildAvailableModels(handlerType: string, now: int) returns (list: seq<Row>, expiresAt: Option<int>)
      ensures IsListAt(list, Snapshot(), handlerType, now)
      ensures IsExpiry(Snapshot(), now, expiresAt)
    {
      list, expiresAt := [], None;
      var todo := models.Keys;
      ghost var snapshot, done := Snapshot(), map[];
      while todo != {}
        invariant done == snapshot - todo && todo <= snapshot.Keys
        invariant IsListAt(list, done, handlerType, now)
        invariant IsExpiry(done, now, expiresAt)
      {
        var m :| m in todo;
        var listed, e := models[m].Assess(now, expiresAt);
        assert models[m].View() == snapshot[m];
        ListNext(list, done, m, snapshot[m], handlerType, now);
        ExpiryNext(done, m, snapshot[m], now, expiresAt, e);
        if listed {
          list := list + [Row(handlerType, models[m].info)];
        }
        expiresAt := e;
        RestrictNext(snapshot, todo, m);
        todo := todo - {m};
        done := done[m := snapshot[m]];
      }
      assert done == snapshot;
    }

    method GetModelCount(modelID: ModelID, now: int) returns (result: int)
      ensures result == ModelCount(Snapshot(), modelID, now)
    {
      if modelID !in models { return 0; }
      var registration := models[modelID];
      var expired, _ := ScanQuota(registration.quota, now, None);
      SetSizes(registration.View(), now);
      result := registration.count - expired - |registration.suspended|;
      if result < 0 { result := 0; }
    }
  }

  // ----- scanning one registration -------------------------------------------------------------

  ghost predicate Earliest(quota: map<ClientID, int>, now: int, e0: Option<int>, e: Option<int>) {
    && (e0.Some? ==> e.Some? && e.value <= e0.value)
    && (forall c :: c in quota && now < quota[c] + WINDOW ==> e.Some? && e.value <= quota[c] + WINDOW)
    && (e.Some? && e != e0 ==> exists c :: c in quota && now < quota[c] + WINDOW && e.value == quota[c] + WINDOW)
  }

  ghost function Running(quota: map<ClientID, int>, now: int): set<ClientID> {
    set c | c in quota && now < quota[c] + WINDOW
  }

  ghost function Reasons(suspended: map<ClientID, string>, overQuota: bool): set<ClientID> {
    set c | c in suspended && Text.EqualFold(suspended[c], "quota") == overQuota
  }

  /** How many cooldowns still run at `now`, and the earliest end among them and `e0`. */
  method ScanQuota(quota: map<ClientID, int>, now: int, e0: Option<int>) returns (running: nat, e: Option<int>)
    ensures running == |Running(quota, now)|
    ensures Earliest(quota, now, e0, e)
  {
    running, e := 0, e0;
    var todo := quota.Keys;
    ghost var done: map<ClientID, int> := map[];
    while todo != {}
      invariant todo <= quota.Keys && done == quota - todo
      invariant running == |Running(done, now)|
      invariant Earliest(done, now, e0, e)
    {
      var c :| c in todo;
      var recoveryAt := quota[c] + WINDOW;
      ghost var before := e;
      if now < recoveryAt {
        running := running + 1;
        if e.None? || recoveryAt < e.value { e := Some(recoveryAt); }
      }
      RunningNext(done, c, quota[c], now);
      EarliestNext(done, c, quota[c], now, e0, before, e);
      todo := todo - {c};
      done := done[c := quota[c]];
    }
    assert done == quota;
  }

  lemma RunningNext(done: map<ClientID, int>, c: ClientID, at: int, now: int)
    requires c !in done
    ensures |Running(done[c := at], now)| == |Running(done, now)| + (if now < at + WINDOW then 1 else 0)
  {
    assert Running(done[c := at], now) == if now < at + WINDOW then Running(done, now) + {c} else Running(done, now);
  }

  lemma EarliestNext(done: map<ClientID, int>, c: ClientID, at: int, now: int, e0: Option<int>, e: Option<int>,
                     e': Option<int>)
    requires c !in done && Earliest(done, now, e0, e)
    requires e' == if now < at + WINDOW && (e.None? || at + WINDOW < e.value) then Some(at + WINDOW) else e
    ensures Earliest(done[c := at], now, e0, e')
  {
    var after := done[c := at];
    if e'.Some? && e' != e0 {
      if e' == e {
        var d :| d in done && now < done[d] + WINDOW && e.value == done[d] + WINDOW;
        assert after[d] == done[d];
      } else {
        assert after[c] == at;
      }
    }
  }

  /** How many clients are suspended over quota, and how many for other reasons. */
  method ScanSuspended(suspended: map<ClientID, string>) returns (cooling: nat, barred: nat)
    ensures cooling == |Reasons(suspended, true)| && barred == |Reasons(suspended, false)|
  {
    cooling, barred := 0, 0;
    var todo := suspended.Keys;
    ghost var done: map<ClientID, string> := map[];
    while todo != {}
      invariant todo <= suspended.Keys && done == suspended - todo
      invariant cooling == |Reasons(done, true)| && barred == |Reasons(done, false)|
    {
      var c :| c in todo;
      ReasonsNext(done, c, suspended[c]);
      if Text.EqualFold(suspended[c], "quota") {
        cooling := cooling + 1;
      } else {
        barred := barred + 1;
      }
      todo := todo - {c};
      done := done[c := suspended[c]];
    }
    assert done == suspended;
  }

  lemma ReasonsNext(done: map<ClientID, string>, c: ClientID, reason: string)
    requires c !in done
    ensures var over := Text.EqualFold(reason, "quota");
      && |Reasons(done[c := reason], over)| == |Reasons(done, over)| + 1
      && |Reasons(done[c := reason], !over)| == |Reasons(done, !over)|
  {
    var over := Text.EqualFold(reason, "quota");
    assert Reasons(done[c := reason], over) == Reasons(done, over) + {c};
    assert Reasons(done[c := reason], !over) == Reasons(done, !over);
  }

  lemma SetSizes(g: Reg, now: int)
    ensures Active(g, now) == Running(g.quota, now)
    ensures Cooling(g) == Reasons(g.suspended, true) && Barred(g) == Reasons(g.suspended, false)
    ensures |Active(g, now)| > 0 <==> Active(g, now) != {}
    ensures |Cooling(g)| > 0 <==> Cooling(g) != {}
    ensures |Barred(g)| > 0 <==> Barred(g) != {}
  {
  }

  /** One more registration adds its row, if listed, and nothing else. */
  lemma ListNext(list: seq<Row>, done: map<ModelID, Reg>, m: ModelID, g: Reg, handler: string, now: int)
    requires m !in done && IsListAt(list, done, handler, now)
    ensures IsListAt(if Listed(g, now) then list + [Row(handler, g.info)] else list, done[m := g], handler, now)
  {
    RowsNext(done, m, g, handler, now);
  }

  lemma RestrictNext<V>(t: map<ModelID, V>, todo: set<ModelID>, m: ModelID)
    requires m in t && m in todo
    ensures m !in t - todo
    ensures t - (todo - {m}) == (t - todo)[m := t[m]]
  {
  }

  lemma RowsNext(done: map<ModelID, Reg>, m: ModelID, g: Reg, handler: string, now: int)
    requires m !in done
    ensures forall row ::
      Rows(done[m := g], handler, now, row)
      == Rows(done, handler, now, row) + (if Listed(g, now) && Row(handler, g.info) == row then 1 else 0)
  {
    hide Rows, Listed;
    forall row
      ensures Rows(done[m := g], handler, now, row)
        == Rows(done, handler, now, row) + (if Listed(g, now) && Row(handler, g.info) == row then 1 else 0)
    {
      RowNext(done, m, g, handler, now, row);
    }
  }

  lemma CleanedUp(s: State, after: map<ModelID, Reg>, now: int)
    requires after.Keys == s.models.Keys
    requires forall m :: m in after ==> after[m] == s.models[m].(quota := LiveQuota(s.models[m].quota, now))
    ensures s.(models := after) == Cleanup(s, now)
  {
    hide LiveQuota;
  }

  lemma RowNext(done: map<ModelID, Reg>, m: ModelID, g: Reg, handler: string, now: int, row: Row)
    requires m !in done
    ensures Rows(done[m := g], handler, now, row)
      == Rows(done, handler, now, row) + (if Listed(g, now) && Row(handler, g.info) == row then 1 else 0)
  {
    hide RowKeys;
    RowKeysNext(done, m, g, handler, now, row);
  }

  lemma RowKeysNext(done: map<ModelID, Reg>, m: ModelID, g: Reg, handler: string, now: int, row: Row)
    requires m !in done
    ensures m !in RowKeys(done, handler, now, row)
    ensures RowKeys(done[m := g], handler, now, row)
      == RowKeys(done, handler, now, row) + (if Listed(g, now) && Row(handler, g.info) == row then {m} else {})
  {
    hide Listed;
  }

  lemma ExpiryNext(done: map<ModelID, Reg>, m: ModelID, g: Reg, now: int, e0: Option<int>, e: Option<int>)
    requires m !in done && IsExpiry(done, now, e0) && Earliest(g.quota, now, e0, e)
    ensures IsExpiry(done[m := g], now, e)
  {
    var after := done[m := g];
    if e.Some? {
      if e == e0 {
        var k, c :| k in done && c in Active(done[k], now) && e.value == done[k].quota[c] + WINDOW;
        assert after[k] == done[k];
      } else {
        var c :| c in g.quota && now < g.quota[c] + WINDOW && e.value == g.quota[c] + WINDOW;
        assert c in Active(after[m], now);
      }
    }
  }

  /** Go's reading of an absent map entry. */
  function CountAt(counts: map<ModelID, nat>, m: ModelID): nat {
    if m in counts then counts[m] else 0
  }

  function AddListed(r: Option<Reg>, k: nat, provider: string, infos: map<ModelID, ModelInfo>, now: int,
                     m: ModelID): Option<Reg> {
    if m in infos then AddTimes(r, k, provider, infos[m], now) else r
  }

  ghost predicate Counts(counts: map<ModelID, nat>, ids: seq<ModelID>) {
    && (forall m :: m in counts <==> m in ids)
    && (forall m :: CountAt(counts, m) == Cnt(ids, m))
  }

  /** The raw id list, the first definition of each id and the multiplicities. */
  method ReadSupplied(supplied: seq<Option<ModelInfo>>)
      returns (raw: seq<ModelID>, infos: map<ModelID, ModelInfo>, counts: map<ModelID, nat>)
    ensures raw == RawIds(supplied) && infos == FirstInfos(supplied) && Counts(counts, raw)
  {
    raw, infos, counts := [], map[], map[];
    for i := 0 to |supplied|
      invariant raw == RawIds(supplied[..i]) && infos == FirstInfos(supplied[..i]) && Counts(counts, raw)
    {
      RawIdsNext(supplied, i);
      var model := supplied[i];
      if model.Some? && model.value.id != "" {
        var id := model.value.id;
        CountsNext(counts, raw, id);
        counts := counts[id := CountAt(counts, id) + 1];
        raw := raw + [id];
        if id !in infos { infos := infos[id := model.value]; }
      }
    }
    assert supplied[..|supplied|] == supplied;
  }

  method CountIds(ids: seq<ModelID>) returns (counts: map<ModelID, nat>)
    ensures Counts(counts, ids)
  {
    counts := map[];
    for i := 0 to |ids|
      invariant Counts(counts, ids[..i])
    {
      assert ids[..i + 1] == ids[..i] + [ids[i]];
      CountsNext(counts, ids[..i], ids[i]);
      counts := counts[ids[i] := CountAt(counts, ids[i]) + 1];
    }
    assert ids[..|ids|] == ids;
  }

  lemma CntNext(ids: seq<ModelID>, i: nat)
    requires i < |ids|
    ensures forall m :: Cnt(ids[..i + 1], m) == Cnt(ids[..i], m) + (if m == ids[i] then 1 else 0)
  {
    assert ids[..i + 1] == ids[..i] + [ids[i]];
  }

  lemma CountsNext(counts: map<ModelID, nat>, ids: seq<ModelID>, id: ModelID)
    requires Counts(counts, ids)
    ensures Counts(counts[id := CountAt(counts, id) + 1], ids + [id])
  {
    var next := counts[id := CountAt(counts, id) + 1];
    forall m
      ensures CountAt(next, m) == Cnt(ids + [id], m)
    {
      assert CountAt(counts, m) == Cnt(ids, m);
    }
  }

  /** The readers of RegisterClient's argument go one element at a time. */
  lemma RawIdsNext(supplied: seq<Option<ModelInfo>>, i: nat)
    requires i < |supplied|
    ensures var model := supplied[i];
      if model.Some? && model.value.id != "" then
        && RawIds(supplied[..i + 1]) == RawIds(supplied[..i]) + [model.value.id]
        && var before := FirstInfos(supplied[..i]);
           FirstInfos(supplied[..i + 1])
           == if model.value.id in before then before else before[model.value.id := model.value]
      else
        && RawIds(supplied[..i + 1]) == RawIds(supplied[..i])
        && FirstInfos(supplied[..i + 1]) == FirstInfos(supplied[..i])
  {
    assert supplied[..i + 1][..i] == supplied[..i];
    assert RawIds(supplied[..i]) + [] == RawIds(supplied[..i]);
  }

  lemma ForgetIs(s: State, c: ClientID, now: int, u: State)
    requires u == Unregister(s, c, now)
    ensures Forget(s, c, now) == State(u.models, u.clientModels - {c}, u.clientInfos - {c}, u.clientProviders - {c})
  {
  }

  lemma FreshTable(s: State, c: ClientID, p: string, ids: seq<ModelID>, infos: map<ModelID, ModelInfo>, now: int,
                   models: map<ModelID, Reg>)
    requires Definitions(ids, infos)
    requires forall m :: Look(models, m) == AddListed(Look(s.models, m), Cnt(ids, m), p, infos, now, m)
    ensures models == RegisterFresh(s, c, p, ids, infos, now).models
  {
    forall m
      ensures Look(models, m) == Look(RegisterFresh(s, c, p, ids, infos, now).models, m)
    {
      FreshAt(s, c, p, ids, infos, now, m);
    }
    LookDetermines(models, RegisterFresh(s, c, p, ids, infos, now).models);
  }

  lemma ReregisterTable(s: State, c: ClientID, p: string, ids: seq<ModelID>, infos: map<ModelID, ModelInfo>, now: int,
                        models: map<ModelID, Reg>)
    requires Definitions(ids, infos) && c in s.clientModels
    requires forall m :: Look(models, m) == Reconcile(DiffOf(s, c, p, ids, infos, now), Look(s.models, m), m)
    ensures models == Reregister(s, c, p, ids, infos, now).models
  {
    forall m
      ensures Look(models, m) == Look(Reregister(s, c, p, ids, infos, now).models, m)
    {
      ReregisterAt(s, c, p, ids, infos, now, m);
    }
    LookDetermines(models, Reregister(s, c, p, ids, infos, now).models);
  }

  lemma LookDetermines<V>(a: map<ModelID, V>, b: map<ModelID, V>)
    requires forall m :: Look(a, m) == Look(b, m)
    ensures a == b
  {
    forall m
      ensures m in a <==> m in b
      ensures m in a ==> a[m] == b[m]
    {
      assert Look(a, m) == Look(b, m);
    }
  }
}
