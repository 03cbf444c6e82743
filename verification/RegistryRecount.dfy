/**
 The incremental registry agrees with a recount from scratch: in every reachable
 state each model's count is its total multiplicity over all clients, and each
 provider's tally is the total over that provider's clients.
 */
module RegistryRecount {
  import opened Prelude
  import opened RegistrySpec
  import Text

  // ----- sums over clients --------------------------------------------------------

  ghost function Sum(w: map<ClientID, nat>): nat
    decreases |w|
  {
    if w == map[] then 0
    else
      var c :| c in w;
      w[c] + Sum(w - {c})
  }

  lemma {:induction false} SumPick(w: map<ClientID, nat>, c: ClientID)
    requires c in w
    ensures Sum(w) == w[c] + Sum(w - {c})
    decreases |w|
  {
    var d :| d in w && Sum(w) == w[d] + Sum(w - {d});
    if c != d {
      SumPick(w - {d}, c);
      SumPick(w - {c}, d);
      assert w - {d} - {c} == w - {c} - {d};
    }
  }

  function Get(w: map<ClientID, nat>, c: ClientID): nat {
    if c in w then w[c] else 0
  }

  /** Two weightings that differ at one client only. */
  lemma SumChangeOne(w: map<ClientID, nat>, w': map<ClientID, nat>, c: ClientID)
    requires w - {c} == w' - {c}
    ensures Sum(w) - Get(w, c) == Sum(w') - Get(w', c)
  {
    if c in w { SumPick(w, c); } else { assert w == w - {c}; }
    if c in w' { SumPick(w', c); } else { assert w' == w' - {c}; }
  }

  lemma {:induction false} SumMonotone(w: map<ClientID, nat>, v: map<ClientID, nat>)
    requires w.Keys == v.Keys
    requires forall c :: c in w ==> w[c] <= v[c]
    ensures Sum(w) <= Sum(v)
    decreases |w|
  {
    if w != map[] {
      var c :| c in w;
      SumPick(w, c);
      SumPick(v, c);
      SumMonotone(w - {c}, v - {c});
    }
  }

  // ----- the recount ----------------------------------------------------------------

  ghost function Bindings(s: State, m: ModelID): map<ClientID, nat> {
    map c | c in s.clientModels :: Cnt(s.clientModels[c], m)
  }

  ghost function BindingsUnder(s: State, p: string, m: ModelID): map<ClientID, nat> {
    map c | c in s.clientModels :: if ProviderOf(s, c) == p then Cnt(s.clientModels[c], m) else 0
  }

  /** How often the clients' lists name a model. */
  ghost function Total(s: State, m: ModelID): nat {
    Sum(Bindings(s, m))
  }

  /** The part of that total contributed by clients of provider p; "" is no provider. */
  ghost function Share(s: State, p: string, m: ModelID): nat {
    if p == "" then 0 else Sum(BindingsUnder(s, p, m))
  }

  lemma ShareWithinTotal(s: State, p: string, m: ModelID)
    ensures Share(s, p, m) <= Total(s, m)
  {
    SumMonotone(BindingsUnder(s, p, m), Bindings(s, m));
  }

  function CountOf(r: Option<Reg>): int {
    if r.Some? then r.value.count else 0
  }

  function Tally(r: Option<Reg>, p: string): int {
    if r.Some? then ProviderCount(r.value, p) else 0
  }

  /** No zero entries anywhere, and one definition per provider that supplies the model. */
  ghost predicate Tidy(r: Option<Reg>) {
    r.Some? ==>
      && r.value.count > 0
      && r.value.infoByProvider.Keys == r.value.providers.Keys
      && (forall p :: p in r.value.providers ==> r.value.providers[p] > 0)
  }

  /** Model m's registration (or its absence) is what a recount of the client tables gives. */
  ghost predicate Booked(s: State, m: ModelID) {
    && Tidy(Look(s.models, m))
    && CountOf(Look(s.models, m)) == Total(s, m)
    && (forall p :: Tally(Look(s.models, m), p) == Share(s, p, m))
    && (m in s.models ==> s.models[m].info.id == m)
  }

  ghost predicate ClientTablesAgree(s: State) {
    && (forall c :: c in s.clientModels ==> s.clientModels[c] != [] && "" !in s.clientModels[c])
    && s.clientInfos.Keys == s.clientModels.Keys
    && (forall c, m :: c in s.clientModels ==> (m in s.clientInfos[c] <==> m in s.clientModels[c]))
    && s.clientProviders.Keys <= s.clientModels.Keys
    && (forall c :: c in s.clientProviders ==> s.clientProviders[c] != "")
  }

  /** The registry equals its own recount. */
  ghost predicate Recounted(s: State) {
    && ClientTablesAgree(s)
    && (forall m :: Booked(s, m))
  }

  // ----- how totals move when one client changes ------------------------------------

  function Listing(s: State, c: ClientID): seq<ModelID> {
    if c in s.clientModels then s.clientModels[c] else []
  }

  /** s' is s with client c's entries replaced, nothing else. */
  ghost predicate OnlyClientChanged(s: State, s': State, c: ClientID) {
    forall e :: e != c ==>
      && (e in s.clientModels <==> e in s'.clientModels)
      && Listing(s, e) == Listing(s', e)
      && ProviderOf(s, e) == ProviderOf(s', e)
  }

  function Part(s: State, c: ClientID, p: string, m: ModelID): nat {
    if p != "" && ProviderOf(s, c) == p then Cnt(Listing(s, c), m) else 0
  }

  lemma TotalMoves(s: State, s': State, c: ClientID, m: ModelID)
    requires OnlyClientChanged(s, s', c)
    ensures Total(s', m) == Total(s, m) - Cnt(Listing(s, c), m) + Cnt(Listing(s', c), m)
    ensures Cnt(Listing(s, c), m) <= Total(s, m)
  {
    var w, w' := Bindings(s, m), Bindings(s', m);
    SameOffKey(w, w', c);
    SumChangeOne(w, w', c);
    if c in w { SumPick(w, c); }
  }

  lemma ShareMoves(s: State, s': State, c: ClientID, p: string, m: ModelID)
    requires OnlyClientChanged(s, s', c)
    ensures Share(s', p, m) == Share(s, p, m) - Part(s, c, p, m) + Part(s', c, p, m)
    ensures Part(s, c, p, m) <= Share(s, p, m)
  {
    var w, w' := BindingsUnder(s, p, m), BindingsUnder(s', p, m);
    forall e | e != c
      ensures e in w <==> e in w'
      ensures e in w ==> w[e] == w'[e]
    {
      assert Listing(s, e) == Listing(s', e);
    }
    SameOffKey(w, w', c);
    SumChangeOne(w, w', c);
    if c in w { SumPick(w, c); }
  }

  lemma SameOffKey(w: map<ClientID, nat>, w': map<ClientID, nat>, c: ClientID)
    requires forall e :: e != c ==> (e in w <==> e in w')
    requires forall e :: e != c && e in w ==> w[e] == w'[e]
    ensures w - {c} == w' - {c}
  {
  }

  // ----- the effect of repeated adds and removes ---------------------------------------

  /** The provider-tally change of k bindings under p, as seen at provider q. */
  function SeenAt(q: string, p: string, k: int): int {
    if q == p && p != "" then k else 0
  }

  lemma {:induction false} RemoveTimesEffect(r: Option<Reg>, k: nat, c: ClientID, p: string, now: int)
    requires Tidy(r) && k <= CountOf(r) && (p != "" ==> k <= Tally(r, p))
    ensures var u := RemoveTimes(r, k, c, p, now);
      && Tidy(u) && CountOf(u) == CountOf(r) - k
      && (u.Some? ==> u.value.info == r.value.info && forall q :: Tally(u, q) == Tally(r, q) - SeenAt(q, p, k))
  {
    if k > 0 {
      RemoveTimesEffect(r, k - 1, c, p, now);
      RemoveOneEffect(RemoveTimes(r, k - 1, c, p, now), c, p, now);
    }
  }

  lemma RemoveOneEffect(r: Option<Reg>, c: ClientID, p: string, now: int)
    requires Tidy(r) && r.Some? && (p != "" ==> Tally(r, p) > 0)
    ensures var u := RemoveOne(r, c, p, now);
      && Tidy(u) && CountOf(u) == CountOf(r) - 1
      && (u.Some? ==> u.value.info == r.value.info && forall q :: Tally(u, q) == Tally(r, q) - SeenAt(q, p, 1))
  {
  }

  lemma {:induction false} AddTimesEffect(r: Option<Reg>, k: nat, p: string, info: ModelInfo, now: int)
    requires Tidy(r)
    ensures var u := AddTimes(r, k, p, info, now);
      && Tidy(u) && CountOf(u) == CountOf(r) + k
      && (k > 0 ==> u.value.info == info)
      && forall q :: Tally(u, q) == Tally(r, q) + SeenAt(q, p, k)
  {
    if k > 0 { AddTimesEffect(r, k - 1, p, info, now); }
  }

  lemma WithdrawEffect(g: Reg, p: string, k: nat)
    requires Tidy(Some(g)) && k <= ProviderCount(g, p) && p != ""
    ensures var h := Some(Withdraw(g, p, k));
      && Tidy(h) && CountOf(h) == g.count && h.value.info == g.info
      && forall q :: Tally(h, q) == Tally(Some(g), q) - SeenAt(q, p, k)
  {
  }

  lemma RefreshEffect(r: Option<Reg>, c: ClientID, p: string, info: ModelInfo, moved: nat, now: int)
    requires Tidy(r) && r.Some?
    requires p != "" ==> Tally(r, p) + moved > 0
    ensures var u := Refresh(r, c, p, info, moved, now);
      && Tidy(u) && CountOf(u) == CountOf(r) && u.Some? && u.value.info == info
      && forall q :: Tally(u, q) == Tally(r, q) + SeenAt(q, p, moved)
  {
  }

  /** The removing half of the diff, provider move included. */
  lemma ShrinkEffect(d: Diff, r: Option<Reg>, m: ModelID)
    requires Tidy(r)
    requires d.O(m) <= CountOf(r) && (d.oldProvider != "" ==> d.O(m) <= Tally(r, d.oldProvider))
    ensures var u := StageOverage(d, StageDrop(d, StageMove(d, r, m), m), m);
      var gone := if d.N(m) < d.O(m) then d.O(m) - d.N(m) else 0;
      var away := if d.ProviderChanged() then Min(d.O(m), d.N(m)) else 0;
      && Tidy(u) && CountOf(u) == CountOf(r) - gone
      && (u.Some? ==>
            && u.value.info == r.value.info
            && forall q :: Tally(u, q) == Tally(r, q) - SeenAt(q, d.oldProvider, away + gone))
  {
    var o, n := d.O(m), d.N(m);
    var r1 := StageMove(d, r, m);
    if d.ProviderChanged() && d.oldProvider != "" && n > 0 && o > 0 {
      WithdrawEffect(r.value, d.oldProvider, Min(o, n));
    }
    RemoveTimesEffect(r1, if n < o then o - n else 0, d.client, d.oldProvider, d.now);
  }

  /** The whole diff for one model: the old listing is taken out and the new one put in. */
  lemma ReconcileEffect(d: Diff, r: Option<Reg>, m: ModelID)
    requires d.WellFormed() && Tidy(r)
    requires d.O(m) <= CountOf(r) && (d.oldProvider != "" ==> d.O(m) <= Tally(r, d.oldProvider))
    ensures var u := Reconcile(d, r, m);
      && Tidy(u) && CountOf(u) == CountOf(r) - d.O(m) + d.N(m)
      && (u.Some? ==>
            && u.value.info == (if d.N(m) > 0 then d.infos[m] else r.value.info)
            && forall q :: Tally(u, q) ==
                 Tally(r, q) - SeenAt(q, d.oldProvider, d.O(m)) + SeenAt(q, d.provider, d.N(m)))
  {
    hide StageMove, StageDrop, StageOverage, AddTimes, Refresh;
    var o, n := d.O(m), d.N(m);
    ShrinkEffect(d, r, m);
    var r3 := StageOverage(d, StageDrop(d, StageMove(d, r, m), m), m);
    var r4 := StageAdd(d, r3, m);
    if n > o { AddTimesEffect(r3, n - o, d.provider, d.infos[m], d.now); }
    if n > 0 {
      RefreshEffect(r4, d.client, d.provider, d.infos[m],
                    if d.ProviderChanged() then Min(n, o) else 0, d.now);
    }
  }

  // ----- every operation keeps the recount ----------------------------------------------

  /** Books balance at m after client c's listing changed, given the effect on m's registration. */
  lemma BookedAfter(s: State, u: State, c: ClientID, m: ModelID)
    requires OnlyClientChanged(s, u, c) && Booked(s, m)
    requires Tidy(Look(u.models, m))
    requires CountOf(Look(u.models, m))
      == CountOf(Look(s.models, m)) - Cnt(Listing(s, c), m) + Cnt(Listing(u, c), m)
    requires m in u.models ==> u.models[m].info.id == m
    requires m in u.models ==>
      (forall q :: Tally(Look(u.models, m), q) == Tally(Look(s.models, m), q) - Part(s, c, q, m) + Part(u, c, q, m))
    ensures Booked(u, m)
  {
    hide Total, Share;
    TotalMoves(s, u, c, m);
    forall q
      ensures Tally(Look(u.models, m), q) == Share(u, q, m)
    {
      ShareMoves(s, u, c, q, m);
      ShareWithinTotal(u, q, m);
    }
  }

  /** A client never holds more bindings than the books show. */
  lemma PartWithin(s: State, c: ClientID, m: ModelID)
    requires Booked(s, m)
    ensures Cnt(Listing(s, c), m) <= CountOf(Look(s.models, m))
    ensures ProviderOf(s, c) != "" ==> Cnt(Listing(s, c), m) <= Tally(Look(s.models, m), ProviderOf(s, c))
  {
    TotalMoves(s, s, c, m);
    ShareMoves(s, s, c, ProviderOf(s, c), m);
  }

  /** Client c's entries in u, given what they are in s and everyone else's unchanged. */
  ghost predicate ClientNow(s: State, u: State, c: ClientID, ids: seq<ModelID>, p: string) {
    && OnlyClientChanged(s, u, c)
    && Listing(u, c) == ids
    && (ids != [] ==> ProviderOf(u, c) == p)
    && ClientTablesAgree(u)
  }

  lemma UnregisterTables(s: State, c: ClientID, now: int)
    requires ClientTablesAgree(s)
    ensures ClientNow(s, Unregister(s, c, now), c, [], "")
    ensures c !in Unregister(s, c, now).clientModels
  {
    DropTables(s, Unregister(s, c, now), c);
  }

  lemma DropTables(s: State, u: State, c: ClientID)
    requires ClientTablesAgree(s)
    requires u.clientModels == s.clientModels - {c}
    requires u.clientInfos == s.clientInfos - {c}
    requires u.clientProviders == s.clientProviders - {c}
    ensures ClientNow(s, u, c, [], "")
  {
  }

  lemma UnregisterAt(s: State, c: ClientID, now: int, m: ModelID)
    requires c in s.clientModels
    ensures Look(Unregister(s, c, now).models, m)
      == RemoveTimes(Look(s.models, m), Cnt(Listing(s, c), m), c, ProviderOf(s, c), now)
  {
    if m !in s.models { RemoveTimesNone(Cnt(Listing(s, c), m), c, ProviderOf(s, c), now); }
  }

  lemma {:induction false} RemoveTimesNone(k: nat, c: ClientID, p: string, now: int)
    ensures RemoveTimes(None, k, c, p, now) == None
  {
    if k > 0 { RemoveTimesNone(k - 1, c, p, now); }
  }

  lemma RemovedBooks(s: State, u: State, c: ClientID, now: int, m: ModelID)
    requires Booked(s, m) && ClientNow(s, u, c, [], "")
    requires Look(u.models, m) == RemoveTimes(Look(s.models, m), Cnt(Listing(s, c), m), c, ProviderOf(s, c), now)
    ensures Booked(u, m)
  {
    hide RemoveTimes, Total, Share;
    PartWithin(s, c, m);
    RemoveTimesEffect(Look(s.models, m), Cnt(Listing(s, c), m), c, ProviderOf(s, c), now);
    BookedAfter(s, u, c, m);
  }

  lemma UnregisterKeeps(s: State, c: ClientID, now: int)
    requires Recounted(s)
    ensures Recounted(Unregister(s, c, now))
    ensures c !in Unregister(s, c, now).clientModels
    ensures ClientNow(s, Unregister(s, c, now), c, [], "")
  {
    var u := Unregister(s, c, now);
    UnregisterTables(s, c, now);
    if c in s.clientModels {
      forall m
        ensures Booked(u, m)
      {
        UnregisterAt(s, c, now, m);
        RemovedBooks(s, u, c, now, m);
      }
    } else {
      assert s.clientProviders - {c} == s.clientProviders;
      assert u == s;
    }
  }

  ghost predicate Definitions(ids: seq<ModelID>, infos: map<ModelID, ModelInfo>) {
    && ids != [] && "" !in ids
    && (forall m :: m in infos <==> m in ids)
    && (forall m :: m in infos ==> infos[m].id == m)
  }

  lemma PutTables(s: State, u: State, c: ClientID, p: string, ids: seq<ModelID>, infos: map<ModelID, ModelInfo>)
    requires ClientTablesAgree(s) && Definitions(ids, infos)
    requires u.clientModels == s.clientModels[c := ids]
    requires u.clientInfos == s.clientInfos[c := infos]
    requires u.clientProviders == PutProvider(s.clientProviders, c, p)
    ensures ClientNow(s, u, c, ids, p)
  {
    hide ClientTablesAgree, OnlyClientChanged, PutProvider;
    PutTablesAgree(s, u, c, p, ids, infos);
    PutKeepsOthers(s, u, c, p, ids);
  }

  lemma PutKeepsOthers(s: State, u: State, c: ClientID, p: string, ids: seq<ModelID>)
    requires u.clientModels == s.clientModels[c := ids]
    requires u.clientProviders == PutProvider(s.clientProviders, c, p)
    ensures OnlyClientChanged(s, u, c) && ProviderOf(u, c) == p
  {
  }

  lemma PutTablesAgree(s: State, u: State, c: ClientID, p: string, ids: seq<ModelID>, infos: map<ModelID, ModelInfo>)
    requires ClientTablesAgree(s) && Definitions(ids, infos)
    requires u.clientModels == s.clientModels[c := ids]
    requires u.clientInfos == s.clientInfos[c := infos]
    requires u.clientProviders == PutProvider(s.clientProviders, c, p)
    ensures ClientTablesAgree(u)
  {
    forall e, m | e in u.clientModels
      ensures m in u.clientInfos[e] <==> m in u.clientModels[e]
    {
    }
  }

  lemma FreshTables(s: State, c: ClientID, p: string, ids: seq<ModelID>, infos: map<ModelID, ModelInfo>, now: int)
    requires ClientTablesAgree(s) && Definitions(ids, infos)
    ensures ClientNow(s, RegisterFresh(s, c, p, ids, infos, now), c, ids, p)
  {
    PutTables(s, RegisterFresh(s, c, p, ids, infos, now), c, p, ids, infos);
  }

  lemma FreshAt(s: State, c: ClientID, p: string, ids: seq<ModelID>, infos: map<ModelID, ModelInfo>, now: int,
                m: ModelID)
    requires Definitions(ids, infos)
    ensures Look(RegisterFresh(s, c, p, ids, infos, now).models, m)
      == if m in ids then AddTimes(Look(s.models, m), Cnt(ids, m), p, infos[m], now) else Look(s.models, m)
  {
  }

  lemma FreshBooks(s: State, u: State, c: ClientID, p: string, ids: seq<ModelID>, infos: map<ModelID, ModelInfo>,
                   now: int, m: ModelID)
    requires Booked(s, m) && c !in s.clientModels
    requires Definitions(ids, infos) && ClientNow(s, u, c, ids, p)
    requires Look(u.models, m)
      == if m in ids then AddTimes(Look(s.models, m), Cnt(ids, m), p, infos[m], now) else Look(s.models, m)
    ensures Booked(u, m)
  {
    hide AddTimes, Total, Share;
    if m in ids { AddTimesEffect(Look(s.models, m), Cnt(ids, m), p, infos[m], now); }
    BookedAfter(s, u, c, m);
  }

  lemma ReregisterTables(s: State, c: ClientID, p: string, ids: seq<ModelID>, infos: map<ModelID, ModelInfo>, now: int)
    requires ClientTablesAgree(s) && Definitions(ids, infos) && c in s.clientModels
    ensures ClientNow(s, Reregister(s, c, p, ids, infos, now), c, ids, p)
  {
    PutTables(s, Reregister(s, c, p, ids, infos, now), c, p, ids, infos);
  }

  lemma ReregisterAt(s: State, c: ClientID, p: string, ids: seq<ModelID>, infos: map<ModelID, ModelInfo>, now: int,
                     m: ModelID)
    requires c in s.clientModels && Definitions(ids, infos)
    ensures Look(Reregister(s, c, p, ids, infos, now).models, m)
      == Reconcile(DiffOf(s, c, p, ids, infos, now), Look(s.models, m), m)
  {
    var d := DiffOf(s, c, p, ids, infos, now);
    if m !in s.models && m !in ids { RemoveTimesNone(d.O(m), d.client, d.oldProvider, d.now); }
  }

  lemma ReregisterBooks(s: State, u: State, d: Diff, m: ModelID)
    requires Booked(s, m) && Definitions(d.newIds, d.infos) && ClientNow(s, u, d.client, d.newIds, d.provider)
    requires d.oldIds == Listing(s, d.client) && d.oldProvider == ProviderOf(s, d.client)
    requires Look(u.models, m) == Reconcile(d, Look(s.models, m), m)
    ensures Booked(u, m)
  {
    hide Reconcile, Total, Share, Part, SeenAt, OnlyClientChanged, ClientTablesAgree;
    PartWithin(s, d.client, m);
    ReconcileEffect(d, Look(s.models, m), m);
    PartsSeen(s, d.client, m);
    PartsSeen(u, d.client, m);
    BookedAfter(s, u, d.client, m);
  }

  lemma PartsSeen(s: State, c: ClientID, m: ModelID)
    ensures forall q :: Part(s, c, q, m) == SeenAt(q, ProviderOf(s, c), Cnt(Listing(s, c), m))
  {
  }

  lemma {:induction false} RawIdsNonBlank(models: seq<Option<ModelInfo>>)
    ensures "" !in RawIds(models)
  {
    if models != [] { RawIdsNonBlank(models[..|models| - 1]); }
  }

  /** Registration keeps the recount whichever path it takes. */
  lemma RegisterKeeps(s: State, c: ClientID, provider: string, models: seq<Option<ModelInfo>>, now: int)
    requires Recounted(s)
    ensures Recounted(Register(s, c, provider, models, now))
    ensures ClientNow(s, Register(s, c, provider, models, now), c, RawIds(models), Text.ToLower(provider))
  {
    hide Recounted, ClientNow, Unregister, RegisterFresh, Reregister;
    var p, ids, infos := Text.ToLower(provider), RawIds(models), FirstInfos(models);
    RawIdsNonBlank(models);
    if ids == [] {
      ForgetKeeps(s, c, p, now);
    } else if c !in s.clientModels {
      RegisterFreshKeeps(s, c, p, ids, infos, now);
    } else {
      ReregisterKeeps(s, c, p, ids, infos, now);
    }
  }

  /** Registering nothing is unregistering: there is nothing left to remove. */
  lemma ForgetKeeps(s: State, c: ClientID, p: string, now: int)
    requires Recounted(s)
    ensures Recounted(Forget(s, c, now)) && ClientNow(s, Forget(s, c, now), c, [], p)
  {
    hide Unregister, Booked;
    UnregisterKeeps(s, c, now);
    UnregisterLeavesNothing(s, c, now);
    var u := Unregister(s, c, now);
    assert u.clientModels - {c} == u.clientModels && u.clientInfos - {c} == u.clientInfos;
    assert u.clientProviders - {c} == u.clientProviders;
    assert Forget(s, c, now) == u;
  }

  lemma UnregisterLeavesNothing(s: State, c: ClientID, now: int)
    requires ClientTablesAgree(s)
    ensures var u := Unregister(s, c, now);
      && u.clientModels == s.clientModels - {c} && u.clientInfos == s.clientInfos - {c}
      && u.clientProviders == s.clientProviders - {c}
  {
    if c !in s.clientModels {
      assert s.clientModels - {c} == s.clientModels && s.clientInfos - {c} == s.clientInfos;
    }
  }

  lemma RegisterFreshKeeps(s: State, c: ClientID, p: string, ids: seq<ModelID>, infos: map<ModelID, ModelInfo>,
                           now: int)
    requires Recounted(s) && Definitions(ids, infos) && c !in s.clientModels
    ensures Recounted(RegisterFresh(s, c, p, ids, infos, now))
    ensures ClientNow(s, RegisterFresh(s, c, p, ids, infos, now), c, ids, p)
  {
    FreshTables(s, c, p, ids, infos, now);
    forall m
      ensures Booked(RegisterFresh(s, c, p, ids, infos, now), m)
    {
      FreshAt(s, c, p, ids, infos, now, m);
      FreshBooks(s, RegisterFresh(s, c, p, ids, infos, now), c, p, ids, infos, now, m);
    }
  }

  lemma ReregisterKeeps(s: State, c: ClientID, p: string, ids: seq<ModelID>, infos: map<ModelID, ModelInfo>, now: int)
    requires Recounted(s) && Definitions(ids, infos) && c in s.clientModels
    ensures Recounted(Reregister(s, c, p, ids, infos, now))
    ensures ClientNow(s, Reregister(s, c, p, ids, infos, now), c, ids, p)
  {
    ReregisterTables(s, c, p, ids, infos, now);
    forall m
      ensures Booked(Reregister(s, c, p, ids, infos, now), m)
    {
      ReregisterAt(s, c, p, ids, infos, now, m);
      ReregisterBooks(s, Reregister(s, c, p, ids, infos, now), DiffOf(s, c, p, ids, infos, now), m);
    }
  }

  /** Operations that leave counts, providers and client tables alone. */
  ghost predicate OnlyTransient(s: State, u: State) {
    && u.clientModels == s.clientModels && u.clientInfos == s.clientInfos && u.clientProviders == s.clientProviders
    && u.models.Keys == s.models.Keys
    && forall m :: m in s.models ==>
         && u.models[m].count == s.models[m].count && u.models[m].info == s.models[m].info
         && u.models[m].providers == s.models[m].providers
         && u.models[m].infoByProvider == s.models[m].infoByProvider
  }

  lemma SameTablesSameTotals(s: State, t: State, p: string, m: ModelID)
    requires s.clientModels == t.clientModels && s.clientProviders == t.clientProviders
    ensures Total(s, m) == Total(t, m) && Share(s, p, m) == Share(t, p, m)
  {
    assert Bindings(s, m) == Bindings(t, m);
    assert BindingsUnder(s, p, m) == BindingsUnder(t, p, m);
  }

  lemma TransientKeeps(s: State, u: State)
    requires Recounted(s) && OnlyTransient(s, u)
    ensures Recounted(u)
  {
    forall m
      ensures Booked(u, m)
    {
      assert Booked(s, m);
      forall p
        ensures Tally(Look(u.models, m), p) == Share(u, p, m)
        ensures Total(u, m) == Total(s, m)
      {
        SameTablesSameTotals(s, u, p, m);
        assert Tally(Look(u.models, m), p) == Tally(Look(s.models, m), p);
      }
      assert Tally(Look(u.models, m), "") == Share(u, "", m);
    }
  }

  // ----- whole runs --------------------------------------------------------------------

  datatype Op =
    | OpRegister(client: ClientID, provider: string, models: seq<Option<ModelInfo>>, now: int)
    | OpUnregister(client: ClientID, now: int)
    | OpSetQuota(client: ClientID, model: ModelID, now: int)
    | OpClearQuota(client: ClientID, model: ModelID)
    | OpSuspend(client: ClientID, model: ModelID, reason: string, now: int)
    | OpResume(client: ClientID, model: ModelID, now: int)
    | OpCleanup(now: int)

  ghost function Apply(s: State, op: Op): State {
    match op
    case OpRegister(c, p, ms, now) => Register(s, c, p, ms, now)
    case OpUnregister(c, now) => Unregister(s, c, now)
    case OpSetQuota(c, m, now) => SetQuota(s, c, m, now)
    case OpClearQuota(c, m) => ClearQuota(s, c, m)
    case OpSuspend(c, m, reason, now) => Suspend(s, c, m, reason, now)
    case OpResume(c, m, now) => Resume(s, c, m, now)
    case OpCleanup(now) => Cleanup(s, now)
  }

  ghost function Run(s: State, ops: seq<Op>): State {
    if ops == [] then s else Apply(Run(s, ops[..|ops| - 1]), ops[|ops| - 1])
  }

  lemma TouchIsTransient(s: State, m: ModelID, g: Reg)
    requires m in s.models
    requires g.count == s.models[m].count && g.info == s.models[m].info
    requires g.providers == s.models[m].providers && g.infoByProvider == s.models[m].infoByProvider
    ensures OnlyTransient(s, Touch(s, m, g))
  {
  }

  lemma QuotaKeeps(s: State, c: ClientID, m: ModelID, now: int)
    requires Recounted(s)
    ensures Recounted(SetQuota(s, c, m, now)) && Recounted(ClearQuota(s, c, m)) && Recounted(Cleanup(s, now))
  {
    if m in s.models {
      TouchIsTransient(s, m, s.models[m].(quota := s.models[m].quota[c := now]));
      TouchIsTransient(s, m, s.models[m].(quota := s.models[m].quota - {c}));
      TransientKeeps(s, SetQuota(s, c, m, now));
      TransientKeeps(s, ClearQuota(s, c, m));
    }
    TransientKeeps(s, Cleanup(s, now));
  }

  lemma SuspensionKeeps(s: State, c: ClientID, m: ModelID, reason: string, now: int)
    requires Recounted(s)
    ensures Recounted(Suspend(s, c, m, reason, now)) && Recounted(Resume(s, c, m, now))
  {
    if Suspend(s, c, m, reason, now) != s {
      TouchIsTransient(s, m, Suspend(s, c, m, reason, now).models[m]);
      TransientKeeps(s, Suspend(s, c, m, reason, now));
    }
    if Resume(s, c, m, now) != s {
      TouchIsTransient(s, m, Resume(s, c, m, now).models[m]);
      TransientKeeps(s, Resume(s, c, m, now));
    }
  }

  lemma ApplyKeeps(s: State, op: Op)
    requires Recounted(s)
    ensures Recounted(Apply(s, op))
  {
    match op
    case OpRegister(c, p, ms, now) => RegisterKeeps(s, c, p, ms, now);
    case OpUnregister(c, now) => UnregisterKeeps(s, c, now);
    case OpSetQuota(c, m, now) => QuotaKeeps(s, c, m, now);
    case OpClearQuota(c, m) => QuotaKeeps(s, c, m, 0);
    case OpSuspend(c, m, reason, now) => SuspensionKeeps(s, c, m, reason, now);
    case OpResume(c, m, now) => SuspensionKeeps(s, c, m, "", now);
    case OpCleanup(now) => QuotaKeeps(s, "", "", now);
  }

  /** What a run leaves registered for one client: its last registration, unless since unregistered. */
  function LastListing(ops: seq<Op>, c: ClientID): (seq<ModelID>, string) {
    if ops == [] then ([], "")
    else
      match ops[|ops| - 1]
      case OpRegister(e, p, ms, _) =>
        if e != c then LastListing(ops[..|ops| - 1], c)
        else if RawIds(ms) == [] then ([], "") else (RawIds(ms), Text.ToLower(p))
      case OpUnregister(e, _) => if e == c then ([], "") else LastListing(ops[..|ops| - 1], c)
      case _ => LastListing(ops[..|ops| - 1], c)
  }

  /** One step changes what is registered for the client it names and for nobody else. */
  lemma ApplyListing(s: State, op: Op, c: ClientID)
    requires Recounted(s)
    ensures var u := Apply(s, op);
      (Listing(u, c), ProviderOf(u, c)) ==
        match op
        case OpRegister(e, p, ms, _) =>
          if e != c then (Listing(s, c), ProviderOf(s, c))
          else if RawIds(ms) == [] then ([], "") else (RawIds(ms), Text.ToLower(p))
        case OpUnregister(e, _) => if e == c then ([], "") else (Listing(s, c), ProviderOf(s, c))
        case _ => (Listing(s, c), ProviderOf(s, c))
  {
    match op
    case OpRegister(e, p, ms, now) => RegisterKeeps(s, e, p, ms, now);
    case OpUnregister(e, now) => UnregisterKeeps(s, e, now);
    case _ =>
  }

  /** Every run of the registry from empty ends in the recount of what the clients last registered. */
  lemma {:induction false} EveryRunIsRecounted(ops: seq<Op>)
    ensures Recounted(Run(EMPTY, ops))
  {
    if ops == [] {
      forall m
        ensures Booked(EMPTY, m)
      {
        assert Bindings(EMPTY, m) == map[];
        forall p
          ensures Share(EMPTY, p, m) == 0
        {
          assert BindingsUnder(EMPTY, p, m) == map[];
        }
      }
    } else {
      EveryRunIsRecounted(ops[..|ops| - 1]);
      ApplyKeeps(Run(EMPTY, ops[..|ops| - 1]), ops[|ops| - 1]);
    }
  }

  lemma {:induction false} RunListsLastRegistration(ops: seq<Op>, c: ClientID)
    ensures (Listing(Run(EMPTY, ops), c), ProviderOf(Run(EMPTY, ops), c)) == LastListing(ops, c)
  {
    if ops != [] {
      var before := ops[..|ops| - 1];
      EveryRunIsRecounted(before);
      RunListsLastRegistration(before, c);
      ApplyListing(Run(EMPTY, before), ops[|ops| - 1], c);
    }
  }

  /** Counts and tallies depend on the client tables alone. */
  lemma RecountIsUnique(s: State, t: State, m: ModelID)
    requires Recounted(s) && Recounted(t)
    requires s.clientModels == t.clientModels && s.clientProviders == t.clientProviders
    ensures SameCounts(Look(s.models, m), Look(t.models, m))
  {
    assert Booked(s, m) && Booked(t, m);
    SameTablesSameTotals(s, t, "", m);
    if m in s.models {
      var g, h := s.models[m], t.models[m];
      forall p
        ensures ProviderCount(g, p) == ProviderCount(h, p)
      {
        SameTablesSameTotals(s, t, p, m);
        assert Tally(Some(g), p) == Share(s, p, m);
        assert Tally(Some(h), p) == Share(t, p, m);
      }
      SameTallies(g, h);
    }
  }

  lemma SameTallies(g: Reg, h: Reg)
    requires Tidy(Some(g)) && Tidy(Some(h))
    requires forall p :: ProviderCount(g, p) == ProviderCount(h, p)
    ensures g.providers == h.providers
  {
    forall p
      ensures p in g.providers <==> p in h.providers
      ensures p in g.providers ==> g.providers[p] == h.providers[p]
    {
      assert ProviderCount(g, p) == ProviderCount(h, p);
    }
  }

  /** Same presence, count, provider tallies and provider-specific keys. */
  ghost predicate SameCounts(r: Option<Reg>, t: Option<Reg>) {
    && r.Some? == t.Some?
    && (r.Some? ==>
          && r.value.count == t.value.count
          && r.value.providers == t.value.providers
          && r.value.infoByProvider.Keys == t.value.infoByProvider.Keys)
  }

  /**
   Reconciling a client in place gives the same models, counts and provider tallies
   as forgetting the client and registering it afresh.
   */
  lemma DiffEqualsForgetThenRegister(s: State, c: ClientID, provider: string, models: seq<Option<ModelInfo>>,
                                     now: int, m: ModelID)
    requires Recounted(s)
    ensures var diff := Register(s, c, provider, models, now);
      var scratch := Register(Unregister(s, c, now), c, provider, models, now);
      && SameCounts(Look(diff.models, m), Look(scratch.models, m))
      && diff.clientModels == scratch.clientModels && diff.clientInfos == scratch.clientInfos
      && diff.clientProviders == scratch.clientProviders
  {
    hide Register, Unregister, Recounted;
    var u := Unregister(s, c, now);
    var diff := Register(s, c, provider, models, now);
    var scratch := Register(u, c, provider, models, now);
    SameInfos(s, c, provider, models, now);
    RegisterKeeps(s, c, provider, models, now);
    UnregisterKeeps(s, c, now);
    RegisterKeeps(u, c, provider, models, now);
    RecountedTables(diff, m);
    RecountedTables(scratch, m);
    SameTables(s, u, diff, scratch, c);
    RecountIsUnique(diff, scratch, m);
  }

  lemma RecountedTables(s: State, m: ModelID)
    requires Recounted(s)
    ensures ClientTablesAgree(s) && Booked(s, m)
  {
  }

  /** Either way the client's definitions are the first ones supplied, and nobody else's change. */
  lemma SameInfos(s: State, c: ClientID, provider: string, models: seq<Option<ModelInfo>>, now: int)
    requires Recounted(s)
    ensures Register(s, c, provider, models, now).clientInfos
      == Register(Unregister(s, c, now), c, provider, models, now).clientInfos
  {
    hide Recounted, Register, Unregister, FirstInfos, RawIds, ClientNow;
    InfosAfter(s, c, provider, models, now);
    UnregisterKeeps(s, c, now);
    UnregisteredInfos(s, c, now);
    InfosAfter(Unregister(s, c, now), c, provider, models, now);
    var infos := FirstInfos(models);
    assert s.clientInfos - {c} - {c} == s.clientInfos - {c};
    assert (s.clientInfos - {c})[c := infos] == s.clientInfos[c := infos];
  }

  lemma UnregisteredInfos(s: State, c: ClientID, now: int)
    requires Recounted(s)
    ensures Unregister(s, c, now).clientInfos == s.clientInfos - {c}
  {
    hide Booked, RemoveTimes;
    assert c !in s.clientModels ==> s.clientInfos - {c} == s.clientInfos;
  }

  lemma InfosAfter(s: State, c: ClientID, provider: string, models: seq<Option<ModelInfo>>, now: int)
    requires Recounted(s)
    ensures Register(s, c, provider, models, now).clientInfos
      == if RawIds(models) == [] then s.clientInfos - {c} else s.clientInfos[c := FirstInfos(models)]
  {
    hide Booked, Unregister, Reconcile, AddTimes;
    UnregisteredInfos(s, c, now);
    assert s.clientInfos - {c} - {c} == s.clientInfos - {c};
  }

  lemma SameTables(s: State, u: State, diff: State, scratch: State, c: ClientID)
    requires ClientTablesAgree(diff) && ClientTablesAgree(scratch)
    requires OnlyClientChanged(s, diff, c) && OnlyClientChanged(u, scratch, c) && OnlyClientChanged(s, u, c)
    requires Listing(diff, c) == Listing(scratch, c)
    requires Listing(diff, c) != [] ==> ProviderOf(diff, c) == ProviderOf(scratch, c)
    ensures diff.clientModels == scratch.clientModels
    ensures diff.clientProviders == scratch.clientProviders
  {
    forall e
      ensures Listing(diff, e) == Listing(scratch, e) && ProviderOf(diff, e) == ProviderOf(scratch, e)
    {
      if e != c {
        assert Listing(s, e) == Listing(diff, e);
        assert Listing(s, e) == Listing(u, e);
        assert Listing(u, e) == Listing(scratch, e);
      }
    }
    SameListings(diff, scratch);
  }

  lemma SameListings(s: State, t: State)
    requires ClientTablesAgree(s) && ClientTablesAgree(t)
    requires forall e :: Listing(s, e) == Listing(t, e) && ProviderOf(s, e) == ProviderOf(t, e)
    ensures s.clientModels == t.clientModels
    ensures s.clientProviders == t.clientProviders
  {
    forall e
      ensures e in s.clientModels <==> e in t.clientModels
      ensures e in s.clientModels ==> s.clientModels[e] == t.clientModels[e]
      ensures e in s.clientProviders <==> e in t.clientProviders
      ensures e in s.clientProviders ==> s.clientProviders[e] == t.clientProviders[e]
    {
      assert Listing(s, e) == Listing(t, e);
      assert e in s.clientProviders <==> ProviderOf(s, e) != "";
      assert e in t.clientProviders <==> ProviderOf(t, e) != "";
    }
  }
}
