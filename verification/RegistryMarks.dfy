/**
 What each registry operation does to the cooldown and suspension marks, and which
 definition of a model the registry shows.
 */
module RegistryMarks {
  import opened Prelude
  import opened RegistrySpec
  import opened RegistryRecount
  import opened RegistryTransient
  import opened RegistryAvailability
  import Text

  // ----- marks ------------------------------------------------------------------------------------

  /** A registration makes a client re-listed or dropped somewhere lose its marks there. */
  ghost predicate Forgets(s: State, op: Op, m: ModelID, c: ClientID) {
    match op
    case OpUnregister(e, _) => c == e && m in Listing(s, e)
    case OpRegister(e, _, supplied, _) =>
      c == e && e in s.clientModels && (m in Listing(s, e) || m in RawIds(supplied))
    case _ => false
  }

  /** The client's cooldown on a model that is registered afterwards. */
  ghost function CooldownAfter(s: State, op: Op, m: ModelID, c: ClientID): Option<int> {
    var before := CooldownOf(s, m, c);
    match op
    case OpSetQuota(e, k, now) => if e == c && k == m then Some(now) else before
    case OpClearQuota(e, k) => if e == c && k == m then None else before
    case OpCleanup(now) => if before.Some? && now - before.value >= 300 then None else before
    case _ => if Forgets(s, op, m, c) then None else before
  }

  /** And its suspension. Only the first reason counts, and blank names are ignored. */
  ghost function SuspensionAfter(s: State, op: Op, m: ModelID, c: ClientID): Option<string> {
    var before := SuspensionOf(s, m, c);
    match op
    case OpSuspend(e, k, reason, _) =>
      if e == c && k == m && c != "" && m != "" && before.None? then Some(reason) else before
    case OpResume(e, k, _) => if e == c && k == m && c != "" && m != "" then None else before
    case _ => if Forgets(s, op, m, c) then None else before
  }

  /** Every operation changes the marks it names, and no others. */
  lemma MarksFollow(s: State, op: Op, m: ModelID, c: ClientID)
    requires Recounted(s) && m in Apply(s, op).models
    ensures CooldownOf(Apply(s, op), m, c) == CooldownAfter(s, op, m, c)
    ensures SuspensionOf(Apply(s, op), m, c) == SuspensionAfter(s, op, m, c)
  {
    hide Recounted, Register, Unregister, CooldownOf, SuspensionOf, Booked, ClientTablesAgree;
    RecountedTables(s, m);
    match op
    case OpRegister(e, provider, supplied, now) => RegisterMarks(s, e, provider, supplied, now, m, c);
    case OpUnregister(e, now) => UnregisterMarks(s, e, now, m, c);
    case _ => TransientMarks(s, op, m, c);
  }

  lemma TransientMarks(s: State, op: Op, m: ModelID, c: ClientID)
    requires !op.OpRegister? && !op.OpUnregister? && m in Apply(s, op).models
    ensures CooldownOf(Apply(s, op), m, c) == CooldownAfter(s, op, m, c)
    ensures SuspensionOf(Apply(s, op), m, c) == SuspensionAfter(s, op, m, c)
  {
    hide Register, Unregister, Forgets, CooldownOf, SuspensionOf, SetQuota, ClearQuota, Suspend, Resume, Cleanup;
    NothingForgotten(s, op, m, c);
    match op
    case OpSetQuota(e, k, now) => SetQuotaMarks(s, e, k, now, m, c);
    case OpClearQuota(e, k) => ClearQuotaMarks(s, e, k, m, c);
    case OpSuspend(e, k, reason, now) => SuspendMarks(s, e, k, reason, now, m, c);
    case OpResume(e, k, now) => ResumeMarks(s, e, k, now, m, c);
    case OpCleanup(now) => CleanupMarks(s, now, m, c);
  }

  lemma SetQuotaMarks(s: State, e: ClientID, k: ModelID, now: int, m: ModelID, c: ClientID)
    requires m in SetQuota(s, e, k, now).models
    ensures var u := SetQuota(s, e, k, now);
      && CooldownOf(u, m, c) == (if e == c && k == m then Some(now) else CooldownOf(s, m, c))
      && SuspensionOf(u, m, c) == SuspensionOf(s, m, c)
  {
  }

  lemma ClearQuotaMarks(s: State, e: ClientID, k: ModelID, m: ModelID, c: ClientID)
    ensures var u := ClearQuota(s, e, k);
      && CooldownOf(u, m, c) == (if e == c && k == m then None else CooldownOf(s, m, c))
      && SuspensionOf(u, m, c) == SuspensionOf(s, m, c)
  {
  }

  lemma SuspendMarks(s: State, e: ClientID, k: ModelID, reason: string, now: int, m: ModelID, c: ClientID)
    requires m in Suspend(s, e, k, reason, now).models
    ensures var u, before := Suspend(s, e, k, reason, now), SuspensionOf(s, m, c);
      && CooldownOf(u, m, c) == CooldownOf(s, m, c)
      && SuspensionOf(u, m, c) ==
           (if e == c && k == m && c != "" && m != "" && before.None? then Some(reason) else before)
  {
  }

  lemma ResumeMarks(s: State, e: ClientID, k: ModelID, now: int, m: ModelID, c: ClientID)
    ensures var u, before := Resume(s, e, k, now), SuspensionOf(s, m, c);
      && CooldownOf(u, m, c) == CooldownOf(s, m, c)
      && SuspensionOf(u, m, c) == (if e == c && k == m && c != "" && m != "" then None else before)
  {
  }

  lemma CleanupMarks(s: State, now: int, m: ModelID, c: ClientID)
    ensures var u, before := Cleanup(s, now), CooldownOf(s, m, c);
      && CooldownOf(u, m, c) == (if before.Some? && now - before.value >= 300 then None else before)
      && SuspensionOf(u, m, c) == SuspensionOf(s, m, c)
  {
  }

  lemma NothingForgotten(s: State, op: Op, m: ModelID, c: ClientID)
    requires !op.OpRegister? && !op.OpUnregister?
    ensures !Forgets(s, op, m, c)
  {
  }

  lemma UnregisterMarks(s: State, e: ClientID, now: int, m: ModelID, c: ClientID)
    requires ClientTablesAgree(s) && m in Unregister(s, e, now).models
    ensures var u, gone := Unregister(s, e, now), c == e && m in Listing(s, e);
      && CooldownOf(u, m, c) == (if gone then None else CooldownOf(s, m, c))
      && SuspensionOf(u, m, c) == (if gone then None else SuspensionOf(s, m, c))
  {
    hide RemoveTimes;
    UnregisterClearsListedMarks(s, e, now, m);
    var g, h := Unregister(s, e, now).models[m], s.models[m];
    if c != e {
      assert c in g.quota <==> c in h.quota by { assert c in g.quota - {e} <==> c in h.quota - {e}; }
      assert c in g.suspended <==> c in h.suspended by { assert c in g.suspended - {e} <==> c in h.suspended - {e}; }
      assert c in g.quota ==> g.quota[c] == (g.quota - {e})[c] && h.quota[c] == (h.quota - {e})[c];
      assert c in g.suspended ==> g.suspended[c] == (g.suspended - {e})[c] && h.suspended[c] == (h.suspended - {e})[c];
    } else if m !in Listing(s, e) {
      UnlistedIsUntouched(s, e, now, m);
    }
  }

  lemma UnlistedIsUntouched(s: State, e: ClientID, now: int, m: ModelID)
    requires m in Unregister(s, e, now).models && m !in Listing(s, e)
    ensures m in s.models && Unregister(s, e, now).models[m] == s.models[m]
  {
    if e in s.clientModels { assert Cnt(s.clientModels[e], m) == 0; }
  }

  lemma RegisterMarks(s: State, e: ClientID, provider: string, supplied: seq<Option<ModelInfo>>, now: int,
                      m: ModelID, c: ClientID)
    requires Recounted(s) && m in Register(s, e, provider, supplied, now).models
    ensures var u := Register(s, e, provider, supplied, now);
      var gone := c == e && e in s.clientModels && (m in Listing(s, e) || m in RawIds(supplied));
      && CooldownOf(u, m, c) == (if gone then None else CooldownOf(s, m, c))
      && SuspensionOf(u, m, c) == (if gone then None else SuspensionOf(s, m, c))
  {
    hide Recounted, Unregister, RegisterFresh, Reregister, FirstInfos, Booked;
    var p, ids, infos := Text.ToLower(provider), RawIds(supplied), FirstInfos(supplied);
    RecountedTables(s, m);
    RawIdsNonBlank(supplied);
    if ids == [] {
      UnregisterMarks(s, e, now, m, c);
    } else if e !in s.clientModels {
      FreshMarks(s, e, p, ids, infos, now, m);
      MarksAt(s, RegisterFresh(s, e, p, ids, infos, now), m, e, false, c);
    } else {
      ReregisterMarks(s, e, p, ids, infos, now, m);
      MarksAt(s, Reregister(s, e, p, ids, infos, now), m, e, m in Listing(s, e) || m in ids, c);
    }
  }

  lemma FreshMarks(s: State, e: ClientID, p: string, ids: seq<ModelID>, infos: map<ModelID, ModelInfo>, now: int,
                   m: ModelID)
    requires Booked(s, m) && Definitions(ids, infos) && m in RegisterFresh(s, e, p, ids, infos, now).models
    ensures MarksKept(s, RegisterFresh(s, e, p, ids, infos, now), m, e, false)
  {
    hide AddTimes;
    FreshAt(s, e, p, ids, infos, now, m);
    if m in s.models { NoBlankProvider(s, m); }
    if m in ids { AddTimesMarks(Look(s.models, m), Cnt(ids, m), p, infos[m], now); }
  }

  lemma ReregisterMarks(s: State, e: ClientID, p: string, ids: seq<ModelID>, infos: map<ModelID, ModelInfo>, now: int,
                        m: ModelID)
    requires Booked(s, m) && e in s.clientModels && Definitions(ids, infos)
    requires m in Reregister(s, e, p, ids, infos, now).models
    ensures MarksKept(s, Reregister(s, e, p, ids, infos, now), m, e, m in Listing(s, e) || m in ids)
  {
    hide Reregister, Booked;
    var d, r := DiffOf(s, e, p, ids, infos, now), Look(s.models, m);
    ReregisterAt(s, e, p, ids, infos, now, m);
    PartWithin(s, e, m);
    BookedIsTidy(s, m);
    if m in s.models { NoBlankProvider(s, m); }
    if d.N(m) > 0 {
      ReconcileMarks(d, r, m);
    } else {
      DroppedAt(d, r, m);
      RemoveTimesMarks(r, d.O(m), e, d.oldProvider, now);
      RemoveTimesNone(d.O(m), e, d.oldProvider, now);
    }
  }

  lemma BookedIsTidy(s: State, m: ModelID)
    requires Booked(s, m)
    ensures Tidy(Look(s.models, m))
  {
  }

  lemma DroppedAt(d: Diff, r: Option<Reg>, m: ModelID)
    requires d.WellFormed() && d.N(m) == 0
    ensures Reconcile(d, r, m) == RemoveTimes(r, d.O(m), d.client, d.oldProvider, d.now)
  {
    hide RemoveTimes;
  }

  /** All marks on the model stay, but those of client e if it is to be forgotten; a new registration has none. */
  ghost predicate MarksKept(s: State, u: State, m: ModelID, e: ClientID, forgotten: bool) {
    m in u.models &&
    var g := u.models[m];
    if m !in s.models then g.quota == map[] && g.suspended == map[]
    else if forgotten then g.quota == s.models[m].quota - {e} && g.suspended == s.models[m].suspended - {e}
    else g.quota == s.models[m].quota && g.suspended == s.models[m].suspended
  }

  lemma MarksAt(s: State, u: State, m: ModelID, e: ClientID, forgotten: bool, c: ClientID)
    requires MarksKept(s, u, m, e, forgotten)
    ensures CooldownOf(u, m, c) == if forgotten && c == e then None else CooldownOf(s, m, c)
    ensures SuspensionOf(u, m, c) == if forgotten && c == e then None else SuspensionOf(s, m, c)
  {
  }

  // ----- definitions ------------------------------------------------------------------------------------

  /** The first definition supplied under an id. */
  ghost predicate FirstSupplied(supplied: seq<Option<ModelInfo>>, m: ModelID, info: ModelInfo) {
    exists i :: 0 <= i < |supplied| && supplied[i] == Some(info) && info.id == m
                && forall j :: 0 <= j < i ==> supplied[j].None? || supplied[j].value.id != m
  }

  lemma {:induction false} FirstInfosAreFirst(supplied: seq<Option<ModelInfo>>, m: ModelID)
    requires m in RawIds(supplied)
    ensures FirstSupplied(supplied, m, FirstInfos(supplied)[m])
  {
    var n := |supplied| - 1;
    var front, last := supplied[..n], supplied[n];
    if m in RawIds(front) {
      FirstInfosAreFirst(front, m);
      var info := FirstInfos(front)[m];
      var i :| 0 <= i < |front| && front[i] == Some(info) && info.id == m
               && forall j :: 0 <= j < i ==> front[j].None? || front[j].value.id != m;
      assert supplied[i] == Some(info);
      forall j | 0 <= j < i
        ensures supplied[j].None? || supplied[j].value.id != m
      {
        assert supplied[j] == front[j];
      }
    } else {
      forall j | 0 <= j < n
        ensures supplied[j].None? || supplied[j].value.id != m
      {
        if supplied[j].Some? && supplied[j].value.id == m { SuppliedIsRaw(front, j); }
      }
      assert supplied[n] == Some(FirstInfos(supplied)[m]);
    }
  }

  lemma {:induction false} SuppliedIsRaw(supplied: seq<Option<ModelInfo>>, j: nat)
    requires j < |supplied| && supplied[j].Some? && supplied[j].value.id != ""
    ensures supplied[j].value.id in RawIds(supplied)
  {
    if j < |supplied| - 1 { SuppliedIsRaw(supplied[..|supplied| - 1], j); }
  }

  /** The models supplied by the last registration that listed m. */
  function Supplied(ops: seq<Op>, m: ModelID): Option<seq<Option<ModelInfo>>> {
    if ops == [] then None
    else
      var op := ops[|ops| - 1];
      if op.OpRegister? && m in RawIds(op.models) then Some(op.models) else Supplied(ops[..|ops| - 1], m)
  }

  /** And those by the last one under that provider. */
  function SuppliedUnder(ops: seq<Op>, m: ModelID, p: string): Option<seq<Option<ModelInfo>>> {
    if ops == [] then None
    else
      var op := ops[|ops| - 1];
      if op.OpRegister? && m in RawIds(op.models) && Text.ToLower(op.provider) == p then Some(op.models)
      else SuppliedUnder(ops[..|ops| - 1], m, p)
  }

  ghost predicate DefinedBy(supplied: Option<seq<Option<ModelInfo>>>, m: ModelID, info: ModelInfo) {
    supplied.Some? && FirstSupplied(supplied.value, m, info)
  }

  /** What one operation does to the definitions of a model registered afterwards. */
  lemma DefinitionsAfter(s: State, op: Op, m: ModelID)
    requires Recounted(s) && m in Apply(s, op).models
    ensures var u := Look(Apply(s, op).models, m);
      if op.OpRegister? && m in RawIds(op.models) then
        var info := FirstInfos(op.models)[m];
        u.value.info == info && DefinitionsFollow(u, Look(s.models, m), Text.ToLower(op.provider), info)
      else m in s.models && u.value.info == s.models[m].info && DefinitionsShrink(u, Look(s.models, m))
  {
    hide Recounted, Register, Unregister, DefinitionsFollow, DefinitionsShrink, FirstInfos, RawIds;
    RecountedTables(s, m);
    match op
    case OpRegister(e, provider, supplied, now) => RegisterDefines(s, e, provider, supplied, now, m);
    case OpUnregister(e, now) => UnregisterDefines(s, e, now, m);
    case _ => TransientDefines(s, op, m);
  }

  lemma TransientDefines(s: State, op: Op, m: ModelID)
    requires !op.OpRegister? && !op.OpUnregister? && m in Apply(s, op).models
    ensures m in s.models && Apply(s, op).models[m].info == s.models[m].info
    ensures DefinitionsShrink(Look(Apply(s, op).models, m), Look(s.models, m))
  {
  }

  lemma UnregisterDefines(s: State, e: ClientID, now: int, m: ModelID)
    requires Booked(s, m) && m in Unregister(s, e, now).models
    ensures m in s.models && Unregister(s, e, now).models[m].info == s.models[m].info
    ensures DefinitionsShrink(Look(Unregister(s, e, now).models, m), Look(s.models, m))
  {
    hide RemoveTimes;
    if e in s.clientModels {
      var k := Cnt(Listing(s, e), m);
      UnregisterAt(s, e, now, m);
      PartWithin(s, e, m);
      RemoveTimesMarks(Look(s.models, m), k, e, ProviderOf(s, e), now);
      RemoveTimesEffect(Look(s.models, m), k, e, ProviderOf(s, e), now);
      RemoveTimesNone(k, e, ProviderOf(s, e), now);
    }
  }

  lemma RegisterDefines(s: State, e: ClientID, provider: string, supplied: seq<Option<ModelInfo>>, now: int,
                        m: ModelID)
    requires Recounted(s) && m in Register(s, e, provider, supplied, now).models
    ensures var u := Look(Register(s, e, provider, supplied, now).models, m);
      if m in RawIds(supplied) then
        var info := FirstInfos(supplied)[m];
        u.value.info == info && DefinitionsFollow(u, Look(s.models, m), Text.ToLower(provider), info)
      else m in s.models && u.value.info == s.models[m].info && DefinitionsShrink(u, Look(s.models, m))
  {
    hide Recounted, Unregister, RegisterFresh, Reregister, FirstInfos, Booked, DefinitionsFollow, DefinitionsShrink;
    var p, ids, infos := Text.ToLower(provider), RawIds(supplied), FirstInfos(supplied);
    RecountedTables(s, m);
    RawIdsNonBlank(supplied);
    if ids == [] {
      UnregisterDefines(s, e, now, m);
    } else if e !in s.clientModels {
      FreshDefines(s, e, p, ids, infos, now, m);
    } else {
      ReregisterDefines(s, e, p, ids, infos, now, m);
    }
  }

  lemma FreshDefines(s: State, e: ClientID, p: string, ids: seq<ModelID>, infos: map<ModelID, ModelInfo>, now: int,
                     m: ModelID)
    requires Booked(s, m) && Definitions(ids, infos) && m in RegisterFresh(s, e, p, ids, infos, now).models
    ensures var u := Look(RegisterFresh(s, e, p, ids, infos, now).models, m);
      if m in ids then u.value.info == infos[m] && DefinitionsFollow(u, Look(s.models, m), p, infos[m])
      else m in s.models && u.value.info == s.models[m].info && DefinitionsShrink(u, Look(s.models, m))
  {
    hide AddTimes, Booked;
    FreshAt(s, e, p, ids, infos, now, m);
    if m in s.models { NoBlankProvider(s, m); }
    if m in ids { AddTimesMarks(Look(s.models, m), Cnt(ids, m), p, infos[m], now); }
  }

  lemma ReregisterDefines(s: State, e: ClientID, p: string, ids: seq<ModelID>, infos: map<ModelID, ModelInfo>,
                          now: int, m: ModelID)
    requires Booked(s, m) && e in s.clientModels && Definitions(ids, infos)
    requires m in Reregister(s, e, p, ids, infos, now).models
    ensures var u := Look(Reregister(s, e, p, ids, infos, now).models, m);
      if m in ids then u.value.info == infos[m] && DefinitionsFollow(u, Look(s.models, m), p, infos[m])
      else m in s.models && u.value.info == s.models[m].info && DefinitionsShrink(u, Look(s.models, m))
  {
    hide Reregister, Booked, DefinitionsFollow, DefinitionsShrink;
    var d, r := DiffOf(s, e, p, ids, infos, now), Look(s.models, m);
    ReregisterAt(s, e, p, ids, infos, now, m);
    PartWithin(s, e, m);
    BookedIsTidy(s, m);
    if m in s.models { NoBlankProvider(s, m); }
    if d.N(m) > 0 {
      ReconcileMarks(d, r, m);
    } else {
      DroppedAt(d, r, m);
      RemoveTimesMarks(r, d.O(m), e, d.oldProvider, now);
      RemoveTimesEffect(r, d.O(m), e, d.oldProvider, now);
      RemoveTimesNone(d.O(m), e, d.oldProvider, now);
    }
  }

  /**
   After any run a registered model shows the first definition in the last registration
   that listed it, whoever has left since; and for each provider, in the last under it.
   */
  lemma {:induction false} ShowsLastSupplied(ops: seq<Op>, m: ModelID)
    requires m in Run(EMPTY, ops).models
    ensures var g := Run(EMPTY, ops).models[m];
      && DefinedBy(Supplied(ops, m), m, g.info)
      && forall p :: p in g.infoByProvider ==> DefinedBy(SuppliedUnder(ops, m, p), m, g.infoByProvider[p])
  {
    hide Apply, Recounted, FirstSupplied, FirstInfos, RawIds;
    var front, op := ops[..|ops| - 1], ops[|ops| - 1];
    EveryRunIsRecounted(front);
    DefinitionsAfter(Run(EMPTY, front), op, m);
    if op.OpRegister? && m in RawIds(op.models) { FirstInfosAreFirst(op.models, m); }
    if m in Run(EMPTY, front).models { ShowsLastSupplied(front, m); }
  }

  /** The models the client's last registration supplied, unless unregistered since. */
  function SuppliedBy(ops: seq<Op>, c: ClientID): Option<seq<Option<ModelInfo>>> {
    if ops == [] then None
    else
      match ops[|ops| - 1]
      case OpRegister(e, _, supplied, _) => if e == c then Some(supplied) else SuppliedBy(ops[..|ops| - 1], c)
      case OpUnregister(e, _) => if e == c then None else SuppliedBy(ops[..|ops| - 1], c)
      case _ => SuppliedBy(ops[..|ops| - 1], c)
  }

  /** And each client's own definitions are the first ones of its last registration. */
  lemma {:induction false} OwnDefinitionsAreLastSupplied(ops: seq<Op>, c: ClientID, m: ModelID)
    requires var s := Run(EMPTY, ops); c in s.clientInfos && m in s.clientInfos[c]
    ensures DefinedBy(SuppliedBy(ops, c), m, Run(EMPTY, ops).clientInfos[c][m])
  {
    hide Recounted, FirstSupplied, FirstInfos, RawIds;
    var front, op := ops[..|ops| - 1], ops[|ops| - 1];
    var s := Run(EMPTY, front);
    EveryRunIsRecounted(front);
    InfosAfter(s, op, c);
    if op.OpRegister? && op.client == c { FirstInfosAreFirst(op.models, m); }
    else { OwnDefinitionsAreLastSupplied(front, c, m); }
  }

  lemma InfosAfter(s: State, op: Op, c: ClientID)
    requires Recounted(s) && c in Apply(s, op).clientInfos
    ensures if op.OpRegister? && op.client == c then Apply(s, op).clientInfos[c] == FirstInfos(op.models)
      else !(op.OpUnregister? && op.client == c) && c in s.clientInfos
           && Apply(s, op).clientInfos[c] == s.clientInfos[c]
  {
  }

  function Suppliers(supplied: seq<Option<ModelInfo>>, m: ModelID): set<nat> {
    set i: nat | i < |supplied| && supplied[i].Some? && supplied[i].value.id == m
  }

  lemma OneMoreSupplier(supplied: seq<Option<ModelInfo>>, m: ModelID)
    requires supplied != []
    ensures var n := |supplied| - 1;
      |Suppliers(supplied, m)|
        == |Suppliers(supplied[..n], m)| + if supplied[n].Some? && supplied[n].value.id == m then 1 else 0
  {
    var n := |supplied| - 1;
    var here: set<nat> := if supplied[n].Some? && supplied[n].value.id == m then {n} else {};
    assert Suppliers(supplied, m) == Suppliers(supplied[..n], m) + here;
  }

  /** A model is listed once for every definition supplied under its id; a blank id never is. */
  lemma {:induction false} ListedAsSupplied(supplied: seq<Option<ModelInfo>>, m: ModelID)
    ensures Cnt(RawIds(supplied), m) == if m == "" then 0 else |Suppliers(supplied, m)|
  {
    if supplied == [] {
      assert Suppliers(supplied, m) == {};
    } else {
      hide Suppliers;
      var n := |supplied| - 1;
      ListedAsSupplied(supplied[..n], m);
      OneMoreSupplier(supplied, m);
    }
  }
}
