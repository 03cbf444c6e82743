/**
 Exactly when reconciling a client in place leaves the very same registrations as
 forgetting the client and registering it afresh: cooldown and suspension marks are
 the only difference, and only marks that nobody's live binding accounts for.
 */
module RegistryTransient {
  import opened Prelude
  import opened RegistrySpec
  import opened RegistryRecount
  import Text

  /** Marks on `g` set by or for clients other than c. */
  predicate MarkedForOthers(g: Reg, c: ClientID) {
    g.quota - {c} != map[] || g.suspended - {c} != map[]
  }

  predicate MarkedFor(g: Reg, c: ClientID) {
    c in g.quota || c in g.suspended
  }

  /**
   Client c is about to list m again while being its only holder and others' marks are
   on it (a fresh start would drop them), or to list m anew while already marked on it
   (only the diff clears that mark).
   */
  predicate LeftoverMarks(s: State, c: ClientID, ids: seq<ModelID>, m: ModelID) {
    && m in ids && m in s.models
    && var held := Cnt(Listing(s, c), m);
       if held == 0 then MarkedFor(s.models[m], c)
       else held == s.models[m].count && MarkedForOthers(s.models[m], c)
  }

  /** Provider-specific definitions in u: `info` for p, unchanged from r for the rest. */
  ghost predicate DefinitionsFollow(u: Option<Reg>, r: Option<Reg>, p: string, info: ModelInfo) {
    u.Some? ==> forall q :: q in u.value.infoByProvider ==>
      if q == p then u.value.infoByProvider[q] == info
      else r.Some? && q in r.value.infoByProvider && u.value.infoByProvider[q] == r.value.infoByProvider[q]
  }

  ghost predicate DefinitionsShrink(u: Option<Reg>, r: Option<Reg>) {
    u.Some? ==> r.Some? && forall q :: q in u.value.infoByProvider ==>
      q in r.value.infoByProvider && u.value.infoByProvider[q] == r.value.infoByProvider[q]
  }

  /** Same time stamp and marks. */
  predicate SameMarks(u: Option<Reg>, r: Option<Reg>) {
    u.Some? && r.Some? ==> u.value.quota == r.value.quota && u.value.suspended == r.value.suspended
  }

  /** Marks in u are r's with client c's taken off. */
  predicate MarksCleared(u: Option<Reg>, r: Option<Reg>, c: ClientID) {
    u.Some? && r.Some? ==>
      && u.value.quota == r.value.quota - {c}
      && u.value.suspended == r.value.suspended - {c}
  }

  lemma {:induction false} RemoveTimesMarks(r: Option<Reg>, k: nat, c: ClientID, p: string, now: int)
    ensures var u := RemoveTimes(r, k, c, p, now);
      && DefinitionsShrink(u, r)
      && (if k == 0 then u == r else MarksCleared(u, r, c))
      && (k > 0 && u.Some? ==> u.value.lastUpdated == now)
  {
    if k > 0 {
      RemoveTimesMarks(r, k - 1, c, p, now);
      RemoveOneMarks(RemoveTimes(r, k - 1, c, p, now), c, p, now);
    }
  }

  lemma RemoveOneMarks(r: Option<Reg>, c: ClientID, p: string, now: int)
    ensures var u := RemoveOne(r, c, p, now);
      && DefinitionsShrink(u, r) && MarksCleared(u, r, c)
      && (u.Some? ==> u.value.lastUpdated == now)
  {
  }

  lemma {:induction false} AddTimesMarks(r: Option<Reg>, k: nat, p: string, info: ModelInfo, now: int)
    requires r.Some? ==> "" !in r.value.infoByProvider
    requires k > 0
    ensures var u := AddTimes(r, k, p, info, now);
      && u.Some? && DefinitionsFollow(u, r, p, info) && SameMarks(u, r)
      && u.value.lastUpdated == now && u.value.info == info
      && "" !in u.value.infoByProvider
      && (r.None? ==> u.value.quota == map[] && u.value.suspended == map[])
  {
    if k > 1 { AddTimesMarks(r, k - 1, p, info, now); }
  }

  /** The removing half of the diff, as seen in marks and definitions. */
  lemma ShrinkMarks(d: Diff, r: Option<Reg>, m: ModelID)
    requires d.N(m) > 0 && Tidy(r)
    requires d.O(m) <= CountOf(r) && (d.oldProvider != "" ==> d.O(m) <= Tally(r, d.oldProvider))
    ensures var u := StageOverage(d, StageDrop(d, StageMove(d, r, m), m), m);
      && u.Some? == r.Some? && DefinitionsShrink(u, r)
      && (u.Some? ==>
            && u.value.quota - {d.client} == r.value.quota - {d.client}
            && u.value.suspended - {d.client} == r.value.suspended - {d.client})
  {
    hide RemoveTimes, Tidy, Tally, CountOf;
    var o, n := d.O(m), d.N(m);
    var r1 := StageMove(d, r, m);
    RemoveTimesMarks(r1, if n < o then o - n else 0, d.client, d.oldProvider, d.now);
    ShrinkEffect(d, r, m);
    NoneHasNoCount(r, StageOverage(d, r1, m), o, n);
  }

  lemma NoneHasNoCount(r: Option<Reg>, u: Option<Reg>, o: nat, n: nat)
    requires Tidy(r) && o <= CountOf(r) && n > 0
    requires CountOf(u) == CountOf(r) - (if n < o then o - n else 0)
    ensures r.Some? ==> u.Some?
  {
  }

  /** What the diff does to the marks and definitions of a model the client lists. */
  lemma ReconcileMarks(d: Diff, r: Option<Reg>, m: ModelID)
    requires d.WellFormed() && d.N(m) > 0
    requires Tidy(r) && d.O(m) <= CountOf(r) && (d.oldProvider != "" ==> d.O(m) <= Tally(r, d.oldProvider))
    requires r.Some? ==> "" !in r.value.infoByProvider
    ensures var u := Reconcile(d, r, m);
      && u.Some? && DefinitionsFollow(u, r, d.provider, d.infos[m]) && MarksCleared(u, r, d.client)
      && u.value.lastUpdated == d.now && u.value.info == d.infos[m]
      && (r.None? ==> u.value.quota == map[] && u.value.suspended == map[])
  {
    hide StageMove, StageDrop, StageOverage, AddTimes, Tidy, Tally, CountOf;
    ShrinkMarks(d, r, m);
    ReconcileEffect(d, r, m);
    var r3 := StageOverage(d, StageDrop(d, StageMove(d, r, m), m), m);
    if d.N(m) > d.O(m) { AddTimesMarks(r3, d.N(m) - d.O(m), d.provider, d.infos[m], d.now); }
    if r.None? { EmptyRegHasNoHolder(d, r, m); }
  }

  lemma EmptyRegHasNoHolder(d: Diff, r: Option<Reg>, m: ModelID)
    requires d.O(m) <= CountOf(r) && r.None?
    ensures d.O(m) == 0
  {
  }

  /** Forgetting o bindings and adding n afresh, as seen in marks and definitions. */
  lemma ScratchMarks(r: Option<Reg>, o: nat, n: nat, c: ClientID, oldP: string, p: string, info: ModelInfo, now: int)
    requires n > 0 && Tidy(r) && o <= CountOf(r) && (oldP != "" ==> o <= Tally(r, oldP))
    requires r.Some? ==> "" !in r.value.infoByProvider
    ensures var u := AddTimes(RemoveTimes(r, o, c, oldP, now), n, p, info, now);
      && u.Some? && DefinitionsFollow(u, r, p, info)
      && u.value.lastUpdated == now && u.value.info == info
      && (if o == CountOf(r) then u.value.quota == map[] && u.value.suspended == map[]
          else if o > 0 then MarksCleared(u, r, c)
          else SameMarks(u, r))
  {
    var f := RemoveTimes(r, o, c, oldP, now);
    RemoveTimesEffect(r, o, c, oldP, now);
    RemoveTimesMarks(r, o, c, oldP, now);
    AddTimesMarks(f, n, p, info, now);
  }

  lemma SameFields(u: Option<Reg>, v: Option<Reg>, r: Option<Reg>, p: string, info: ModelInfo)
    requires u.Some? && v.Some? && SameCounts(u, v) && SameMarks(u, v)
    requires u.value.info == v.value.info && u.value.lastUpdated == v.value.lastUpdated
    requires DefinitionsFollow(u, r, p, info) && DefinitionsFollow(v, r, p, info)
    ensures u == v
  {
    assert u.value.infoByProvider == v.value.infoByProvider;
  }

  lemma NoBlankProvider(s: State, m: ModelID)
    requires Booked(s, m) && m in s.models
    ensures "" !in s.models[m].infoByProvider
  {
    assert Tally(Look(s.models, m), "") == Share(s, "", m);
  }

  lemma MarksDecide(u: Option<Reg>, v: Option<Reg>, s: State, c: ClientID, ids: seq<ModelID>, m: ModelID)
    requires m in ids && u.Some? && v.Some?
    requires Look(s.models, m).None? ==>
      u.value.quota == map[] && u.value.suspended == map[] && v.value.quota == map[] && v.value.suspended == map[]
    requires MarksCleared(u, Look(s.models, m), c)
    requires var r := Look(s.models, m);
      var o := Cnt(Listing(s, c), m);
      if o == CountOf(r) then v.value.quota == map[] && v.value.suspended == map[]
      else if o > 0 then MarksCleared(v, r, c)
      else SameMarks(v, r)
    requires m in s.models ==> s.models[m].count > 0
    ensures SameMarks(u, v) <==> !LeftoverMarks(s, c, ids, m)
  {
    if m in s.models {
      var g := s.models[m];
      assert c !in g.quota ==> g.quota - {c} == g.quota;
      assert c !in g.suspended ==> g.suspended - {c} == g.suspended;
    }
  }

  /**
   For every model, whichever lists are old and new: the reconciled registration is
   identical in every field to the one made from scratch, unless leftover marks exist.
   */
  lemma DiffIsScratchExactly(s: State, c: ClientID, provider: string, models: seq<Option<ModelInfo>>, now: int,
                             m: ModelID)
    requires Recounted(s) && c in s.clientModels && RawIds(models) != []
    ensures
      (Look(Register(s, c, provider, models, now).models, m)
        == Look(Register(Unregister(s, c, now), c, provider, models, now).models, m))
      <==> !LeftoverMarks(s, c, RawIds(models), m)
  {
    var p, ids, infos := Text.ToLower(provider), RawIds(models), FirstInfos(models);
    RawIdsNonBlank(models);
    var f := Unregister(s, c, now);
    var u := Look(Register(s, c, provider, models, now).models, m);
    var v := Look(Register(f, c, provider, models, now).models, m);
    DiffEqualsForgetThenRegister(s, c, provider, models, now, m);
    UnregisterKeeps(s, c, now);
    UnregisterAt(s, c, now, m);
    ReregisterAt(s, c, p, ids, infos, now, m);
    FreshAt(f, c, p, ids, infos, now, m);
    assert Booked(s, m);
    ExactlyAt(s, DiffOf(s, c, p, ids, infos, now), m, u, v);
  }

  lemma ExactlyAt(s: State, d: Diff, m: ModelID, u: Option<Reg>, v: Option<Reg>)
    requires Booked(s, m) && d.WellFormed()
    requires d.oldIds == Listing(s, d.client) && d.oldProvider == ProviderOf(s, d.client)
    requires u == Reconcile(d, Look(s.models, m), m)
    requires
      var forgotten := RemoveTimes(Look(s.models, m), d.O(m), d.client, d.oldProvider, d.now);
      v == if m in d.newIds then AddTimes(forgotten, d.N(m), d.provider, d.infos[m], d.now) else forgotten
    requires SameCounts(u, v)
    ensures u == v <==> !LeftoverMarks(s, d.client, d.newIds, m)
  {
    var r := Look(s.models, m);
    PartWithin(s, d.client, m);
    if r.Some? { NoBlankProvider(s, m); }
    if m in d.newIds {
      ReconcileMarks(d, r, m);
      ScratchMarks(r, d.O(m), d.N(m), d.client, d.oldProvider, d.provider, d.infos[m], d.now);
      MarksDecide(u, v, s, d.client, d.newIds, m);
      if SameMarks(u, v) { SameFields(u, v, r, d.provider, d.infos[m]); }
    }
  }

  /** Of the marks for a client, unregistering it clears exactly those on models it listed; nobody else's change. */
  lemma UnregisterClearsListedMarks(s: State, c: ClientID, now: int, m: ModelID)
    requires ClientTablesAgree(s) && m in Unregister(s, c, now).models
    ensures m in s.models
    ensures var g, h := Unregister(s, c, now).models[m], s.models[m];
      && (c in g.quota <==> c in h.quota && m !in Listing(s, c))
      && (c in g.suspended <==> c in h.suspended && m !in Listing(s, c))
      && g.quota - {c} == h.quota - {c} && g.suspended - {c} == h.suspended - {c}
  {
    hide RemoveTimes;
    if c in s.clientModels { UnregisterAt(s, c, now, m); }
    var k := Cnt(Listing(s, c), m);
    RemoveTimesMarks(Look(s.models, m), k, c, ProviderOf(s, c), now);
    RemoveTimesNone(k, c, ProviderOf(s, c), now);
    if Look(s.models, m).Some? && k > 0 {
      var h := s.models[m];
      assert h.quota - {c} - {c} == h.quota - {c} && h.suspended - {c} - {c} == h.suspended - {c};
    }
  }

  /** After client "a" registers a model and a cooldown is set on it for client "b", leftover marks exist. */
  lemma LeftoverMarksAreReachable(provider: string, info: ModelInfo, now: int)
    requires info.id != ""
    ensures var s := Run(EMPTY, [OpRegister("a", provider, [Some(info)], now), OpSetQuota("b", info.id, now)]);
      var again := [Some(info)];
      && Recounted(s) && "a" in s.clientModels && RawIds(again) == [info.id]
      && LeftoverMarks(s, "a", RawIds(again), info.id)
      && Look(Register(s, "a", provider, again, now).models, info.id)
        != Look(Register(Unregister(s, "a", now), "a", provider, again, now).models, info.id)
  {
    hide Register, Recounted;
    var again := [Some(info)];
    var register, mark := OpRegister("a", provider, again, now), OpSetQuota("b", info.id, now);
    var s := Run(EMPTY, [register, mark]);
    RunTwo(register, mark);
    EveryRunIsRecounted([register, mark]);
    FirstRegistration(provider, info, now);
    RecountedTables(s, info.id);
    var s1 := Register(EMPTY, "a", provider, again, now);
    assert s == SetQuota(s1, "b", info.id, now);
    assert "b" in s.models[info.id].quota - {"a"};
    DiffIsScratchExactly(s, "a", provider, again, now, info.id);
  }

  lemma RunTwo(a: Op, b: Op)
    ensures Run(EMPTY, [a, b]) == Apply(Apply(EMPTY, a), b)
  {
    hide Apply;
    assert [a, b][..1] == [a] && [a][..0] == [];
    assert Run(EMPTY, [a]) == Apply(EMPTY, a);
  }

  lemma FirstRegistration(provider: string, info: ModelInfo, now: int)
    requires info.id != ""
    ensures RawIds([Some(info)]) == [info.id]
    ensures var s := Register(EMPTY, "a", provider, [Some(info)], now);
      s.clientModels == map["a" := [info.id]] && info.id in s.models && s.models[info.id].count == 1
  {
    hide AddTimes, FirstInfos;
    var models, ids, p := [Some(info)], [info.id], Text.ToLower(provider);
    assert models[..0] == [] && [] + ids == ids;
    assert RawIds(models[..0]) == [];
    var infos := FirstInfos(models);
    FreshAt(EMPTY, "a", p, ids, infos, now, info.id);
    AddTimesEffect(None, 1, p, infos[info.id], now);
  }
}
