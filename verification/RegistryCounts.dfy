/**
 What GetModelCount counts. It is documented as the number of available clients; it is
 bindings less marks, and the two differ by repeats, double marks and marks of strangers.
 */
module RegistryCounts {
  import opened Prelude
  import opened RegistrySpec
  import opened RegistryRecount
  import Text

  ghost function Listers(s: State, m: ModelID): set<ClientID> {
    set c | c in s.clientModels && m in s.clientModels[c]
  }

  function Cooldowns(s: State, m: ModelID, now: int): set<ClientID> {
    if m in s.models then Active(s.models[m], now) else {}
  }

  function Suspensions(s: State, m: ModelID): set<ClientID> {
    if m in s.models then s.models[m].suspended.Keys else {}
  }

  /** The clients that list the model with neither a running cooldown nor a suspension on it. */
  ghost function Available(s: State, m: ModelID, now: int): set<ClientID> {
    Listers(s, m) - Cooldowns(s, m, now) - Suspensions(s, m)
  }

  /** Bindings beyond a client's first. */
  ghost function Repeats(s: State, m: ModelID): int {
    Total(s, m) - |Listers(s, m)|
  }

  /** Clients marked both ways, and marks of clients that do not list the model. */
  ghost function Overcounted(s: State, m: ModelID, now: int): nat {
    var a, b := Cooldowns(s, m, now), Suspensions(s, m);
    |a * b| + |(a + b) - Listers(s, m)|
  }

  lemma {:induction false} SumCountsPositive(w: map<ClientID, nat>)
    ensures Sum(w) >= |set c | c in w && w[c] > 0|
    decreases |w|
  {
    var all := set c | c in w && w[c] > 0;
    if w != map[] {
      var c :| c in w;
      SumPick(w, c);
      SumCountsPositive(w - {c});
      var rest := set d | d in w - {c} && (w - {c})[d] > 0;
      assert all == if w[c] > 0 then rest + {c} else rest;
    } else {
      assert all == {};
    }
  }

  lemma RepeatsAreNotNegative(s: State, m: ModelID)
    ensures Repeats(s, m) >= 0
  {
    var w := Bindings(s, m);
    SumCountsPositive(w);
    assert Listers(s, m) == set c | c in w && w[c] > 0;
  }

  lemma Sizes(a: set<ClientID>, b: set<ClientID>, l: set<ClientID>)
    ensures |l - a - b| == |l| - |a| - |b| + |a * b| + |(a + b) - l|
  {
    assert |a + b| == |a| + |b| - |a * b|;
    assert (a + b) == ((a + b) * l) + ((a + b) - l);
    assert |a + b| == |(a + b) * l| + |(a + b) - l|;
    assert l == (l - a - b) + ((a + b) * l);
    assert |l| == |l - a - b| + |(a + b) * l|;
  }

  /** In every reachable registry the count is the number of available clients, off by exactly these. */
  lemma CountDrift(ops: seq<Op>, m: ModelID, now: int)
    ensures var s := Run(EMPTY, ops);
      && Repeats(s, m) >= 0
      && ModelCount(s.models, m, now) == Max(0, |Available(s, m, now)| + Repeats(s, m) - Overcounted(s, m, now))
  {
    hide Run, Recounted, ModelCount, Available, Repeats, Overcounted;
    EveryRunIsRecounted(ops);
    DriftAt(Run(EMPTY, ops), m, now);
  }

  lemma DriftAt(s: State, m: ModelID, now: int)
    requires Recounted(s)
    ensures Repeats(s, m) >= 0
    ensures ModelCount(s.models, m, now) == Max(0, |Available(s, m, now)| + Repeats(s, m) - Overcounted(s, m, now))
  {
    hide Recounted, Listers, Total, Active;
    RecountedTables(s, m);
    RepeatsAreNotNegative(s, m);
    var a, b, l := Cooldowns(s, m, now), Suspensions(s, m), Listers(s, m);
    Sizes(a, b, l);
    if m in s.models {
      assert |b| == |s.models[m].suspended|;
    } else {
      NobodyLists(s, m);
    }
  }

  lemma NobodyLists(s: State, m: ModelID)
    requires Total(s, m) == 0
    ensures Listers(s, m) == {}
  {
    var w := Bindings(s, m);
    SumCountsPositive(w);
    assert Listers(s, m) == set c | c in w && w[c] > 0;
  }

  /**
   So it is the documented number exactly when repeats make up for double marks and
   strangers' marks, or nobody is available and the floor at zero hides the difference.
   */
  lemma CountIsAvailableExactly(ops: seq<Op>, m: ModelID, now: int)
    ensures var s := Run(EMPTY, ops);
      var repeats, over := Repeats(s, m), Overcounted(s, m, now);
      ModelCount(s.models, m, now) == |Available(s, m, now)| <==>
        repeats == over || (Available(s, m, now) == {} && repeats < over)
  {
    hide Run, ModelCount, Available, Repeats, Overcounted;
    CountDrift(ops, m, now);
  }

  /** Two clients, one cooled down and suspended at once, as one 429 does: the other is available, the count is zero. */
  lemma OneFailureHidesBoth(provider: string, info: ModelInfo, now: int)
    requires info.id != ""
    ensures var one := [Some(info)];
      var ops := [OpRegister("a", provider, one, now), OpRegister("b", provider, one, now),
                  OpSetQuota("a", info.id, now), OpSuspend("a", info.id, "quota", now)];
      var s := Run(EMPTY, ops);
      Available(s, info.id, now) == {"b"} && ModelCount(s.models, info.id, now) == 0
  {
    hide Run, Apply;
    var one, m := [Some(info)], info.id;
    var a, b := OpRegister("a", provider, one, now), OpRegister("b", provider, one, now);
    var cool, suspend := OpSetQuota("a", m, now), OpSuspend("a", m, "quota", now);
    var ops := [a, b, cool, suspend];
    RunFour(a, b, cool, suspend);
    TwoRegistered(provider, info, now);
    var s := Run(EMPTY, ops);
    MarkedBothWays(Apply(Apply(EMPTY, a), b), m, now);
    CountDrift(ops, m, now);
    TwoListers(s, m);
    assert Cooldowns(s, m, now) * Suspensions(s, m) == {"a"};
    assert (Cooldowns(s, m, now) + Suspensions(s, m)) - Listers(s, m) == {};
  }

  lemma RunFour(a: Op, b: Op, c: Op, d: Op)
    ensures Run(EMPTY, [a, b, c, d]) == Apply(Apply(Apply(Apply(EMPTY, a), b), c), d)
  {
    hide Apply;
    var ops := [a, b, c, d];
    assert ops[..3] == [a, b, c] && ops[..3][..2] == [a, b] && [a, b][..1] == [a] && [a][..0] == [];
    assert Run(EMPTY, [a]) == Apply(EMPTY, a);
    assert Run(EMPTY, [a, b]) == Apply(Run(EMPTY, [a]), b);
    assert Run(EMPTY, [a, b, c]) == Apply(Run(EMPTY, [a, b]), c);
  }

  lemma OneId(info: ModelInfo)
    requires info.id != ""
    ensures RawIds([Some(info)]) == [info.id]
  {
    var models := [Some(info)];
    assert models[..0] == [] && RawIds(models[..0]) == [] && [] + [info.id] == [info.id];
  }

  lemma TwoRegistered(provider: string, info: ModelInfo, now: int)
    requires info.id != ""
    ensures var one, m := [Some(info)], info.id;
      var s := Apply(Apply(EMPTY, OpRegister("a", provider, one, now)), OpRegister("b", provider, one, now));
      && s.clientModels == map["a" := [m], "b" := [m]]
      && m in s.models && s.models[m].quota == map[] && s.models[m].suspended == map[]
  {
    hide AddTimes, FirstInfos;
    var one, m, p := [Some(info)], info.id, Text.ToLower(provider);
    var infos := FirstInfos(one);
    OneId(info);
    var s1 := RegisterFresh(EMPTY, "a", p, [m], infos, now);
    FreshAt(EMPTY, "a", p, [m], infos, now, m);
    FreshAt(s1, "b", p, [m], infos, now, m);
    OneBinding(None, p, infos[m], now);
    OneBinding(Look(s1.models, m), p, infos[m], now);
  }

  lemma OneBinding(r: Option<Reg>, p: string, info: ModelInfo, now: int)
    ensures AddTimes(r, 1, p, info, now).Some?
    ensures var g := AddTimes(r, 1, p, info, now).value;
      if r.None? then g.quota == map[] && g.suspended == map[]
      else g.quota == r.value.quota && g.suspended == r.value.suspended
  {
    assert AddTimes(r, 0, p, info, now) == r;
  }

  lemma MarkedBothWays(s: State, m: ModelID, now: int)
    requires m != "" && m in s.models && s.models[m].quota == map[] && s.models[m].suspended == map[]
    ensures var u := Apply(Apply(s, OpSetQuota("a", m, now)), OpSuspend("a", m, "quota", now));
      && u.clientModels == s.clientModels
      && Cooldowns(u, m, now) == {"a"} && Suspensions(u, m) == {"a"}
  {
    var u := Apply(Apply(s, OpSetQuota("a", m, now)), OpSuspend("a", m, "quota", now));
    assert u.models[m].quota == map["a" := now] && u.models[m].suspended == map["a" := "quota"];
  }

  lemma TwoListers(s: State, m: ModelID)
    requires s.clientModels == map["a" := [m], "b" := [m]]
    ensures Listers(s, m) == {"a", "b"} && Total(s, m) == 2
  {
    var w := Bindings(s, m);
    assert w == map["a" := 1, "b" := 1];
    SumPick(w, "a");
    SumPick(w - {"a"}, "b");
    assert w - {"a"} - {"b"} == map[];
  }
}
