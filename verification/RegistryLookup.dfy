/** Lookups over the registrations: which providers serve a model, and which model a name means. */
module RegistryLookup {
  import opened Prelude
  import opened RegistrySpec
  import opened RegistryRecount
  import opened Registry
  import Text

  // ----- the order of strings ---------------------------------------------------------------

  /** Go's `<` on strings. */
  predicate Before(a: string, b: string) {
    b != "" && (a == "" || a[0] < b[0] || (a[0] == b[0] && Before(a[1..], b[1..])))
  }

  lemma {:induction false} BeforeIsTotal(a: string, b: string)
    ensures Before(a, b) || Before(b, a) || a == b
    ensures !(Before(a, b) && Before(b, a)) && !Before(a, a)
  {
    if a != "" { BeforeIsTotal(a[1..], a[1..]); }
    if a != "" && b != "" && a[0] == b[0] {
      BeforeIsTotal(a[1..], b[1..]);
      if a[1..] == b[1..] { assert a == [a[0]] + a[1..] && b == [b[0]] + b[1..]; }
    }
  }

  lemma {:induction false} BeforeIsTransitive(a: string, b: string, c: string)
    requires Before(a, b) && Before(b, c)
    ensures Before(a, c)
  {
    if a != "" && a[0] == b[0] && b[0] == c[0] { BeforeIsTransitive(a[1..], b[1..], c[1..]); }
  }

  // ----- who serves a model ----------------------------------------------------------------------

  /** p comes before q: more bindings, or as many and the smaller name. */
  predicate Ahead(tally: map<string, int>, p: string, q: string)
    requires p in tally && q in tally
  {
    tally[p] > tally[q] || (tally[p] == tally[q] && Before(p, q))
  }

  /** The names of all providers with a positive tally, each once, in order. */
  ghost predicate Ranking(names: seq<string>, tally: map<string, int>) {
    && (forall p :: p in names <==> p in tally && tally[p] > 0)
    && forall i, j :: 0 <= i < j < |names| ==> Ahead(tally, names[i], names[j])
  }

  /** Puts one more provider where it belongs. */
  method Rank(names: seq<string>, p: string, tally: map<string, int>) returns (r: seq<string>)
    requires forall q :: q in names ==> q in tally
    requires p in tally && p !in names
    requires forall i, j :: 0 <= i < j < |names| ==> Ahead(tally, names[i], names[j])
    ensures forall q :: q in r <==> q in names || q == p
    ensures forall i, j :: 0 <= i < j < |r| ==> Ahead(tally, r[i], r[j])
  {
    var k := 0;
    while k < |names| && Ahead(tally, names[k], p)
      invariant k <= |names| && forall i :: 0 <= i < k ==> Ahead(tally, names[i], p)
    {
      k := k + 1;
    }
    r := names[..k] + [p] + names[k..];
    forall i | k <= i < |names|
      ensures Ahead(tally, p, names[i])
    {
      BeforeIsTotal(p, names[k]);
      if k < i && tally[p] == tally[names[k]] == tally[names[i]] { BeforeIsTransitive(p, names[k], names[i]); }
    }
    assert forall q :: q in names <==> q in names[..k] || q in names[k..] by {
      assert names == names[..k] + names[k..];
    }
  }

  method GetModelProviders(r: ModelRegistry, modelID: ModelID) returns (names: seq<string>)
    ensures Ranking(names, if modelID in r.models then r.models[modelID].providers else map[])
  {
    names := [];
    if modelID !in r.models { return; }
    var tally := r.models[modelID].providers;
    var todo := tally.Keys;
    while todo != {}
      invariant todo <= tally.Keys
      invariant forall p :: p in names <==> p in tally && p !in todo && tally[p] > 0
      invariant forall i, j :: 0 <= i < j < |names| ==> Ahead(tally, names[i], names[j])
      decreases |todo|
    {
      var p :| p in todo;
      if tally[p] > 0 { names := Rank(names, p, tally); }
      todo := todo - {p};
    }
  }

  /** There is only one ranking, so the order in which the tallies are visited does not show. */
  lemma {:induction false} RankingIsUnique(a: seq<string>, b: seq<string>, tally: map<string, int>)
    requires Ranking(a, tally) && Ranking(b, tally)
    ensures a == b
  {
    SomeMember(a);
    SomeMember(b);
    if a != [] && b != [] {
      SameHead(a, b, tally);
      TailRanking(a, tally);
      TailRanking(b, tally);
      RankingIsUnique(a[1..], b[1..], tally - {a[0]});
      assert a == [a[0]] + a[1..] && b == [b[0]] + b[1..];
    }
  }

  lemma SomeMember(names: seq<string>)
    ensures names == [] || exists p :: p in names
  {
    if names != [] { assert names[0] in names; }
  }

  lemma SameHead(a: seq<string>, b: seq<string>, tally: map<string, int>)
    requires Ranking(a, tally) && Ranking(b, tally) && a != [] && b != []
    ensures a[0] == b[0]
  {
    assert a[0] in b && b[0] in a;
    BeforeIsTotal(a[0], b[0]);
  }

  lemma TailRanking(a: seq<string>, tally: map<string, int>)
    requires Ranking(a, tally) && a != []
    ensures Ranking(a[1..], tally - {a[0]})
  {
    BeforeIsTotal(a[0], a[0]);
    assert a == [a[0]] + a[1..];
    forall i, j | 0 <= i < j < |a[1..]|
      ensures Ahead(tally - {a[0]}, a[1..][i], a[1..][j])
    {
      assert Ahead(tally, a[i + 1], a[j + 1]) && Ahead(tally, a[0], a[i + 1]) && Ahead(tally, a[0], a[j + 1]);
    }
  }

  // ----- which model a name means -------------------------------------------------------------------

  function Dashed(s: string): (r: string)
    ensures |r| == |s|
  {
    seq(|s|, i requires 0 <= i < |s| => if s[i] == '.' then '-' else s[i])
  }

  /** normalizeModelKey */
  function ModelKey(id: string): string {
    Dashed(Text.ToLower(Text.TrimSpace(id)))
  }

  /** registrationHasProvider */
  ghost predicate Served(models: map<ModelID, Reg>, id: ModelID) {
    id in models && exists p :: p in models[id].providers && models[id].providers[p] > 0
  }

  /** A model that the name means if no model is called exactly that. */
  ghost predicate Matches(models: map<ModelID, Reg>, name: string, id: ModelID) {
    Served(models, id) && ModelKey(id) == ModelKey(name)
  }

  /** The id is that name, or a spelling of it. */
  predicate Spells(id: ModelID, name: string) {
    id == name || ModelKey(id) == ModelKey(name)
  }

  /** What a name resolves to: a served model of exactly that name, or the smallest match, or nothing. */
  ghost predicate Resolves(models: map<ModelID, Reg>, requested: string, id: ModelID) {
    var name := Text.TrimSpace(requested);
    if name == "" then id == ""
    else if Served(models, name) then id == name
    else if id == "" then forall other :: !Matches(models, name, other)
    else Matches(models, name, id) && forall other :: Matches(models, name, other) ==> other == id || Before(id, other)
  }

  method HasProvider(g: Registration) returns (ok: bool)
    ensures ok <==> exists p :: p in g.providers && g.providers[p] > 0
  {
    var todo := g.providers.Keys;
    while todo != {}
      invariant todo <= g.providers.Keys
      invariant forall p :: p in g.providers.Keys - todo ==> g.providers[p] <= 0
      decreases |todo|
    {
      var p :| p in todo;
      if g.providers[p] > 0 { return true; }
      todo := todo - {p};
    }
    ok := false;
  }

  method IsServed(r: ModelRegistry, id: ModelID) returns (ok: bool)
    ensures ok == Served(r.Snapshot(), id)
  {
    if id !in r.models { return false; }
    ok := HasProvider(r.models[id]);
    assert r.Snapshot()[id].providers == r.models[id].providers;
  }

  method ResolveModelID(r: ModelRegistry, requested: string) returns (id: ModelID)
    ensures Resolves(r.Snapshot(), requested, id)
  {
    hide Text.TrimSpace, ModelKey, Served;
    var name := Text.TrimSpace(requested);
    if name == "" { return ""; }
    var exact := IsServed(r, name);
    if exact { return name; }
    Text.TrimSpaceIdempotent(requested);
    EmptyIsNoMatch(r.Snapshot(), name);
    id := SmallestMatch(r, name);
    UnservedNoMatch(r.Snapshot(), name);
  }

  lemma UnservedNoMatch(models: map<ModelID, Reg>, name: string)
    ensures forall other :: Matches(models, name, other) ==> other in models
  {
  }

  method SmallestMatch(r: ModelRegistry, name: string) returns (id: ModelID)
    requires !Matches(r.Snapshot(), name, "")
    ensures Smallest(r.Snapshot(), name, r.models.Keys, id)
  {
    hide *;
    ghost var models := r.Snapshot();
    var served := ServedIDs(r);
    id := SmallestAmong(models, r.models.Keys, served, name);
  }

  /** The models that have a provider. */
  method ServedIDs(r: ModelRegistry) returns (served: set<ModelID>)
    ensures served <= r.models.Keys
    ensures forall m :: m in r.models ==> (m in served <==> Served(r.Snapshot(), m))
  {
    hide Served;
    served := {};
    var todo := r.models.Keys;
    while todo != {}
      invariant todo <= r.models.Keys
      invariant served <= r.models.Keys - todo
      invariant forall m :: m in r.models.Keys - todo ==> (m in served <==> Served(r.Snapshot(), m))
      decreases |todo|
    {
      var m :| m in todo;
      var ok := IsServed(r, m);
      if ok { served := served + {m}; }
      todo := todo - {m};
    }
  }

  method SmallestAmong(ghost models: map<ModelID, Reg>, ids: set<ModelID>, served: set<ModelID>, name: string)
      returns (id: ModelID)
    requires forall m :: m in ids ==> (m in served <==> Served(models, m))
    requires !Matches(models, name, "")
    ensures Smallest(models, name, ids, id)
  {
    hide ModelKey, Served, Smallest, Before;
    id := "";
    SmallestOfNone(models, name);
    var todo := ids;
    ghost var seen := {};
    while todo != {}
      invariant seen == ids - todo && todo <= ids
      invariant Smallest(models, name, seen, id)
      decreases |todo|
    {
      var m :| m in todo;
      SmallestOfMore(models, name, seen, id, m);
      if m in served && ModelKey(m) == ModelKey(name) && (id == "" || Before(m, id)) { id := m; }
      seen, todo := seen + {m}, todo - {m};
    }
    assert seen == ids;
  }

  /** The smallest match among those seen, "" if there is none. */
  ghost predicate Smallest(models: map<ModelID, Reg>, name: string, seen: set<ModelID>, id: ModelID) {
    if id == "" then forall other :: other in seen ==> !Matches(models, name, other)
    else
      && id in seen && Matches(models, name, id)
      && forall other :: other in seen && Matches(models, name, other) ==> other == id || Before(id, other)
  }

  lemma SmallestOfNone(models: map<ModelID, Reg>, name: string)
    ensures Smallest(models, name, {}, "")
  {
  }

  lemma SmallestOfMore(models: map<ModelID, Reg>, name: string, seen: set<ModelID>, id: ModelID, m: ModelID)
    requires Smallest(models, name, seen, id) && !Matches(models, name, "")
    ensures var better := Matches(models, name, m) && (id == "" || Before(m, id));
      Smallest(models, name, seen + {m}, if better then m else id)
  {
    hide Matches;
    BeforeIsTotal(m, id);
    if id != "" && Before(m, id) {
      forall other | Before(id, other)
        ensures Before(m, other)
      {
        BeforeIsTransitive(m, id, other);
      }
    }
  }

  lemma EmptyIsNoMatch(models: map<ModelID, Reg>, name: string)
    requires name != "" && Text.TrimSpace(name) == name
    ensures !Matches(models, name, "")
  {
    assert |ModelKey(name)| == |name| && |ModelKey("")| == 0;
  }

  /** A name resolves to one id only, whatever order the registrations are visited in. */
  lemma ResolutionIsUnique(models: map<ModelID, Reg>, requested: string, a: ModelID, b: ModelID)
    requires Resolves(models, requested, a) && Resolves(models, requested, b)
    ensures a == b
  {
    BeforeIsTotal(a, b);
  }

  // ----- in reachable registries ------------------------------------------------------------------------

  lemma {:induction false} PositiveSum(w: map<ClientID, nat>)
    ensures Sum(w) > 0 <==> exists c :: c in w && w[c] > 0
    decreases |w|
  {
    if w != map[] {
      var c :| c in w;
      SumPick(w, c);
      PositiveSum(w - {c});
      if exists d :: d in w && w[d] > 0 {
        var d :| d in w && w[d] > 0;
        if d != c { assert (w - {c})[d] > 0; }
      }
    }
  }

  /** Some client of provider p lists the model. */
  ghost predicate Supplies(s: State, p: string, id: ModelID) {
    exists c :: c in s.clientModels && ProviderOf(s, c) == p && id in s.clientModels[c]
  }

  lemma ShareMeansSupplied(s: State, p: string, id: ModelID)
    requires p != ""
    ensures Share(s, p, id) > 0 <==> Supplies(s, p, id)
  {
    var w := BindingsUnder(s, p, id);
    PositiveSum(w);
    if Supplies(s, p, id) {
      var c :| c in s.clientModels && ProviderOf(s, c) == p && id in s.clientModels[c];
      assert w[c] > 0;
    }
  }

  /**
   After any run, the providers listed for a model are exactly those with a client that lists it, the busiest
   first.
   */
  lemma ProvidersAreThoseSupplying(ops: seq<Op>, id: ModelID, names: seq<string>, p: string)
    requires var models := Run(EMPTY, ops).models; Ranking(names, if id in models then models[id].providers else map[])
    requires p != ""
    ensures p in names <==> Supplies(Run(EMPTY, ops), p, id)
  {
    var s := Run(EMPTY, ops);
    EveryRunIsRecounted(ops);
    assert Booked(s, id);
    assert Tally(Look(s.models, id), p) == Share(s, p, id);
    ShareMeansSupplied(s, p, id);
  }

  /** After any run, a model is served exactly when some client with a provider lists it. */
  lemma ServedMeansSupplied(ops: seq<Op>, id: ModelID)
    ensures Served(Run(EMPTY, ops).models, id) <==> exists p :: p != "" && Supplies(Run(EMPTY, ops), p, id)
  {
    var s := Run(EMPTY, ops);
    EveryRunIsRecounted(ops);
    assert Booked(s, id);
    if Served(s.models, id) {
      var p :| p in s.models[id].providers && s.models[id].providers[p] > 0;
      assert Tally(Look(s.models, id), p) == Share(s, p, id);
      assert p != "";
      ShareMeansSupplied(s, p, id);
    }
    if exists p :: p != "" && Supplies(s, p, id) {
      var p :| p != "" && Supplies(s, p, id);
      assert Tally(Look(s.models, id), p) == Share(s, p, id);
      ShareMeansSupplied(s, p, id);
    }
  }

  /** After any run, a name resolves to something exactly when a client with a provider lists it or a spelling of it. */
  lemma ResolvesExactlyWhenSupplied(ops: seq<Op>, requested: string, id: ModelID)
    requires Resolves(Run(EMPTY, ops).models, requested, id)
    ensures var s := Run(EMPTY, ops); var name := Text.TrimSpace(requested);
      id != "" <==> name != "" && exists m, p :: p != "" && Supplies(s, p, m) && Spells(m, name)
  {
    var s, name := Run(EMPTY, ops), Text.TrimSpace(requested);
    Text.TrimSpaceIdempotent(requested);
    if name != "" {
      ServedMeansSupplied(ops, name);
      ServedMeansSupplied(ops, id);
      if exists m, p :: p != "" && Supplies(s, p, m) && Spells(m, name) {
        var m, p :| p != "" && Supplies(s, p, m) && Spells(m, name);
        ServedMeansSupplied(ops, m);
        assert Served(s.models, m);
        if !Served(s.models, name) { assert Matches(s.models, name, m); }
      }
    }
  }

  // ----- spellings ----------------------------------------------------------------------------------------

  /** The same letter in either case; a dot and a dash count as the same. */
  predicate SameLetter(a: char, b: char) {
    || a == b
    || ('A' <= a <= 'Z' && b as int == a as int + 32)
    || ('A' <= b <= 'Z' && a as int == b as int + 32)
    || (a in {'.', '-'} && b in {'.', '-'})
  }

  /** The same but for outer white space, letter case, and dots for dashes. */
  ghost predicate SameSpelling(a: string, b: string) {
    var s, t := Text.TrimSpace(a), Text.TrimSpace(b);
    |s| == |t| && forall i :: 0 <= i < |s| ==> SameLetter(s[i], t[i])
  }

  /** One id spells another exactly if they are the same but for these. */
  lemma SpellsExactly(id: ModelID, name: string)
    ensures Spells(id, name) <==> SameSpelling(id, name)
  {
    hide Text.TrimSpace;
    var s, t := Text.TrimSpace(id), Text.TrimSpace(name);
    var x, y := ModelKey(id), ModelKey(name);
    if |s| == |t| {
      forall i | 0 <= i < |s|
        ensures x[i] == y[i] <==> SameLetter(s[i], t[i])
      {
        KeyLetter(s[i], t[i]);
      }
    }
  }

  lemma KeyLetter(a: char, b: char)
    ensures
      (var x, y := Text.LowerChar(a), Text.LowerChar(b);
       (if x == '.' then '-' else x) == (if y == '.' then '-' else y)) <==> SameLetter(a, b)
  {
  }

  // ----- the order of the names and of the providers --------------------------------------------------------

  /** The strings agree up to i, and there a ends or has the smaller character. */
  predicate SmallerAt(a: string, b: string, i: nat) {
    && i <= |a| && i < |b| && a[..i] == b[..i]
    && (i == |a| || a[i] < b[i])
  }

  lemma SameStart(a: string, b: string, i: nat)
    requires SmallerAt(a, b, i) && i > 0
    ensures a[0] == b[0]
  {
    assert a[0] == a[..i][0] && b[0] == b[..i][0];
  }

  lemma {:induction false} BeforeExactly(a: string, b: string)
    ensures Before(a, b) <==> exists i: nat :: SmallerAt(a, b, i)
  {
    if a == "" || b == "" {
      if Before(a, b) { assert SmallerAt(a, b, 0); }
    } else if a[0] != b[0] {
      if a[0] < b[0] { assert SmallerAt(a, b, 0); }
      forall i: nat | SmallerAt(a, b, i)
        ensures i == 0
      {
        if i > 0 { SameStart(a, b, i); }
      }
    } else {
      BeforeExactly(a[1..], b[1..]);
      if i: nat :| SmallerAt(a[1..], b[1..], i) {
        assert a[..i + 1] == [a[0]] + a[1..][..i] && b[..i + 1] == [b[0]] + b[1..][..i];
        assert SmallerAt(a, b, i + 1);
      }
      if i: nat :| SmallerAt(a, b, i) {
        assert i > 0;
        assert a[1..][..i - 1] == a[..i][1..] && b[1..][..i - 1] == b[..i][1..];
        assert SmallerAt(a[1..], b[1..], i - 1);
      }
    }
  }

  /**
   After any run the providers ranked for a model come by how often their clients list it,
   and among equals by name.
   */
  lemma RankedByListings(ops: seq<Op>, id: ModelID, names: seq<string>, i: nat, j: nat)
    requires var models := Run(EMPTY, ops).models; Ranking(names, if id in models then models[id].providers else map[])
    requires i < j < |names|
    ensures var s := Run(EMPTY, ops);
      || Share(s, names[i], id) > Share(s, names[j], id)
      || (Share(s, names[i], id) == Share(s, names[j], id) && exists k: nat :: SmallerAt(names[i], names[j], k))
  {
    hide Recounted, Before, SmallerAt, Share, Run;
    var s := Run(EMPTY, ops);
    EveryRunIsRecounted(ops);
    RecountedTables(s, id);
    assert names[i] in names && names[j] in names;
    assert Tally(Look(s.models, id), names[i]) == Share(s, names[i], id);
    assert Tally(Look(s.models, id), names[j]) == Share(s, names[j], id);
    BeforeExactly(names[i], names[j]);
  }
}
