/**
 What becomes of the elements of a list: an element named in one of the known ways keeps
 its node and comments wherever it moves, and none keeps keys its source lacks.
 */
module YamlElements {
  import opened Prelude
  import opened YamlSpec
  import opened YamlReflect
  import Text

  // ----- elements that carry a name --------------------------------------------------------------

  /** The keys that may name an element, the first present deciding. */
  const NAMES: seq<string> := ["id", "name", "alias", "api-key", "api_key", "apikey", "key", "provider", "model"]

  function KeyAt(n: Y, i: nat): string
    requires n != Nil && 2 * i + 1 < |n.content| && n.content[2 * i] != Nil
  {
    Text.ToLower(Text.TrimSpace(n.content[2 * i].value))
  }

  /** The k-th of these keys names the element: it has that key once, with this text, and none of the earlier ones. */
  ghost predicate Named(n: Y, k: nat, text: string) {
    && n != Nil && n.kind == Mapping && k < |NAMES| && text != ""
    && |n.content| % 2 == 0 && (forall i :: 0 <= i < |n.content| ==> n.content[i] != Nil)
    && (exists i :: 0 <= i && 2 * i + 1 < |n.content| && NamesAt(n, k, text, i))
    && (forall i, j :: 0 <= i && 2 * i + 1 < |n.content| && 0 <= j < k && j < |NAMES| ==>
          KeyAt(n, i) != NAMES[j])
  }

  ghost predicate NamesAt(n: Y, k: nat, text: string, i: nat)
    requires n != Nil && k < |NAMES| && 2 * i + 1 < |n.content|
    requires forall i :: 0 <= i < |n.content| ==> n.content[i] != Nil
  {
    && KeyAt(n, i) == NAMES[k] && n.content[2 * i + 1].kind == Scalar
    && Text.TrimSpace(n.content[2 * i + 1].value) == text
    && forall j :: 0 <= j < i ==> KeyAt(n, j) != NAMES[k]
  }

  lemma NamesAreLower(j: nat)
    requires j < |NAMES|
    ensures Text.ToLower(NAMES[j]) == NAMES[j] && NAMES[j] == IDENTITY_KEYS[j] && |NAMES| == |IDENTITY_KEYS|
  {
    assert Text.ToLower("id") == "id" && Text.ToLower("name") == "name" && Text.ToLower("alias") == "alias";
    assert Text.ToLower("api-key") == "api-key" && Text.ToLower("api_key") == "api_key";
    assert Text.ToLower("apikey") == "apikey" && Text.ToLower("key") == "key";
    assert Text.ToLower("provider") == "provider" && Text.ToLower("model") == "model";
  }

  lemma {:induction false} NothingUnder(n: Y, key: string, i: nat)
    requires n != Nil && |n.content| % 2 == 0 && (forall i :: 0 <= i < |n.content| ==> n.content[i] != Nil)
    requires forall j :: i <= j && 2 * j + 1 < |n.content| ==> KeyAt(n, j) != Text.ToLower(key)
    ensures ScalarUnder(n.content, key, 2 * i) == ""
    decreases |n.content| - i
  {
    hide Text.ToLower, Text.TrimSpace;
    if 2 * i + 1 < |n.content| {
      assert KeyAt(n, i) != Text.ToLower(key);
      NothingUnder(n, key, i + 1);
    }
  }

  lemma {:induction false} FoundUnder(n: Y, k: nat, text: string, at: nat, i: nat)
    requires n != Nil && |n.content| % 2 == 0 && (forall i :: 0 <= i < |n.content| ==> n.content[i] != Nil)
    requires k < |NAMES| && i <= at && 2 * at + 1 < |n.content| && NamesAt(n, k, text, at)
    ensures ScalarUnder(n.content, NAMES[k], 2 * i) == text
    decreases at - i
  {
    hide Text.ToLower, Text.TrimSpace;
    NamesAreLower(k);
    if i < at {
      assert KeyAt(n, i) != NAMES[k];
      FoundUnder(n, k, text, at, i + 1);
    }
  }

  /** The identity by which elements are matched. */
  lemma IdentityOfNamed(n: Y, k: nat, text: string)
    requires Named(n, k, text)
    ensures Identity(n) == NAMES[k] + "=" + text
  {
    hide ScalarUnder, NamesAt, Text.ToLower, Text.TrimSpace;
    NamesAreLower(0);
    assert NAMES == IDENTITY_KEYS by {
      forall j | 0 <= j < |NAMES|
        ensures NAMES[j] == IDENTITY_KEYS[j]
      {
        NamesAreLower(j);
      }
    }
    IdentityFrom(n, k, text, 0);
    assert NAMES[0..] == NAMES;
    assert |NAMES[k] + "=" + text| > 0;
  }

  lemma {:induction false} IdentityFrom(n: Y, k: nat, text: string, j: nat)
    requires Named(n, k, text) && j <= k
    ensures NamedIdentity(n.content, NAMES[j..]) == NAMES[k] + "=" + text
    decreases k - j
  {
    hide ScalarUnder, NamesAt, Text.ToLower, Text.TrimSpace;
    assert NAMES[j..][0] == NAMES[j] && NAMES[j..][1..] == NAMES[j + 1..];
    NamesAreLower(j);
    if j == k {
      var at :| 0 <= at && 2 * at + 1 < |n.content| && NamesAt(n, k, text, at);
      FoundUnder(n, k, text, at, 0);
    } else {
      NothingUnder(n, NAMES[j], 0);
      IdentityFrom(n, k, text, j + 1);
    }
  }

  // ----- reordered lists ----------------------------------------------------------------------------------

  /** The element is a scalar with this text, or named by it under the k-th key. */
  ghost predicate Labelled(n: Y, k: Option<nat>, text: string) {
    match k
    case None => n != Nil && n.kind == Scalar && Text.TrimSpace(n.value) == text && text != ""
    case Some(k) => Named(n, k, text)
  }

  /** Every element is labelled the same way, each by another text. */
  ghost predicate AllLabelled(c: seq<Y>, k: Option<nat>, texts: seq<string>) {
    && |texts| == |c|
    && (forall i :: 0 <= i < |c| ==> Labelled(c[i], k, texts[i]))
    && (forall i, j :: 0 <= i < j < |texts| ==> texts[i] != texts[j])
  }

  lemma SameLabelExactly(a: Y, b: Y, k: Option<nat>, s: string, t: string)
    requires Labelled(a, k, s) && Labelled(b, k, t)
    ensures b != Nil && (SameIdentity(a, b) <==> s == t)
  {
    hide Named;
    match k
    case None =>
    case Some(k) => SameNameExactly(a, b, k, s, t);
  }

  lemma SameNameExactly(a: Y, b: Y, k: nat, s: string, t: string)
    requires Named(a, k, s) && Named(b, k, t)
    ensures b != Nil && (SameIdentity(a, b) <==> s == t)
  {
    hide Identity, Named;
    NamedIsMapping(a, k, s);
    NamedIsMapping(b, k, t);
    IdentityOfNamed(a, k, s);
    IdentityOfNamed(b, k, t);
    var n := |NAMES[k]| + 1;
    assert (NAMES[k] + "=" + s)[n..] == s && (NAMES[k] + "=" + t)[n..] == t;
    assert |NAMES[k] + "=" + t| > 0;
  }

  lemma LabelledIsThere(n: Y, k: Option<nat>, text: string)
    requires Labelled(n, k, text)
    ensures n != Nil
  {
  }

  lemma NamedIsMapping(n: Y, k: nat, text: string)
    requires Named(n, k, text)
    ensures n != Nil && n.kind == Mapping && k < |NAMES|
  {
  }

  lemma {:induction false} FirstUnusedNamed(old_: seq<Y>, used: set<nat>, target: Y, k: Option<nat>, texts: seq<string>,
                                           j: nat, i: nat)
    requires AllLabelled(old_, k, texts) && i <= j < |old_| && Labelled(target, k, texts[j]) && j !in used
    ensures target != Nil && FirstUnused(old_, used, target, true, i) == j
    decreases j - i
  {
    hide Labelled, SameIdentity;
    LabelledIsThere(old_[i], k, texts[i]);
    SameLabelExactly(old_[i], target, k, texts[i], texts[j]);
    if i < j { FirstUnusedNamed(old_, used, target, k, texts, j, i + 1); }
  }

  /** Where an element's name stands among the old names. */
  ghost predicate Places(places: seq<nat>, oldTexts: seq<string>, texts: seq<string>) {
    |places| == |texts| && forall i :: 0 <= i < |texts| ==> places[i] < |oldTexts| && oldTexts[places[i]] == texts[i]
  }

  lemma {:induction false} AssignNamed(old_: seq<Y>, src: seq<Y>, k: Option<nat>,
                                      oldTexts: seq<string>, texts: seq<string>, places: seq<nat>)
    requires AllLabelled(old_, k, oldTexts) && AllLabelled(src, k, texts) && Places(places, oldTexts, texts)
    ensures Assign(old_, src) == places
  {
    hide Labelled, MatchElement;
    if src != [] {
      var n := |src| - 1;
      AssignNamed(old_, src[..n], k, oldTexts, texts[..n], places[..n]);
      assert places[n] !in Taken(places[..n]) by {
        assert forall i :: 0 <= i < n ==> oldTexts[places[i]] != oldTexts[places[n]];
      }
      MatchNamed(old_, Taken(places[..n]), src[n], k, oldTexts, places[n]);
      assert places == places[..n] + [places[n]];
    }
  }

  lemma MatchNamed(old_: seq<Y>, used: set<nat>, target: Y, k: Option<nat>, texts: seq<string>, j: nat)
    requires AllLabelled(old_, k, texts) && j < |old_| && Labelled(target, k, texts[j]) && j !in used
    ensures MatchElement(old_, used, target) == j
  {
    hide Labelled, FirstUnused;
    FirstUnusedNamed(old_, used, target, k, texts, j, 0);
  }

  /**
   A list of scalars or named elements that is only reordered or cut keeps every element's node, and so
   its comments, wherever the element now stands.
   */
  lemma ReorderedKeepNotes(d: Y, s: Y, path: Path, k: Option<nat>, oldTexts: seq<string>, texts: seq<string>,
                           places: seq<nat>, i: nat)
    requires d != Nil && s != Nil && d.kind == Sequence && s.kind == Sequence && i < |s.content|
    requires AllLabelled(d.content, k, oldTexts) && AllLabelled(s.content, k, texts) && Places(places, oldTexts, texts)
    ensures var r := MergeNode(d, s, path);
      && r.kind == Sequence && |r.content| == |s.content| && d.content[places[i]] != Nil
      && r.content[i] != Nil && r.content[i].note == d.content[places[i]].note
  {
    hide Labelled, Assign, MergeElements;
    AssignNamed(d.content, s.content, k, oldTexts, texts, places);
    var old_ := d.content[places[i]];
    LabelledIsThere(old_, k, texts[i]);
    var r := Reorder(d.content, s.content);
    assert r[i] == old_;
    ElementAt(r, s, path, i);
    ElementKeepsNote(r, s, path, i);
  }

  lemma ElementAt(r: seq<Y>, s: Y, path: Path, i: nat)
    requires s != Nil && i < |s.content|
    ensures MergeElements(r, s, path)[i] == MergeElement(r, s, path, i)
  {
  }

  lemma ElementKeepsNote(r: seq<Y>, s: Y, path: Path, i: nat)
    requires s != Nil && i < |s.content| && i < |r| && r[i] != Nil
    ensures MergeElement(r, s, path, i) != Nil && MergeElement(r, s, path, i).note == r[i].note
  {
    hide MergeNode;
  }

  // ----- elements without a name ------------------------------------------------------------------------

  /** A tree's values alone: no comments, styles or tags, scalars without outer white space. */
  datatype Value = Missing | Leaf(kind: Kind, text: string) | Tree(kind: Kind, parts: seq<Value>)

  function ValueOf(n: Y): Value {
    if n == Nil then Missing
    else if n.kind == Mapping || n.kind == Sequence then
      Tree(n.kind, seq(|n.content|, i requires 0 <= i < |n.content| => ValueOf(n.content[i])))
    else Leaf(n.kind, Text.TrimSpace(n.value))
  }

  /** Scalars, mappings in pairs, and lists, all the way down. */
  ghost predicate Regular(n: Y)
    decreases n
  {
    && n != Nil && (n.kind == Scalar || n.kind == Mapping || n.kind == Sequence)
    && (n.kind == Mapping ==> |n.content| % 2 == 0)
    && (n.kind != Scalar ==> forall i :: 0 <= i < |n.content| ==> Regular(n.content[i]))
  }

  lemma {:induction false} SameStructureExactly(a: Y, b: Y)
    requires Regular(a) && Regular(b)
    ensures SameStructure(a, b) <==> ValueOf(a) == ValueOf(b)
    decreases a
  {
    hide Text.TrimSpace;
    if a.kind != Scalar { assert |ValueOf(a).parts| == |a.content|; }
    if b.kind != Scalar { assert |ValueOf(b).parts| == |b.content|; }
    if a.kind == b.kind && a.kind != Scalar && |a.content| == |b.content| {
      forall i | 0 <= i < |a.content|
        ensures SameStructure(a.content[i], b.content[i]) <==> ValueOf(a.content[i]) == ValueOf(b.content[i])
      {
        SameStructureExactly(a.content[i], b.content[i]);
      }
      SamePartsExactly(a, b);
    }
  }

  lemma SamePartsExactly(a: Y, b: Y)
    requires Regular(a) && Regular(b) && a.kind == b.kind && a.kind != Scalar && |a.content| == |b.content|
    ensures ValueOf(a) == ValueOf(b) <==>
      forall i :: 0 <= i < |a.content| ==> ValueOf(a.content[i]) == ValueOf(b.content[i])
  {
    var x, y := ValueOf(a).parts, ValueOf(b).parts;
    assert forall i :: 0 <= i < |a.content| ==> x[i] == ValueOf(a.content[i]) && y[i] == ValueOf(b.content[i]);
    if forall i :: 0 <= i < |a.content| ==> ValueOf(a.content[i]) == ValueOf(b.content[i]) { assert x == y; }
  }

  /** A list, or a mapping without a scalar in it: nothing to name it by. */
  ghost predicate Nameless(n: Y) {
    && Regular(n) && n.kind != Scalar
    && (n.kind == Mapping ==> forall i :: 0 <= i < |n.content| && i % 2 == 1 ==>
          n.content[i] != Nil && n.content[i].kind != Scalar)
  }

  lemma {:induction false} NoScalarUnder(c: seq<Y>, key: string, i: nat)
    requires i % 2 == 0 && forall j :: 0 <= j < |c| && j % 2 == 1 ==> c[j] == Nil || c[j].kind != Scalar
    ensures ScalarUnder(c, key, i) == "" && FirstScalar(c, i) == ""
    decreases |c| - i
  {
    hide Text.TrimSpace, Text.ToLower;
    if i + 1 < |c| { NoScalarUnder(c, key, i + 2); }
  }

  lemma {:induction false} NoNamedIdentity(c: seq<Y>, keys: seq<string>)
    requires forall j :: 0 <= j < |c| && j % 2 == 1 ==> c[j] == Nil || c[j].kind != Scalar
    ensures NamedIdentity(c, keys) == ""
  {
    hide ScalarUnder;
    if keys != [] {
      NoScalarUnder(c, keys[0], 0);
      NoNamedIdentity(c, keys[1..]);
    }
  }

  lemma NamelessHasNoIdentity(n: Y)
    requires Nameless(n)
    ensures n != Nil && Identity(n) == "" && n.kind != Scalar
  {
    if n.kind == Mapping {
      NoScalarUnder(n.content, "", 0);
      NoNamedIdentity(n.content, IDENTITY_KEYS);
    }
  }

  /** Nameless elements, no two of the same value. */
  ghost predicate AllNameless(c: seq<Y>) {
    && (forall i :: 0 <= i < |c| ==> Nameless(c[i]))
    && (forall i, j :: 0 <= i < j < |c| ==> ValueOf(c[i]) != ValueOf(c[j]))
  }

  lemma {:induction false} NobodyByIdentity(old_: seq<Y>, used: set<nat>, target: Y, i: nat)
    requires i <= |old_| && target != Nil && target.kind != Scalar && Identity(target) == ""
    ensures FirstUnused(old_, used, target, true, i) == |old_|
    decreases |old_| - i
  {
    hide Identity, Text.TrimSpace;
    if i < |old_| { NobodyByIdentity(old_, used, target, i + 1); }
  }

  lemma {:induction false} FirstUnusedAlike(old_: seq<Y>, used: set<nat>, target: Y, j: nat, i: nat)
    requires AllNameless(old_) && Nameless(target) && i <= j < |old_| && j !in used
    requires ValueOf(target) == ValueOf(old_[j])
    ensures target != Nil && FirstUnused(old_, used, target, false, i) == j
    decreases j - i
  {
    hide ValueOf, SameStructure;
    SameStructureExactly(old_[i], target);
    if i < j { FirstUnusedAlike(old_, used, target, j, i + 1); }
  }

  lemma MatchAlike(old_: seq<Y>, used: set<nat>, target: Y, j: nat)
    requires AllNameless(old_) && Nameless(target) && j < |old_| && j !in used && ValueOf(target) == ValueOf(old_[j])
    ensures MatchElement(old_, used, target) == j
  {
    hide FirstUnused, Identity, ValueOf, Nameless;
    NamelessHasNoIdentity(target);
    NobodyByIdentity(old_, used, target, 0);
    FirstUnusedAlike(old_, used, target, j, 0);
  }

  /** Where an element's value stands among the old ones. */
  ghost predicate ValuePlaces(places: seq<nat>, old_: seq<Y>, src: seq<Y>) {
    && |places| == |src|
    && forall i :: 0 <= i < |src| ==> places[i] < |old_| && ValueOf(src[i]) == ValueOf(old_[places[i]])
  }

  lemma {:induction false} AssignAlike(old_: seq<Y>, src: seq<Y>, places: seq<nat>)
    requires AllNameless(old_) && AllNameless(src) && ValuePlaces(places, old_, src)
    ensures Assign(old_, src) == places
  {
    hide MatchElement, ValueOf, Nameless;
    if src != [] {
      var n := |src| - 1;
      AssignAlike(old_, src[..n], places[..n]);
      assert places[n] !in Taken(places[..n]) by {
        assert forall i :: 0 <= i < n ==> ValueOf(old_[places[i]]) != ValueOf(old_[places[n]]);
      }
      MatchAlike(old_, Taken(places[..n]), src[n], places[n]);
      assert places == places[..n] + [places[n]];
    }
  }

  /** A list of nameless elements that is only reordered or cut keeps every element's node as well. */
  lemma UnchangedKeepNotes(d: Y, s: Y, path: Path, places: seq<nat>, i: nat)
    requires d != Nil && s != Nil && d.kind == Sequence && s.kind == Sequence && i < |s.content|
    requires AllNameless(d.content) && AllNameless(s.content) && ValuePlaces(places, d.content, s.content)
    ensures var r := MergeNode(d, s, path);
      && r.kind == Sequence && |r.content| == |s.content| && d.content[places[i]] != Nil
      && r.content[i] != Nil && r.content[i].note == d.content[places[i]].note
  {
    hide Assign, MergeElements, MergeNode, ValueOf, Nameless;
    AssignAlike(d.content, s.content, places);
    NamelessIsThere(d.content[places[i]]);
    MergedSequence(d, s, path);
    var r := Reorder(d.content, s.content);
    assert r[i] == d.content[places[i]];
    ElementAt(r, s, path, i);
    ElementKeepsNote(r, s, path, i);
  }

  lemma NamelessIsThere(n: Y)
    requires Nameless(n)
    ensures n != Nil
  {
  }

  // ----- no stray keys -------------------------------------------------------------------------------------

  /** Some key of c is spelled like this one, but for outer white space. */
  ghost predicate HasKeyLike(c: seq<Y>, key: string) {
    exists p :: 0 <= p && p + 1 < |c| && p % 2 == 0 && c[p] != Nil && Text.TrimSpace(c[p].value) == Text.TrimSpace(key)
  }

  lemma {:induction false} KeptAreKnown(c: seq<Y>, keep: set<string>, p: nat)
    requires |c| % 2 == 0 && p < |KeepPairs(c, keep)| && p % 2 == 0 && KeepPairs(c, keep)[p] != Nil
    ensures Text.TrimSpace(KeepPairs(c, keep)[p].value) in keep
    decreases |c|
  {
    hide Text.TrimSpace;
    if |c| >= 2 {
      if !KeepPair(c[0], keep) {
        KeptAreKnown(c[2..], keep, p);
      } else if p >= 2 {
        KeptAreKnown(c[2..], keep, p - 2);
      }
    }
  }

  /** An element of a merged list that is a mapping has no key its source lacks. */
  lemma NoStrayKeys(d: Y, s: Y, path: Path, i: nat, p: nat)
    requires d != Nil && s != Nil && Paired(d) && WellFormed(s)
    requires d.kind == Sequence && s.kind == Sequence && i < |s.content|
    requires s.content[i] != Nil && s.content[i].kind == Mapping
    ensures var r := MergeNode(d, s, path);
      && r.kind == Sequence && |r.content| == |s.content| && r.content[i] != Nil && r.content[i].kind == Mapping
      && (p < |r.content[i].content| && p % 2 == 0 && r.content[i].content[p] != Nil ==>
            HasKeyLike(s.content[i].content, r.content[i].content[p].value))
  {
    hide Assign, MergeElements, MergeNode, Paired, WellFormed, HasKeyLike, KeepPairs, Reorder;
    var r, e := Reorder(d.content, s.content), s.content[i];
    MergedSequence(d, s, path);
    ElementAt(r, s, path, i);
    ElementsPaired(d);
    ReorderPaired(d.content, s.content);
    SourceElementOf(s, i);
    if i < |r| && r[i] != Nil {
      var m := MergeNode(r[i], e, path);
      MergePaired(r[i], e, path);
      MergedIsMapping(r[i], e, path);
      PairedMapping(m);
      var x := PruneMissing(m, e);
      if p < |x.content| && p % 2 == 0 && x.content[p] != Nil {
        KeptAreKnown(m.content, KeysOf(e.content), p);
        KeyLike(e.content, x.content[p].value);
      }
    } else if p < |e.content| && p % 2 == 0 && e.content[p] != Nil {
      OwnKeyLike(e, p);
    }
  }

  lemma MergedSequence(d: Y, s: Y, path: Path)
    requires d != Nil && s != Nil && d.kind == Sequence && s.kind == Sequence
    ensures MergeNode(d, s, path) == d.(content := MergeElements(Reorder(d.content, s.content), s, path))
  {
    hide MergeElements, Reorder;
  }

  lemma ElementsPaired(d: Y)
    requires d != Nil && Paired(d) && d.kind == Sequence
    ensures forall i :: 0 <= i < |d.content| ==> Paired(d.content[i])
  {
  }

  lemma SourceElementOf(s: Y, i: nat)
    requires s != Nil && WellFormed(s) && s.kind == Sequence && i < |s.content|
    ensures s.content[i] != Nil && WellFormed(s.content[i])
  {
  }

  lemma MergedIsMapping(d: Y, s: Y, path: Path)
    requires d != Nil && s != Nil && s.kind == Mapping
    ensures MergeNode(d, s, path) != Nil && MergeNode(d, s, path).kind == Mapping
  {
    hide MergePairs;
  }

  lemma KeyLike(c: seq<Y>, key: string)
    requires Text.TrimSpace(key) in KeysOf(c)
    ensures HasKeyLike(c, key)
  {
    hide Text.TrimSpace;
  }

  lemma OwnKeyLike(e: Y, p: nat)
    requires e != Nil && WellFormed(e) && e.kind == Mapping && p < |e.content| && p % 2 == 0 && e.content[p] != Nil
    ensures HasKeyLike(e.content, e.content[p].value)
  {
    hide Text.TrimSpace;
    assert p + 1 < |e.content|;
  }
}
