/**
 Exactly when merging the same source again changes nothing, comments included. A merge can
 change the very values by which the next one matches sequence elements.
 */
module YamlTwice {
  import opened YamlSpec
  import opened YamlReflect
  import Text

  // ----- the condition -----------------------------------------------------------------------------

  /**
   d already says what s says and every element of s finds itself: scalars agree, keys of s
   that d lacks are defaults, and each sequence element takes over the one in its place.
   */
  ghost predicate Settled(d: Y, s: Y, path: Path)
    requires s != Nil
    decreases s, 1
  {
    && d != Nil
    && match s.kind
       case Scalar => d.kind == Scalar && d.tag == s.tag && d.value == s.value
       case Mapping =>
         d.kind == Mapping && forall i :: 0 <= i && 2 * i + 1 < |s.content| ==> SettledKey(d.content, s, path, i)
       case Sequence =>
         || NullFor(d, s)
         || (d.kind == Sequence && |d.content| == |s.content|
             && forall i :: 0 <= i < |s.content| ==> SettledElement(d.content, s, path, i))
       case _ => true
  }

  ghost predicate SettledKey(c: seq<Y>, s: Y, path: Path, i: nat)
    requires s != Nil && 2 * i + 1 < |s.content|
    decreases s, 0
  {
    var k, v := s.content[2 * i], s.content[2 * i + 1];
    k != Nil && v != Nil &&
    var at := FindKey(c, k.value);
    if at < |c| then Settled(c[at + 1], v, path + [k.value])
    else IsKnownDefault(path + [k.value], Prune(path + [k.value], v))
  }

  /** Element i is matched with the one in its place, which is settled; or with none, and is the source's own. */
  ghost predicate SettledElement(c: seq<Y>, s: Y, path: Path, i: nat)
    requires s != Nil && |c| == |s.content| && i < |s.content|
    decreases s, 0
  {
    var pick, e := Assign(c, s.content)[i], s.content[i];
    || (pick == i && e != Nil && Settled(c[i], e, path) && PruneMissing(c[i], e) == c[i])
    || (pick == |c| && c[i] == e)
  }

  /** Comments tell the elements of every sequence apart. */
  ghost predicate ToldApart(d: Y)
    decreases d
  {
    d != Nil ==>
      && (forall i :: 0 <= i < |d.content| ==> ToldApart(d.content[i]))
      && (d.kind == Sequence ==>
            forall i, j :: 0 <= i < j < |d.content| && d.content[i] != Nil && d.content[j] != Nil ==>
              d.content[i].note != d.content[j].note)
  }

  // ----- settled means unchanged -------------------------------------------------------------------

  lemma {:induction false} SettledStays(d: Y, s: Y, path: Path)
    requires s != Nil && WellFormed(s) && Settled(d, s, path)
    ensures MergeNode(d, s, path) == d
    decreases s, 2
  {
    match s.kind
    case Scalar =>
    case Mapping => SettledPairs(d.content, s, path, |s.content| / 2);
    case Sequence =>
      if !NullFor(d, s) {
        SettledElements(d.content, s, path);
      }
  }

  lemma {:induction false} SettledPairs(c: seq<Y>, s: Y, path: Path, n: nat)
    requires s != Nil && WellFormed(s) && s.kind == Mapping && 2 * n <= |s.content|
    requires forall i :: 0 <= i && 2 * i + 1 < |s.content| ==> SettledKey(c, s, path, i)
    ensures MergePairs(c, s, path, n) == c
    decreases s, 1, n
  {
    hide WellFormed, SettledKey, MergePair, MergePairs, Existing;
    if n == 0 {
      NoPairsMerged(c, s, path);
    } else {
      SettledPairs(c, s, path, n - 1);
      MergePairsNext(c, s, path, n - 1);
      SourcePair(s, n - 1);
      assert SettledKey(c, s, path, n - 1);
      SettledPair(c, s, path, n - 1);
    }
  }

  lemma SettledPair(c: seq<Y>, s: Y, path: Path, i: nat)
    requires s != Nil && 2 * i + 1 < |s.content| && SettledKey(c, s, path, i) && WellFormed(s.content[2 * i + 1])
    ensures var k, v := s.content[2 * i], s.content[2 * i + 1];
      k != Nil && MergePair(c, k, v, path, MergeNode(Existing(c, k), v, path + [k.value])) == c
    decreases s, 0
  {
    hide FindKey, IsKnownDefault, Prune, WellFormed, MergeNode;
    var k, v := s.content[2 * i], s.content[2 * i + 1];
    var at := FindKey(c, k.value);
    if at < |c| {
      SettledStays(c[at + 1], v, path + [k.value]);
      assert c[at + 1 := c[at + 1]] == c;
    }
  }

  lemma {:induction false} SettledElements(c: seq<Y>, s: Y, path: Path)
    requires s != Nil && WellFormed(s) && s.kind == Sequence && |c| == |s.content|
    requires forall i :: 0 <= i < |s.content| ==> SettledElement(c, s, path, i)
    ensures MergeElements(Reorder(c, s.content), s, path) == c
    decreases s, 1
  {
    hide Assign, PruneMissing;
    var r := Reorder(c, s.content);
    forall i | 0 <= i < |c|
      ensures MergeElement(r, s, path, i) == c[i]
    {
      assert SettledElement(c, s, path, i);
      if Assign(c, s.content)[i] == i { SettledStays(c[i], s.content[i], path); }
    }
  }

  // ----- unchanged means settled -------------------------------------------------------------------

  lemma FindSameKeys(c: seq<Y>, e: seq<Y>, key: string)
    requires |c| == |e| && forall p :: 0 <= p < |c| && p % 2 == 0 ==> e[p] == c[p]
    ensures FindKey(e, key) == FindKey(c, key)
  {
    FindIsFirst(c, key);
    FindIsFirst(e, key);
    if FindKey(c, key) < |c| { FoundAt(e, key, FindKey(c, key)); }
  }

  /** What the first n pairs of s did to c, provided they added nothing. */
  ghost predicate InPlace(c: seq<Y>, e: seq<Y>, s: Y, path: Path, n: nat)
    requires s != Nil && 2 * n <= |s.content|
  {
    && |e| == |c|
    && (forall p :: 0 <= p < |c| && p % 2 == 0 ==> e[p] == c[p])
    && (forall p :: 0 <= p && p + 1 < |c| && p % 2 == 0 && c[p] != Nil && NotAmong(s, n, c[p].value) ==>
          e[p + 1] == c[p + 1])
    && (forall i :: 0 <= i < n ==> PairInPlace(c, e, s, path, i))
  }

  ghost predicate NotAmong(s: Y, n: nat, key: string)
    requires s != Nil && 2 * n <= |s.content|
  {
    forall i :: 0 <= i < n ==> s.content[2 * i] != Nil && s.content[2 * i].value != key
  }

  ghost predicate PairInPlace(c: seq<Y>, e: seq<Y>, s: Y, path: Path, i: nat)
    requires s != Nil && 2 * i + 1 < |s.content| && |e| == |c|
  {
    var k, v := s.content[2 * i], s.content[2 * i + 1];
    k != Nil &&
    var at := FindKey(c, k.value);
    if at < |c| then e[at + 1] == MergeNode(c[at + 1], v, path + [k.value])
    else IsKnownDefault(path + [k.value], Prune(path + [k.value], v))
  }

  lemma {:induction false} UnchangedPairs(c: seq<Y>, s: Y, path: Path, n: nat)
    requires s != Nil && WellFormed(s) && s.kind == Mapping && 2 * n <= |s.content|
    ensures |MergePairs(c, s, path, n)| >= |c|
    ensures |MergePairs(c, s, path, n)| == |c| ==> InPlace(c, MergePairs(c, s, path, n), s, path, n)
    decreases n
  {
    hide FindKey, IsKnownDefault, Prune, MergeNode, WellFormed;
    if n > 0 {
      UnchangedPairs(c, s, path, n - 1);
      SourcePair(s, n - 1);
      var before := MergePairs(c, s, path, n - 1);
      if |MergePairs(c, s, path, n)| == |c| { PairStep(c, before, s, path, n); }
    }
  }

  lemma PairStep(c: seq<Y>, before: seq<Y>, s: Y, path: Path, n: nat)
    requires s != Nil && WellFormed(s) && s.kind == Mapping && 0 < n && 2 * n <= |s.content|
    requires before == MergePairs(c, s, path, n - 1) && InPlace(c, before, s, path, n - 1)
    requires |MergePairs(c, s, path, n)| == |c|
    ensures InPlace(c, MergePairs(c, s, path, n), s, path, n)
  {
    hide FindKey, IsKnownDefault, Prune, MergeNode, MergePairs, WellFormed, PairInPlace;
    KeysApart(s, n);
    var k := s.content[2 * n - 2];
    var at, e := FindKey(c, k.value), MergePairs(c, s, path, n);
    PairEffect(c, before, s, path, n);
    FindIsFirst(c, k.value);
    forall i | 0 <= i < n - 1
      ensures PairInPlace(c, e, s, path, i)
    {
      assert PairInPlace(c, before, s, path, i);
      OtherPairInPlace(c, before, e, s, path, i, at);
    }
    forall p | 0 <= p && p + 1 < |c| && p % 2 == 0 && c[p] != Nil && NotAmong(s, n, c[p].value)
      ensures e[p + 1] == c[p + 1]
    {
      assert NotAmong(s, n - 1, c[p].value);
      assert s.content[2 * (n - 1)].value != c[p].value;
    }
  }

  /** The keys of a well-formed source differ. */
  lemma KeysApart(s: Y, n: nat)
    requires s != Nil && WellFormed(s) && s.kind == Mapping && 0 < n && 2 * n <= |s.content|
    ensures s.content[2 * n - 2] != Nil && NotAmong(s, n - 1, s.content[2 * n - 2].value)
  {
  }

  /** The n-th pair replaces its own value, or finds its key missing and its value a default. */
  lemma PairEffect(c: seq<Y>, before: seq<Y>, s: Y, path: Path, n: nat)
    requires s != Nil && 0 < n && 2 * n <= |s.content| && s.content[2 * n - 2] != Nil
    requires NotAmong(s, n - 1, s.content[2 * n - 2].value)
    requires before == MergePairs(c, s, path, n - 1) && InPlace(c, before, s, path, n - 1)
    requires |MergePairs(c, s, path, n)| == |c|
    ensures var k := s.content[2 * n - 2];
      var at, e := FindKey(c, k.value), MergePairs(c, s, path, n);
      && PairInPlace(c, e, s, path, n - 1)
      && e == if at < |c| then before[at + 1 := e[at + 1]] else before
  {
    hide FindKey, IsKnownDefault, Prune, MergeNode, PairInPlace, MergePairs;
    var k, v := s.content[2 * n - 2], s.content[2 * n - 1];
    MergePairsNext(c, s, path, n - 1);
    FindSameKeys(c, before, k.value);
    FindIsFirst(c, k.value);
    OwnPairInPlace(c, MergePairs(c, s, path, n), s, path, n - 1);
  }

  lemma OwnPairInPlace(c: seq<Y>, e: seq<Y>, s: Y, path: Path, i: nat)
    requires s != Nil && 2 * i + 1 < |s.content| && s.content[2 * i] != Nil && |e| == |c|
    requires var k, v := s.content[2 * i], s.content[2 * i + 1];
      var at := FindKey(c, k.value);
      if at < |c| then e[at + 1] == MergeNode(c[at + 1], v, path + [k.value])
      else IsKnownDefault(path + [k.value], Prune(path + [k.value], v))
    ensures PairInPlace(c, e, s, path, i)
  {
  }

  /** A change at another key's value leaves pair i as it is. */
  lemma OtherPairInPlace(c: seq<Y>, before: seq<Y>, e: seq<Y>, s: Y, path: Path, i: nat, at: nat)
    requires s != Nil && 2 * i + 1 < |s.content| && |before| == |e| == |c| && PairInPlace(c, before, s, path, i)
    requires at < |c| ==> at + 1 < |c| && c[at] != Nil && c[at].value != s.content[2 * i].value
    requires e == if at < |c| then before[at + 1 := e[at + 1]] else before
    ensures PairInPlace(c, e, s, path, i)
  {
    hide FindKey, IsKnownDefault, Prune, MergeNode;
    FindIsFirst(c, s.content[2 * i].value);
  }

  // ----- removing stray keys cannot make up for adding new ones ----------------------------------------

  /** If the pairs of s made c longer, some key of s that c lacks is now found. */
  lemma {:induction false} LongerHasNewKey(c: seq<Y>, s: Y, path: Path, n: nat) returns (i: nat)
    requires s != Nil && WellFormed(s) && s.kind == Mapping && 2 * n <= |s.content| && |c| % 2 == 0
    requires |MergePairs(c, s, path, n)| > |c|
    ensures 2 * i + 1 < |s.content| && s.content[2 * i] != Nil && FindKey(c, s.content[2 * i].value) == |c|
    ensures var e := MergePairs(c, s, path, n); FindKey(e, s.content[2 * i].value) < |e|
    decreases n
  {
    hide FindKey, IsKnownDefault, Prune, MergeNode, MergePairs, WellFormed, Existing;
    if n == 0 { NoPairsMerged(c, s, path); }
    var before := MergePairs(c, s, path, n - 1);
    var k, v := s.content[2 * n - 2], s.content[2 * n - 1];
    KeysApart(s, n);
    MergePairsNext(c, s, path, n - 1);
    UnchangedPairs(c, s, path, n - 1);
    LengthIsEven(c, s, path, n - 1);
    FindIsFirst(before, k.value);
    if |before| > |c| {
      i := LongerHasNewKey(c, s, path, n - 1);
      StillFound(before, k, v, path, MergeNode(Existing(before, k), v, path + [k.value]), s.content[2 * i].value);
    } else {
      i := n - 1;
      FindSameKeys(c, before, k.value);
      FindAfterPair(before, k.value, k, Prune(path + [k.value], v));
    }
  }

  lemma StillFound(c: seq<Y>, k: Y, v: Y, path: Path, merged: Y, key: string)
    requires k != Nil && |c| % 2 == 0 && FindKey(c, key) < |c|
    ensures var e := MergePair(c, k, v, path, merged); FindKey(e, key) < |e|
  {
    hide FindKey, IsKnownDefault, Prune;
    FindIsFirst(c, k.value);
    if FindKey(c, k.value) < |c| {
      FindAfterValue(c, key, FindKey(c, k.value) + 1, merged);
    } else {
      FindAfterPair(c, key, k, Prune(path + [k.value], v));
    }
  }

  lemma {:induction false} LengthIsEven(c: seq<Y>, s: Y, path: Path, n: nat)
    requires s != Nil && 2 * n <= |s.content| && |c| % 2 == 0
    ensures |MergePairs(c, s, path, n)| % 2 == 0
    decreases n
  {
    hide FindKey, IsKnownDefault, Prune, MergeNode;
    if n > 0 { LengthIsEven(c, s, path, n - 1); }
  }

  lemma {:induction false} AllKept(c: seq<Y>, keep: set<string>)
    requires |KeepPairs(c, keep)| == |c|
    ensures KeepPairs(c, keep) == c
  {
    hide KeepPair;
    if |c| >= 2 {
      AllKept(c[2..], keep);
      assert c == c[..2] + c[2..];
    }
  }

  /** What a merge followed by the removal of stray keys leaves unchanged, the merge alone leaves unchanged. */
  lemma NoTradeOff(d: Y, s: Y, path: Path)
    requires d != Nil && s != Nil && Paired(d) && WellFormed(s) && PruneMissing(MergeNode(d, s, path), s) == d
    ensures MergeNode(d, s, path) == d
  {
    hide Paired, WellFormed, KeepPairs, KeysOf, MergePairs, FindKey;
    var x := MergeNode(d, s, path);
    if s.kind == Mapping {
      MergedMapping(d, s, path);
      var keep := KeysOf(s.content);
      PairedMapping(d);
      MergePaired(d, s, path);
      PairedMapping(x);
      UnchangedPairs(d.content, s, path, |s.content| / 2);
      if |x.content| > |d.content| {
        var i := LongerHasNewKey(d.content, s, path, |s.content| / 2);
        KeyIsKept(s, i);
        FindInKept(x.content, keep, s.content[2 * i].value);
        assert false;
      }
      AllKept(x.content, keep);
    }
  }

  /** A mapping merged into anything that ends up as it was must have been a mapping, merged pair by pair. */
  lemma MergedMapping(d: Y, s: Y, path: Path)
    requires d != Nil && s != Nil && s.kind == Mapping && PruneMissing(MergeNode(d, s, path), s) == d
    ensures d.kind == Mapping && MergeNode(d, s, path) == d.(content := MergePairs(d.content, s, path, |s.content| / 2))
    ensures KeepPairs(MergeNode(d, s, path).content, KeysOf(s.content)) == d.content
  {
    hide KeepPairs, KeysOf, MergePairs;
  }

  // ----- unchanged means settled ----------------------------------------------------------------------

  lemma {:induction false} StayingIsSettled(d: Y, s: Y, path: Path)
    requires d != Nil && s != Nil && Paired(d) && WellFormed(s) && ToldApart(d) && MergeNode(d, s, path) == d
    ensures Settled(d, s, path)
    decreases s, 2
  {
    hide MergePairs, MergeElements, Reorder, FindKey, Prune, IsKnownDefault;
    match s.kind
    case Scalar =>
    case Mapping => StayingPairs(d, s, path);
    case Sequence => if !NullFor(d, s) { StayingElements(d, s, path); }
  }

  lemma StayingPairs(d: Y, s: Y, path: Path)
    requires d != Nil && s != Nil && Paired(d) && WellFormed(s) && ToldApart(d)
    requires s.kind == Mapping && MergeNode(d, s, path) == d
    ensures Settled(d, s, path)
    decreases s, 1
  {
    hide MergePairs, FindKey, Prune, IsKnownDefault, Paired, WellFormed;
    var c, n := d.content, |s.content| / 2;
    UnchangedPairs(c, s, path, n);
    PairedMapping(d);
    assert MergePairs(c, s, path, n) == c;
    forall i | 0 <= i && 2 * i + 1 < |s.content|
      ensures SettledKey(c, s, path, i)
    {
      var k, v := s.content[2 * i], s.content[2 * i + 1];
      SourcePair(s, i);
      assert PairInPlace(c, c, s, path, i);
      FindIsFirst(c, k.value);
      if FindKey(c, k.value) < |c| { StayingIsSettled(c[FindKey(c, k.value) + 1], v, path + [k.value]); }
    }
  }

  lemma StayingElements(d: Y, s: Y, path: Path)
    requires d != Nil && s != Nil && Paired(d) && WellFormed(s) && ToldApart(d)
    requires s.kind == Sequence && !NullFor(d, s) && MergeNode(d, s, path) == d
    ensures Settled(d, s, path)
    decreases s, 1
  {
    hide PruneMissing, Assign, Paired, WellFormed, MergeNode;
    var c := d.content;
    StayingSequence(d, s, path);
    PairedSequence(d);
    assert AsSequence(d).content == c;
    forall i | 0 <= i < |s.content|
      ensures SettledElement(c, s, path, i)
    {
      var pick, e, r := Assign(c, s.content)[i], s.content[i], Reorder(c, s.content);
      assert c[i] == MergeElement(r, s, path, i);
      SourceElement(s, i);
      if pick < |c| {
        KeepsNote(c[pick], e, path);
        assert c[pick] != Nil && c[i] == PruneMissing(MergeNode(c[pick], e, path), e);
        assert c[i].note == c[pick].note;
        assert pick == i;
        assert Paired(AsSequence(d).content[i]);
        NoTradeOff(c[i], e, path);
        StayingIsSettled(c[i], e, path);
      }
    }
  }

  lemma StayingSequence(d: Y, s: Y, path: Path)
    requires d != Nil && s != Nil && s.kind == Sequence && !NullFor(d, s) && MergeNode(d, s, path) == d
    ensures d.kind == Sequence && d.content == MergeElements(Reorder(d.content, s.content), s, path)
  {
    hide MergeElements, Reorder;
  }

  lemma SourceElement(s: Y, i: nat)
    requires s != Nil && WellFormed(s) && s.kind == Sequence && i < |s.content|
    ensures s.content[i] != Nil && WellFormed(s.content[i])
  {
  }

  lemma KeepsNote(d: Y, s: Y, path: Path)
    requires d != Nil && s != Nil
    ensures var x := PruneMissing(MergeNode(d, s, path), s); x != Nil && x.note == d.note
  {
    hide MergeNode;
  }

  /**
   Merging the same source into any document twice gives what merging it once gives,
   comments included, if and only if the merged document is settled; the comments need to
   tell sequence elements apart only for the one direction.
   */
  lemma MergingTwiceExactly(d: Y, s: Y, path: Path)
    requires d != Nil && s != Nil && Paired(d) && WellFormed(s)
    ensures var once := MergeNode(d, s, path);
      && (Settled(once, s, path) ==> MergeNode(once, s, path) == once)
      && (ToldApart(once) && MergeNode(once, s, path) == once ==> Settled(once, s, path))
  {
    hide MergeNode, Settled, Paired, WellFormed, ToldApart;
    var once := MergeNode(d, s, path);
    MergePaired(d, s, path);
    KeepsNode(d, s, path);
    if Settled(once, s, path) { SettledStays(once, s, path); }
    if ToldApart(once) && MergeNode(once, s, path) == once { StayingIsSettled(once, s, path); }
  }

  lemma KeepsNode(d: Y, s: Y, path: Path)
    requires d != Nil
    ensures MergeNode(d, s, path) != Nil
  {
    hide MergeMapping, MergeElements;
  }

  // ----- a second merge that loses comments -----------------------------------------------------------

  function ScalarNode(value: string, note: string): Y {
    Node(Scalar, "!!str", value, note, [])
  }

  function Element(note: string, key1: string, value1: string, key2: string, value2: string): Y {
    Node(Mapping, "!!map", "", note,
         [ScalarNode(key1, note), ScalarNode(value1, note), ScalarNode(key2, note), ScalarNode(value2, note)])
  }

  function Items(elements: seq<Y>): Y {
    Node(Sequence, "!!seq", "", "", elements)
  }

  /** An element known by its first scalar: an empty one before it is filled in by the merge and takes its place. */
  const COMMENTED := Element("kept", "b", "", "a", "u")
  const FILLED := Element("kept", "b", "p", "a", "u")
  const WANTED := Element("", "a", "u", "b", "p")

  lemma OneLetter(c: char, v: string)
    requires c == 'a' || c == 'b'
    ensures Text.TrimSpace([c]) == [c] && Text.ToLower([c]) == [c]
    ensures |v| == 1 && !Text.IsSpace(v[0]) ==> Text.TrimSpace(v) == v
    ensures Text.TrimSpace("") == ""
  {
    Text.TrimmedIsFixed([c]);
    if |v| == 1 && !Text.IsSpace(v[0]) { Text.TrimmedIsFixed(v); }
  }

  lemma {:induction false} NoNamedIdentity(e: Y, keys: seq<string>)
    requires e == COMMENTED || e == FILLED || e == WANTED
    requires forall i :: 0 <= i < |keys| ==> |keys[i]| > 1
    ensures NamedIdentity(e.content, keys) == ""
  {
    if keys != [] {
      OneLetter('a', "u");
      OneLetter('b', "p");
      assert |Text.ToLower(keys[0])| > 1;
      assert ScalarUnder(e.content, keys[0], 4) == "";
      assert ScalarUnder(e.content, keys[0], 2) == "";
      NoNamedIdentity(e, keys[1..]);
    }
  }

  lemma KeysAreLong()
    ensures forall i :: 0 <= i < |IDENTITY_KEYS| ==> |IDENTITY_KEYS[i]| > 1
  {
  }

  /** Without a named identity an element is known by its first non-blank scalar. */
  lemma IdentityIs(e: Y, i: nat, key: string, value: string)
    requires e == COMMENTED || e == FILLED || e == WANTED
    requires i == 0 || (i == 2 && e.content[1].value == "")
    requires i + 1 < |e.content| && e.content[i].value == key && e.content[i + 1].value == value
    requires key == "a" || key == "b"
    requires |value| == 1 && !Text.IsSpace(value[0])
    ensures Identity(e) == key + "=" + value
  {
    hide NamedIdentity, IDENTITY_KEYS, Text.TrimSpace, Text.ToLower;
    OneLetter(key[0], value);
    assert [key[0]] == key;
    KeysAreLong();
    NoNamedIdentity(e, IDENTITY_KEYS);
    assert FirstScalar(e.content, i) == key + "=" + value;
  }

  lemma Identities()
    ensures Identity(COMMENTED) == "a=u" && Identity(WANTED) == "a=u" && Identity(FILLED) == "b=p"
  {
    hide Identity;
    IdentityIs(COMMENTED, 2, "a", "u");
    IdentityIs(WANTED, 0, "a", "u");
    IdentityIs(FILLED, 0, "b", "p");
    assert "a" + "=" + "u" == "a=u" && "b" + "=" + "p" == "b=p";
  }

  lemma Matches()
    ensures Assign([COMMENTED], [WANTED]) == [0] && Assign([FILLED], [WANTED]) == [1]
  {
    hide Identity, Text.TrimSpace;
    Identities();
    OneLetter('a', "u");
    OneLetter('b', "p");
    var target := [WANTED];
    assert target[..0] == [] && Assign([COMMENTED], target[..0]) == [] && Assign([FILLED], target[..0]) == [];
    assert Taken([]) == {};
    assert FirstUnused([COMMENTED], {}, WANTED, true, 0) == 0;
    assert FirstUnused([FILLED], {}, WANTED, true, 0) == 1;
    assert !SameStructure(FILLED.content[0], WANTED.content[0]);
    assert FirstUnused([FILLED], {}, WANTED, false, 0) == 1;
  }

  lemma ElementMerge(path: Path)
    ensures MergeNode(COMMENTED, WANTED, path) == FILLED && PruneMissing(FILLED, WANTED) == FILLED
  {
    hide Text.TrimSpace, AsSequence, Assign, Pick, Text.ToLower, Reorder, PruneMissing;
    OneLetter('a', "u");
    OneLetter('b', "p");
    var c := COMMENTED.content;
    var mid := MergePairs(c, WANTED, path, 1);
    NoPairsMerged(c, WANTED, path);
    MergePairsNext(c, WANTED, path, 0);
    assert FindKey(c, "a") == 2;
    assert mid == c;
    MergePairsNext(c, WANTED, path, 1);
    assert FindKey(c, "b") == 0;
    assert MergePairs(c, WANTED, path, 2) == FILLED.content;
    NothingStray();
  }

  lemma NothingStray()
    ensures PruneMissing(FILLED, WANTED) == FILLED
  {
    hide Text.TrimSpace, AsSequence;
    OneLetter('a', "u");
    OneLetter('b', "p");
    var keep := KeysOf(WANTED.content);
    assert WANTED.content[0].value == "a" && WANTED.content[2].value == "b";
    assert "a" in keep && "b" in keep;
    assert FILLED.content[2..] == [ScalarNode("a", "kept"), ScalarNode("u", "kept")] && FILLED.content[2..][2..] == [];
    assert KeepPairs(FILLED.content[2..], keep) == FILLED.content[2..];
    assert FILLED.content == FILLED.content[..2] + FILLED.content[2..];
  }

  /**
   The first merge fills in the empty value and keeps the comments; by its new first value
   the element is no longer matched, and the second merge replaces it by the source's own.
   */
  lemma SecondMergeLosesComments(path: Path)
    ensures WellFormed(Items([WANTED])) && Paired(Items([COMMENTED]))
    ensures MergeNode(Items([COMMENTED]), Items([WANTED]), path) == Items([FILLED])
    ensures MergeNode(Items([FILLED]), Items([WANTED]), path) == Items([WANTED])
  {
    hide Assign, PruneMissing, MergeNode, WellFormed, Paired;
    Matches();
    ElementMerge(path);
    ItemsAreSound();
    var s := Items([WANTED]);
    assert Reorder([COMMENTED], [WANTED]) == [COMMENTED] && Reorder([FILLED], [WANTED]) == [Nil];
    assert MergeElement([COMMENTED], s, path, 0) == FILLED;
    assert MergeElements([COMMENTED], s, path) == [FILLED];
    assert MergeElement([Nil], s, path, 0) == WANTED;
    assert MergeElements([Nil], s, path) == [WANTED];
    MergeItems([COMMENTED], [WANTED], path);
    MergeItems([FILLED], [WANTED], path);
  }

  lemma MergeItems(d: seq<Y>, s: seq<Y>, path: Path)
    ensures MergeNode(Items(d), Items(s), path) == Items(MergeElements(Reorder(d, s), Items(s), path))
  {
    hide MergeElements, Reorder;
  }

  lemma ItemsAreSound()
    ensures WellFormed(Items([WANTED])) && Paired(Items([COMMENTED]))
  {
    WantedIsWellFormed();
    assert Paired(COMMENTED);
  }

  lemma WantedIsWellFormed()
    ensures WellFormed(WANTED)
  {
    hide Text.TrimSpace;
    OneLetter('a', "u");
    OneLetter('b', "p");
    assert WANTED.content[0].value[0] != WANTED.content[2].value[0];
  }
}
