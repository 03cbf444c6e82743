/**
 The merge on heap nodes. Every method edits its destination in place, allocates only
 fresh nodes, and never touches or captures a source node.
 */
module YamlMerge {
  import opened YamlSpec
  import opened YamlReflect
  import opened YamlTree
  import Text

  /** findMapKeyIndex */
  method FindMapKeyIndex(n: YamlNode, key: string, ghost y: Y) returns (i: nat)
    requires Is(n, y)
    ensures i == FindKey(y.content, key)
  {
    i := 0;
    while i + 1 < |n.content|
      invariant i % 2 == 0
      invariant FindKey(y.content, key) == FindKeyFrom(y.content, key, i)
      decreases |n.content| - i
    {
      assert n.content[i] == null <==> y.content[i] == Nil;
      if n.content[i] != null && n.content[i].value == key { return; }
      i := i + 2;
    }
    i := |n.content|;
  }

  /** copyNodeShallow */
  method CopyNodeShallow(dst: YamlNode, src: YamlNode, ghost d: Y, ghost s: Y)
    requires Is(dst, d) && Is(src, s) && dst.repr !! src.repr
    modifies dst
    ensures Is(dst, CopyShallow(d, s)) && fresh(dst.repr - old(dst.repr)) && old(dst.repr) <= dst.repr
  {
    SetScalar(dst, src.kind, src.tag, src.value, d);
    ghost var e := Node(s.kind, s.tag, s.value, d.note, d.content);
    Clear(dst, e);
    CopyChildren(src, dst, s, e.(content := []));
    assert [] + s.content == s.content;
  }

  // ----- pruning -----------------------------------------------------------------------------

  /** pruneKnownDefaultsInNewNode */
  method PruneKnownDefaults(node: YamlNode, path: Path, ghost y: Y)
    requires Is(node, y)
    modifies node.repr
    ensures Is(node, Prune(path, y)) && node.repr == old(node.repr)
    decreases y, 2
  {
    if node.kind == Mapping {
      PruneMapping(node, path, y);
    } else if node.kind == Sequence {
      ghost var z := y;
      for i := 0 to |node.content|
        invariant node.content == old(node.content) && node.repr == old(node.repr)
        invariant Is(node, z) && z == y.(content := PrunedTo(path, y.content, i))
      {
        if node.content[i] != null { PruneChild(node, i, path, z); }
        z := y.(content := PrunedTo(path, y.content, i + 1));
        assert z.content == PrunedTo(path, y.content, i)[i := Prune(path, y.content[i])];
      }
      assert PrunedTo(path, y.content, |y.content|) == Prune(path, y).content;
    }
  }

  ghost function PrunedTo(path: Path, c: seq<Y>, n: nat): seq<Y>
  {
    seq(|c|, i requires 0 <= i < |c| => if i < n then Prune(path, c[i]) else c[i])
  }

  /** Prunes the k-th child where it stands. */
  method PruneChild(node: YamlNode, k: nat, path: Path, ghost y: Y)
    requires Is(node, y) && k < |node.content| && node.content[k] != null
    modifies node.repr
    ensures Is(node, y.(content := y.content[k := Prune(path, y.content[k])]))
    ensures node.repr == old(node.repr) && node.content == old(node.content)
    decreases y.content[k], 3
  {
    PruneKnownDefaults(node.content[k], path, y.content[k]);
  }

  /** Children of a mapping after the values below position n have been visited. */
  ghost function PairsPrunedTo(path: Path, c: seq<Y>, n: nat): (r: seq<Y>)
    ensures |r| == |c|
  {
    seq(|c|, i requires 0 <= i < |c| => if i < n then VisitedValue(path, c, i) else c[i])
  }

  ghost function VisitedValue(path: Path, c: seq<Y>, i: nat): Y
    requires i < |c|
  {
    if i % 2 == 0 || c[i - 1] == Nil || c[i] == Nil || IsKnownDefault(path + [c[i - 1].value], c[i]) then c[i]
    else Prune(path + [c[i - 1].value], c[i])
  }

  method PruneMapping(node: YamlNode, path: Path, ghost y: Y)
    requires Is(node, y) && y.kind == Mapping
    modifies node.repr
    ensures Is(node, Prune(path, y)) && node.repr == old(node.repr)
    decreases y, 1
  {
    hide IsKnownDefault, Prune, Emptied, PairsPrunedTo, Pick, PicksSoFar, PairStays;
    var picks: seq<nat> := [];
    var i := 0;
    VisitNothing(path, y);
    while i + 1 < |node.content|
      invariant i % 2 == 0 && i <= |node.content|
      invariant node.content == old(node.content) && node.repr == old(node.repr)
      invariant Is(node, y.(content := PairsPrunedTo(path, y.content, i)))
      invariant PicksSoFar(path, y, i, picks)
      decreases |node.content| - i
    {
      var keep := PrunePair(node, i, path, y);
      PicksNext(path, y, i, picks, keep);
      if keep { picks := picks + [i, i + 1]; }
      i := i + 2;
    }
    PrunedAll(path, y, i, picks);
    Rearrange(node, picks, y.(content := PairsPrunedTo(path, y.content, i)));
  }

  /** Visits the pair at i: prunes its value unless the pair is a default; `keep` if the pair stays. */
  method PrunePair(node: YamlNode, i: nat, path: Path, ghost y: Y) returns (keep: bool)
    requires y != Nil && i % 2 == 0 && i + 1 < |node.content|
    requires Is(node, y.(content := PairsPrunedTo(path, y.content, i)))
    modifies node.repr
    ensures Is(node, y.(content := PairsPrunedTo(path, y.content, i + 2)))
    ensures node.repr == old(node.repr) && node.content == old(node.content)
    ensures keep == PairStays(path, y, i)
    decreases y, 0
  {
    hide IsKnownDefault, Prune;
    VisitPair(path, y, i);
    var k, v := node.content[i], node.content[i + 1];
    if k == null || v == null { return false; }
    var childPath := path + [k.value];
    var value := Value(v, y.content[i + 1]);
    if IsKnownDefault(childPath, value) { return false; }
    PruneChild(node, i + 1, childPath, y.(content := PairsPrunedTo(path, y.content, i)));
    keep := !((v.kind == Mapping || v.kind == Sequence) && v.content == []);
  }

  ghost predicate PairStays(path: Path, y: Y, i: nat)
    requires y != Nil && i + 1 < |y.content|
  {
    var k, v := y.content[i], y.content[i + 1];
    k != Nil && v != Nil && !IsKnownDefault(path + [k.value], v) && !Emptied(Prune(path + [k.value], v))
  }

  ghost predicate Below(picks: seq<nat>, n: nat) {
    forall j :: 0 <= j < |picks| ==> picks[j] < n
  }

  /** The picks made before position i, followed by what pruning keeps from i on, is the pruned content. */
  ghost predicate PicksSoFar(path: Path, y: Y, i: nat, picks: seq<nat>)
    requires y != Nil
  {
    && Below(picks, i) && TakenOnce(picks, |y.content|)
    && Pick(PairsPrunedTo(path, y.content, i), picks) + PrunePairs(path, y, i) == PrunePairs(path, y, 0)
  }

  lemma VisitNothing(path: Path, y: Y)
    requires y != Nil
    ensures PairsPrunedTo(path, y.content, 0) == y.content
    ensures PicksSoFar(path, y, 0, [])
  {
    assert [] + PrunePairs(path, y, 0) == PrunePairs(path, y, 0);
  }

  lemma VisitPair(path: Path, y: Y, i: nat)
    requires y != Nil && i + 1 < |y.content| && i % 2 == 0
    ensures PairsPrunedTo(path, y.content, i + 2)
      == PairsPrunedTo(path, y.content, i)[i + 1 := VisitedValue(path, y.content, i + 1)]
    ensures PairsPrunedTo(path, y.content, i)[i] == y.content[i]
    ensures PairsPrunedTo(path, y.content, i)[i + 1] == y.content[i + 1]
  {
    hide IsKnownDefault, Prune;
  }

  lemma PrunedAll(path: Path, y: Y, i: nat, picks: seq<nat>)
    requires y != Nil && i + 1 >= |y.content| && y.kind == Mapping && PicksSoFar(path, y, i, picks)
    ensures Prune(path, y) == y.(content := Pick(PairsPrunedTo(path, y.content, i), picks))
    ensures TakenOnce(picks, |y.content|)
  {
    hide PairsPrunedTo, Pick;
    assert PrunePairs(path, y, i) == [];
    var c := Pick(PairsPrunedTo(path, y.content, i), picks);
    assert c + [] == c;
  }

  lemma PickSame(c: seq<Y>, e: seq<Y>, picks: seq<nat>, i: nat)
    requires |c| == |e| && i <= |c| && Below(picks, i)
    requires forall j :: 0 <= j < i ==> c[j] == e[j]
    ensures Pick(c, picks) == Pick(e, picks)
  {
  }

  lemma PickTwoMore(c: seq<Y>, picks: seq<nat>, i: nat)
    requires i + 1 < |c|
    ensures Pick(c, picks + [i, i + 1]) == Pick(c, picks) + [c[i], c[i + 1]]
  {
  }

  /** The bookkeeping of one pair. */
  lemma PicksNext(path: Path, y: Y, i: nat, before: seq<nat>, keep: bool)
    requires y != Nil && i + 1 < |y.content| && i % 2 == 0
    requires PicksSoFar(path, y, i, before) && keep == PairStays(path, y, i)
    ensures PicksSoFar(path, y, i + 2, if keep then before + [i, i + 1] else before)
  {
    hide IsKnownDefault, Prune, PrunePairs, PairStays, VisitedValue, PairsPrunedTo, Pick, TakenOnce, Below;
    var c, e := PairsPrunedTo(path, y.content, i), PairsPrunedTo(path, y.content, i + 2);
    VisitPair(path, y, i);
    PickSame(c, e, before, i);
    if keep {
      TwoMorePicks(before, i, |y.content|);
      PickTwoMore(e, before, i);
      KeptPair(path, y, i);
      Regroup(Pick(e, before), [e[i], e[i + 1]], PrunePairs(path, y, i + 2));
    } else {
      DroppedPair(path, y, i);
      BelowMore(before, i);
    }
  }

  lemma KeptPair(path: Path, y: Y, i: nat)
    requires y != Nil && i + 1 < |y.content| && i % 2 == 0 && PairStays(path, y, i)
    ensures PrunePairs(path, y, i)
      == [y.content[i], VisitedValue(path, y.content, i + 1)] + PrunePairs(path, y, i + 2)
  {
    hide IsKnownDefault, Prune, Emptied;
  }

  lemma DroppedPair(path: Path, y: Y, i: nat)
    requires y != Nil && i + 1 < |y.content| && !PairStays(path, y, i)
    ensures PrunePairs(path, y, i) == PrunePairs(path, y, i + 2)
  {
    hide IsKnownDefault, Prune, Emptied;
  }

  lemma TwoMorePicks(before: seq<nat>, i: nat, n: nat)
    requires TakenOnce(before, n) && Below(before, i)
    ensures TakenOnce(before + [i, i + 1], n) && Below(before + [i, i + 1], i + 2)
  {
  }

  /** pruneMissingMapKeys */
  method PruneMissingMapKeys(dst: YamlNode, src: YamlNode, ghost d: Y, ghost s: Y)
    requires Is(dst, d) && Is(src, s)
    modifies dst
    ensures Is(dst, PruneMissing(d, s)) && dst.repr == old(dst.repr)
  {
    hide KeepPairs, Pick;
    if dst.kind != Mapping || src.kind != Mapping { return; }
    var keep := CollectKeys(src, s);
    var picks := PairsToKeep(dst, keep, d);
    Rearrange(dst, picks, d);
  }

  method PairsToKeep(dst: YamlNode, keep: set<string>, ghost d: Y) returns (picks: seq<nat>)
    requires Is(dst, d)
    ensures TakenOnce(picks, |d.content|) && Pick(d.content, picks) == KeepPairs(d.content, keep)
  {
    hide KeepPairs, Pick;
    picks := [];
    var i := 0;
    NothingKept(d.content, keep);
    while i + 1 < |dst.content|
      invariant i % 2 == 0 && KeptSoFar(d.content, keep, i, picks)
      decreases |dst.content| - i
    {
      var key := dst.content[i];
      KeepsNext(d.content, keep, i, picks);
      assert key == null <==> d.content[i] == Nil;
      if key == null || Text.TrimSpace(key.value) in keep { picks := picks + [i, i + 1]; }
      i := i + 2;
    }
    KeptAll(d.content, keep, i, picks);
    if i < |dst.content| { picks := picks + [i]; }
  }

  method CollectKeys(src: YamlNode, ghost s: Y) returns (keep: set<string>)
    requires Is(src, s)
    ensures keep == KeysOf(s.content)
  {
    keep := {};
    var i := 0;
    while i + 1 < |src.content|
      invariant i % 2 == 0 && i <= |src.content|
      invariant keep == set j | 0 <= j < i && j + 1 < |s.content| && j % 2 == 0 && s.content[j] != Nil
                                && Text.TrimSpace(s.content[j].value) != "" :: Text.TrimSpace(s.content[j].value)
      decreases |src.content| - i
    {
      var key := src.content[i];
      if key != null && Text.TrimSpace(key.value) != "" { keep := keep + {Text.TrimSpace(key.value)}; }
      i := i + 2;
    }
  }

  /** The pairs picked before position i, followed by what is kept from i on. */
  ghost predicate KeptSoFar(c: seq<Y>, keep: set<string>, i: nat, picks: seq<nat>) {
    && i <= |c| && Below(picks, i) && TakenOnce(picks, |c|)
    && Pick(c, picks) + KeepPairs(c[i..], keep) == KeepPairs(c, keep)
  }

  lemma NothingKept(c: seq<Y>, keep: set<string>)
    ensures KeptSoFar(c, keep, 0, [])
  {
    assert c[0..] == c;
    assert [] + KeepPairs(c, keep) == KeepPairs(c, keep);
  }

  lemma KeepsNext(c: seq<Y>, keep: set<string>, i: nat, picks: seq<nat>)
    requires i + 1 < |c| && i % 2 == 0 && KeptSoFar(c, keep, i, picks)
    ensures KeptSoFar(c, keep, i + 2, if KeepPair(c[i], keep) then picks + [i, i + 1] else picks)
  {
    hide KeepPair, KeepPairs, Pick, TakenOnce, Below;
    KeepPairsUnfolds(c, keep, i);
    if KeepPair(c[i], keep) {
      TwoMorePicks(picks, i, |c|);
      PickTwoMore(c, picks, i);
      Regroup(Pick(c, picks), [c[i], c[i + 1]], KeepPairs(c[i + 2..], keep));
    } else {
      BelowMore(picks, i);
    }
  }

  lemma KeepPairsUnfolds(c: seq<Y>, keep: set<string>, i: nat)
    requires i + 1 < |c|
    ensures KeepPairs(c[i..], keep)
      == (if KeepPair(c[i], keep) then [c[i], c[i + 1]] else []) + KeepPairs(c[i + 2..], keep)
  {
    hide KeepPair;
    var rest := c[i..];
    assert rest[2..] == c[i + 2..] && rest[..2] == [c[i], c[i + 1]] && rest[0] == c[i];
    assert [] + KeepPairs(c[i + 2..], keep) == KeepPairs(c[i + 2..], keep);
  }

  lemma BelowMore(picks: seq<nat>, i: nat)
    requires Below(picks, i)
    ensures Below(picks, i + 2)
  {
  }

  lemma Regroup(a: seq<Y>, b: seq<Y>, c: seq<Y>)
    ensures a + b + c == a + (b + c)
  {
  }

  lemma KeptAll(c: seq<Y>, keep: set<string>, i: nat, picks: seq<nat>)
    requires i + 1 >= |c| && KeptSoFar(c, keep, i, picks)
    ensures TakenOnce(if i < |c| then picks + [i] else picks, |c|)
    ensures Pick(c, if i < |c| then picks + [i] else picks) == KeepPairs(c, keep)
  {
    assert KeepPairs(c[i..], keep) == c[i..];
    if i < |c| {
      assert c[i..] == [c[i]];
      assert Pick(c, picks + [i]) == Pick(c, picks) + [c[i]];
    } else {
      assert c[i..] == [];
      assert Pick(c, picks) + [] == Pick(c, picks);
    }
  }

  // ----- merging ----------------------------------------------------------------------------------

  /** dst grew by fresh nodes only. */
  twostate predicate Grown(dst: YamlNode)
    reads dst
  {
    fresh(dst.repr - old(dst.repr)) && old(dst.repr) <= dst.repr
  }

  /** mergeNodePreserve; a nil source changes nothing. */
  method MergeNodePreserve(dst: YamlNode, src: YamlNode, path: Path, ghost d: Y, ghost s: Y)
    requires Is(dst, d) && Is(src, s) && dst.repr !! src.repr
    modifies dst.repr
    ensures Is(dst, MergeNode(d, s, path)) && Grown(dst)
    ensures Is(src, s) && dst.repr !! src.repr
    decreases s, 4
  {
    hide MergeMapping, Reorder;
    match src.kind {
      case Mapping =>
        ghost var e := d;
        if dst.kind != Mapping {
          CopyNodeShallow(dst, src, d, s);
          e := CopyShallow(d, s);
        }
        MergeMappingPreserve(dst, src, path, e, s);
      case Sequence =>
        if dst.kind == Scalar && dst.tag == "!!null" && src.content == [] { return; }
        ghost var e := AsSequence(d);
        if dst.kind != Sequence {
          SetScalar(dst, Sequence, "!!seq", dst.value, d);
          Clear(dst, Node(Sequence, "!!seq", d.value, d.note, d.content));
        }
        MergeSequence(dst, src, path, e, s);
      case Scalar =>
        SetScalar(dst, src.kind, src.tag, src.value, d);
      case Alias =>
        SetScalar(dst, src.kind, src.tag, src.value, d);
      case Zero =>
      case Document =>
        CopyNodeShallow(dst, src, d, s);
    }
  }

  /** Merges into the k-th child where it stands. */
  method MergeChild(n: YamlNode, k: nat, src: YamlNode?, path: Path, ghost y: Y, ghost s: Y)
    requires Is(n, y) && k < |n.content| && Slot(src, s)
    requires src != null ==> n.repr !! src.repr
    modifies n.repr
    ensures Is(n, y.(content := y.content[k := MergeNode(y.content[k], s, path)]))
    ensures Grown(n) && n.content == old(n.content)
    decreases s, 5
  {
    var c := n.content[k];
    if c == null || src == null { return; }
    MergeNodePreserve(c, src, path, y.content[k], s);
    n.repr := n.repr + c.repr;
  }

  /** mergeMappingPreserve */
  method MergeMappingPreserve(dst: YamlNode, src: YamlNode, path: Path, ghost d: Y, ghost s: Y)
    requires Is(dst, d) && Is(src, s) && dst.repr !! src.repr
    modifies dst.repr
    ensures Is(dst, MergeMapping(d, s, path)) && Grown(dst)
    ensures Is(src, s) && dst.repr !! src.repr
    decreases s, 3
  {
    hide MergePair, MergePairs, MergeNode, Existing;
    if dst.kind != Mapping || src.kind != Mapping {
      CopyNodeShallow(dst, src, d, s);
      return;
    }
    var j := 0;
    NoPairsMerged(d.content, s, path);
    while 2 * j + 1 < |src.content|
      invariant 2 * j <= |s.content| && src.content == old(src.content) && src.repr == old(src.repr)
      invariant Is(src, s) && dst.repr !! src.repr && Grown(dst)
      invariant Is(dst, d.(content := MergePairs(d.content, s, path, j)))
    {
      var key, value := src.content[2 * j], src.content[2 * j + 1];
      MergePairsNext(d.content, s, path, j);
      if key != null {
        ghost var y := d.(content := MergePairs(d.content, s, path, j));
        MergePairAt(dst, key, value, path, y, s.content[2 * j], s.content[2 * j + 1]);
      }
      j := j + 1;
    }
    assert j == |s.content| / 2;
  }

  /** One source pair: merged where the key stands, or added when it is new and no default. */
  method MergePairAt(dst: YamlNode, key: YamlNode, value: YamlNode?, path: Path, ghost d: Y, ghost k: Y, ghost v: Y)
    requires Is(dst, d) && Is(key, k) && Slot(value, v)
    requires dst.repr !! key.repr && (value != null ==> dst.repr !! value.repr)
    modifies dst.repr
    ensures var merged := MergeNode(Existing(d.content, k), v, path + [k.value]);
      Is(dst, d.(content := MergePair(d.content, k, v, path, merged)))
    ensures Grown(dst)
    decreases v, 6
  {
    hide MergeNode, IsKnownDefault, Prune, FindKey;
    var i := FindMapKeyIndex(dst, key.value, d);
    var childPath := path + [key.value];
    if i < |dst.content| {
      MergeChild(dst, i + 1, value, childPath, d, v);
    } else {
      AddPair(dst, key, value, childPath, d, k, v);
    }
  }

  /** Adds a key the destination lacks, with its pruned value, unless that is a known default. */
  method AddPair(dst: YamlNode, key: YamlNode, value: YamlNode?, path: Path, ghost d: Y, ghost k: Y, ghost v: Y)
    requires Is(dst, d) && Is(key, k) && Slot(value, v)
    modifies dst
    ensures Is(dst, d.(content := d.content + if IsKnownDefault(path, Prune(path, v)) then [] else [k, Prune(path, v)]))
    ensures Grown(dst)
  {
    hide IsKnownDefault, Prune;
    ghost var pruned := Prune(path, v);
    ghost var e := d.(content := d.content + [k]);
    assert d.content + [k] + [pruned] == d.content + [k, pruned] && d.content + [] == d.content;
    if value == null {
      if !IsKnownDefault(path, Nil) {
        AppendCopy(dst, key, d, k);
        AppendNil(dst, e);
      }
    } else {
      var candidate, wanted := Candidate(value, path, v);
      if wanted {
        AppendCopy(dst, key, d, k);
        Append(dst, candidate, e, pruned);
      }
    }
  }

  /** The pruned deep copy of a value, and whether it is worth writing. */
  method Candidate(value: YamlNode, path: Path, ghost v: Y) returns (candidate: YamlNode, wanted: bool)
    requires Is(value, v)
    ensures Is(candidate, Prune(path, v)) && fresh(candidate.repr)
    ensures wanted == !IsKnownDefault(path, Prune(path, v))
  {
    candidate := DeepCopy(value, v);
    PruneKnownDefaults(candidate, path, v);
    var c := Value(candidate, Prune(path, v));
    wanted := !IsKnownDefault(path, c);
  }

  /** Adds a deep copy of c as last child of n. */
  method AppendCopy(n: YamlNode, c: YamlNode?, ghost y: Y, ghost yc: Y)
    requires Is(n, y) && Slot(c, yc)
    modifies n
    ensures Is(n, y.(content := y.content + [yc])) && Grown(n)
    ensures |n.content| == |old(n.content)| + 1
  {
    if c == null {
      AppendNil(n, y);
    } else {
      var copy := DeepCopy(c, yc);
      Append(n, copy, y, yc);
    }
  }

  method MergeSequence(dst: YamlNode, src: YamlNode, path: Path, ghost d: Y, ghost s: Y)
    requires Is(dst, d) && Is(src, s) && dst.repr !! src.repr
    modifies dst.repr
    ensures Is(dst, d.(content := MergeElements(Reorder(d.content, s.content), s, path))) && Grown(dst)
    decreases s, 3
  {
    hide MergeElement, MergeElements, Reorder, Pick, MergedSoFar;
    ReorderSequenceForMerge(dst, src, d, s);
    ghost var r := Reorder(d.content, s.content);
    MergeCommon(dst, src, path, d, r, s);
    AppendExtras(dst, src, path, d, r, s);
    MergedAll(r, s, path);
    if |src.content| < |dst.content| {
      Truncate(dst, |src.content|, d.(content := MergedSoFar(r, s, path, |s.content|)));
    }
  }

  /** The positions both sides have. */
  method MergeCommon(dst: YamlNode, src: YamlNode, path: Path, ghost d: Y, ghost r: seq<Y>, ghost s: Y)
    requires d != Nil && Is(dst, d.(content := r)) && Is(src, s) && dst.repr !! src.repr
    modifies dst.repr
    ensures |dst.content| == |r| && Grown(dst)
    ensures Is(dst, d.(content := MergedSoFar(r, s, path, if |s.content| < |r| then |s.content| else |r|)))
    ensures Is(src, s) && src.content == old(src.content) && src.repr == old(src.repr) && dst.repr !! src.repr
    decreases s, 2, 1
  {
    hide MergeElement, MergedSoFar;
    MergedNothing(r, s, path);
    var n := if |src.content| < |dst.content| then |src.content| else |dst.content|;
    for i := 0 to n
      invariant src.content == old(src.content) && src.repr == old(src.repr)
      invariant Is(src, s) && dst.repr !! src.repr && Grown(dst)
      invariant |dst.content| == |r|
      invariant Is(dst, d.(content := MergedSoFar(r, s, path, i)))
    {
      MergeElementAt(dst, i, src.content[i], path, d, r, s);
    }
  }

  /** Copies of the source elements the destination has no position for. */
  method AppendExtras(dst: YamlNode, src: YamlNode, path: Path, ghost d: Y, ghost r: seq<Y>, ghost s: Y)
    requires d != Nil && Is(src, s) && dst.repr !! src.repr && |dst.content| == |r|
    requires Is(dst, d.(content := MergedSoFar(r, s, path, if |r| < |s.content| then |r| else |s.content|)))
    modifies dst
    ensures Is(dst, d.(content := MergedSoFar(r, s, path, |s.content|))) && Grown(dst)
    ensures |dst.content| == if |r| < |s.content| then |s.content| else |r|
    ensures Is(src, s) && src.content == old(src.content) && dst.repr !! src.repr
  {
    hide MergedSoFar, MergeElement;
    if |dst.content| < |src.content| {
      for i := |dst.content| to |src.content|
        invariant src.content == old(src.content) && src.repr == old(src.repr)
        invariant Is(src, s) && dst.repr !! src.repr && Grown(dst)
        invariant |dst.content| == i
        invariant Is(dst, d.(content := MergedSoFar(r, s, path, i)))
      {
        MergedExtra(r, s, path, i);
        AppendCopy(dst, src.content[i], d.(content := MergedSoFar(r, s, path, i)), s.content[i]);
      }
    }
  }

  /** Position i of the merge of two sequences. */
  method MergeElementAt(dst: YamlNode, i: nat, child: YamlNode?, path: Path, ghost d: Y, ghost r: seq<Y>, ghost s: Y)
    requires d != Nil && s != Nil && i < |s.content| && i < |r|
    requires Is(dst, d.(content := MergedSoFar(r, s, path, i)))
    requires Slot(child, s.content[i]) && (child != null ==> dst.repr !! child.repr)
    modifies dst.repr
    ensures Is(dst, d.(content := MergedSoFar(r, s, path, i + 1))) && Grown(dst)
    ensures |dst.content| == |old(dst.content)|
    decreases s, 2, 0
  {
    hide MergeNode, PruneMissing, MergedSoFar, MergeElement;
    ghost var c, t := MergedSoFar(r, s, path, i), s.content[i];
    MergedOneMore(r, s, path, i);
    ElementCases(r, s, path, i);
    if dst.content[i] == null {
      if child != null {
        var copy := DeepCopy(child, t);
        Fill(dst, i, copy, d.(content := c), t);
      }
    } else if child != null {
      MergeChild(dst, i, child, path, d.(content := c), t);
      ghost var merged := MergeNode(r[i], t, path);
      PruneChildKeys(dst, i, child, d.(content := c[i := merged]), t);
    }
  }

  /** Removes from the k-th child the keys its source does not have. */
  method PruneChildKeys(n: YamlNode, k: nat, src: YamlNode, ghost y: Y, ghost s: Y)
    requires Is(n, y) && k < |n.content| && n.content[k] != null && Is(src, s) && n.repr !! src.repr
    modifies n.repr
    ensures Is(n, y.(content := y.content[k := PruneMissing(y.content[k], s)]))
    ensures n.content == old(n.content) && n.repr == old(n.repr)
  {
    hide PruneMissing;
    PruneMissingMapKeys(n.content[k], src, y.content[k], s);
  }

  /** Drops the children from position k on. */
  method Truncate(n: YamlNode, k: nat, ghost y: Y)
    requires Is(n, y) && k <= |n.content|
    modifies n
    ensures Is(n, y.(content := y.content[..k])) && n.repr == old(n.repr)
  {
    n.content := n.content[..k];
  }

  /** reorderSequenceForMerge: every old child is taken over at most once. */
  method ReorderSequenceForMerge(dst: YamlNode, src: YamlNode, ghost d: Y, ghost s: Y)
    requires Is(dst, d) && Is(src, s)
    modifies dst
    ensures Is(dst, d.(content := Reorder(d.content, s.content))) && dst.repr == old(dst.repr)
  {
    hide Assign, Pick;
    if dst.content == [] || src.content == [] { return; }
    var picks := AssignElements(dst, src, d, s);
    AssignIsInjective(d.content, s.content);
    Rearrange(dst, picks, d);
  }

  method AssignElements(dst: YamlNode, src: YamlNode, ghost d: Y, ghost s: Y) returns (picks: seq<nat>)
    requires Is(dst, d) && Is(src, s)
    ensures picks == Assign(d.content, s.content)
  {
    hide Assign, MatchElement;
    var whole := Value(dst, d);
    picks := [];
    var used: set<nat> := {};
    NothingAssigned(d.content, s.content);
    for i := 0 to |src.content|
      invariant picks == Assign(d.content, s.content[..i]) && used == Taken(picks)
    {
      var target := Nil;
      if src.content[i] != null { target := Value(src.content[i], s.content[i]); }
      var m := MatchElement(whole.content, used, target);
      OneMoreAssigned(d.content, s.content, i);
      TakenOneMore(picks, m);
      picks, used := picks + [m], used + {m};
    }
    assert s.content[..|src.content|] == s.content;
  }

  lemma NothingAssigned(original: seq<Y>, src: seq<Y>)
    ensures Assign(original, src[..0]) == [] && Taken([]) == {}
  {
  }

  lemma OneMoreAssigned(original: seq<Y>, src: seq<Y>, i: nat)
    requires i < |src|
    ensures Assign(original, src[..i + 1])
      == Assign(original, src[..i]) + [MatchElement(original, Taken(Assign(original, src[..i])), src[i])]
  {
    var longer := src[..i + 1];
    assert longer[..|longer| - 1] == src[..i] && longer[|longer| - 1] == src[i];
  }

  lemma TakenOneMore(picks: seq<nat>, m: nat)
    ensures Taken(picks + [m]) == Taken(picks) + {m}
  {
    forall p
      ensures p in picks + [m] <==> p in picks || p == m
    {
    }
  }

  /** The reordered destination after its first i positions have been merged. */
  ghost function MergedSoFar(r: seq<Y>, s: Y, path: Path, i: nat): (c: seq<Y>)
    requires s != Nil && i <= |s.content|
    ensures |c| == if i < |r| then |r| else i
  {
    seq(if i < |r| then |r| else i, k requires 0 <= k < |r| || 0 <= k < i =>
      if k < i then MergeElement(r, s, path, k) else r[k])
  }

  lemma MergedNothing(r: seq<Y>, s: Y, path: Path)
    requires s != Nil
    ensures MergedSoFar(r, s, path, 0) == r
  {
  }

  lemma MergedOneMore(r: seq<Y>, s: Y, path: Path, i: nat)
    requires s != Nil && i < |s.content| && i < |r|
    ensures MergedSoFar(r, s, path, i + 1) == MergedSoFar(r, s, path, i)[i := MergeElement(r, s, path, i)]
    ensures MergedSoFar(r, s, path, i)[i] == r[i]
  {
    hide MergeElement;
  }

  lemma ElementCases(r: seq<Y>, s: Y, path: Path, i: nat)
    requires s != Nil && i < |s.content| && i < |r|
    ensures r[i] == Nil ==> MergeElement(r, s, path, i) == s.content[i]
    ensures r[i] != Nil && s.content[i] == Nil ==> MergeElement(r, s, path, i) == r[i]
    ensures r[i] != Nil && s.content[i] != Nil ==>
      MergeElement(r, s, path, i) == PruneMissing(MergeNode(r[i], s.content[i], path), s.content[i])
  {
  }

  lemma MergedExtra(r: seq<Y>, s: Y, path: Path, i: nat)
    requires s != Nil && |r| <= i < |s.content|
    ensures MergedSoFar(r, s, path, i + 1) == MergedSoFar(r, s, path, i) + [s.content[i]]
  {
    assert MergeElement(r, s, path, i) == s.content[i];
    hide MergeElement;
  }

  lemma MergedAll(r: seq<Y>, s: Y, path: Path)
    requires s != Nil
    ensures MergedSoFar(r, s, path, |s.content|)[..|s.content|] == MergeElements(r, s, path)
  {
    hide MergeElement;
  }
}
