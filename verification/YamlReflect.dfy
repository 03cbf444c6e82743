/** After a merge the destination reads as the source does, up to defaults. */
module YamlReflect {
  import opened YamlSpec
  import Text

  /** A source tree as the encoder produces it: scalars, mappings with distinct non-blank keys, sequences. */
  ghost predicate WellFormed(s: Y)
    decreases s
  {
    && s != Nil
    && (s.kind == Scalar || s.kind == Mapping || s.kind == Sequence)
    && (s.kind == Mapping ==>
          && |s.content| % 2 == 0
          && (forall i :: 0 <= i < |s.content| && i % 2 == 0 ==>
                s.content[i] != Nil && Text.TrimSpace(s.content[i].value) != "")
          && (forall i, j :: 0 <= i < j < |s.content| && i % 2 == 0 && j % 2 == 0 ==>
                s.content[i].value != s.content[j].value)
          && (forall i :: 0 <= i < |s.content| && i % 2 == 1 ==> WellFormed(s.content[i])))
    && (s.kind == Sequence ==> forall i :: 0 <= i < |s.content| ==> WellFormed(s.content[i]))
  }

  /** A destination tree: every mapping pairs up non-nil keys and values, at every depth. */
  ghost predicate Paired(d: Y)
    decreases d
  {
    d != Nil ==>
      && (d.kind == Mapping ==>
            |d.content| % 2 == 0 && forall i :: 0 <= i < |d.content| ==> d.content[i] != Nil)
      && (d.kind == Mapping ==> forall i :: 0 <= i < |d.content| && i % 2 == 1 ==> Paired(d.content[i]))
      && (d.kind == Sequence ==> forall i :: 0 <= i < |d.content| ==> Paired(d.content[i]))
  }

  /** Nothing in v is worth writing: it is zero, a known default, or made of such values. */
  ghost predicate Defaulty(path: Path, v: Y)
    decreases v
  {
    || IsZero(v)
    || IsKnownDefault(path, v)
    || (v != Nil && v.kind == Mapping && forall i :: 0 <= i && 2 * i + 1 < |v.content| ==>
          v.content[2 * i] != Nil && Defaulty(path + [v.content[2 * i].value], v.content[2 * i + 1]))
    || (v != Nil && v.kind == Sequence && forall i :: 0 <= i < |v.content| ==> Defaulty(path, v.content[i]))
  }

  /**
   d reads as s: scalars carry the same tag and value; each key of a source mapping is
   found with a value that reflects its own, or is absent with a value not worth writing;
   sequences agree in length and position by position, a null standing for an empty one.
   */
  ghost predicate Reflects(d: Y, s: Y, path: Path)
    requires s != Nil
    decreases s, 1
  {
    && d != Nil
    && match s.kind
       case Scalar => d.kind == Scalar && d.tag == s.tag && d.value == s.value
       case Mapping =>
         d.kind == Mapping && |d.content| % 2 == 0
         && forall i :: 0 <= i && 2 * i + 1 < |s.content| ==> ReflectsKey(d.content, s, path, i)
       case Sequence =>
         || NullFor(d, s)
         || (d.kind == Sequence && |d.content| == |s.content|
             && forall i :: 0 <= i < |s.content| ==> s.content[i] != Nil && Reflects(d.content[i], s.content[i], path))
       case _ => true
  }

  /** The i-th key of mapping s, looked up in content c. */
  ghost predicate ReflectsKey(c: seq<Y>, s: Y, path: Path, i: nat)
    requires s != Nil && 2 * i + 1 < |s.content|
    decreases s, 0
  {
    var k, v := s.content[2 * i], s.content[2 * i + 1];
    k != Nil && v != Nil &&
    var at := FindKey(c, k.value);
    if at < |c| then Reflects(c[at + 1], v, path + [k.value]) else Defaulty(path + [k.value], v)
  }

  // ----- looking keys up in changed contents ---------------------------------------------------

  /** The first even position with this key. */
  ghost predicate FirstAt(c: seq<Y>, key: string, at: nat) {
    && at + 1 < |c| && at % 2 == 0 && c[at] != Nil && c[at].value == key
    && forall j :: 0 <= j < at && j % 2 == 0 ==> c[j] == Nil || c[j].value != key
  }

  lemma FoundAt(c: seq<Y>, key: string, at: nat)
    requires FirstAt(c, key, at)
    ensures FindKey(c, key) == at
  {
    var i := FindKey(c, key);
    if i < at && i < |c| { assert c[i] != Nil; }
  }

  lemma FindIsFirst(c: seq<Y>, key: string)
    ensures FindKey(c, key) < |c| ==> FirstAt(c, key, FindKey(c, key))
    ensures FindKey(c, key) == |c| <==>
      forall j :: 0 <= j && j + 1 < |c| && j % 2 == 0 ==> c[j] == Nil || c[j].value != key
  {
  }

  /** Replacing a value, or adding another key at the end, does not move a key. */
  lemma FindAfterValue(c: seq<Y>, key: string, i: nat, v: Y)
    requires i < |c| && i % 2 == 1
    ensures FindKey(c[i := v], key) == FindKey(c, key)
  {
    FindIsFirst(c, key);
    FindIsFirst(c[i := v], key);
    if FindKey(c, key) < |c| { FoundAt(c[i := v], key, FindKey(c, key)); }
  }

  lemma FindAfterPair(c: seq<Y>, key: string, k: Y, v: Y)
    requires |c| % 2 == 0 && k != Nil
    ensures FindKey(c + [k, v], key) ==
      if FindKey(c, key) < |c| then FindKey(c, key) else if k.value == key then |c| else |c| + 2
  {
    var e := c + [k, v];
    FindIsFirst(c, key);
    FindIsFirst(e, key);
    if FindKey(c, key) < |c| { FoundAt(e, key, FindKey(c, key)); }
    else if k.value == key { FoundAt(e, key, |c|); }
    else {
      forall j | 0 <= j && j + 1 < |e| && j % 2 == 0
        ensures e[j] == Nil || e[j].value != key
      {
      }
    }
  }

  // ----- copies and pruned copies ---------------------------------------------------------------------

  lemma {:induction false} OwnKey(s: Y, i: nat)
    requires WellFormed(s) && s.kind == Mapping && 2 * i + 1 < |s.content|
    ensures FindKey(s.content, s.content[2 * i].value) == 2 * i
  {
    FoundAt(s.content, s.content[2 * i].value, 2 * i);
  }

  /** A well-formed tree reflects itself. */
  lemma {:induction false} ReflectsItself(s: Y, path: Path)
    requires WellFormed(s)
    ensures Reflects(s, s, path)
    decreases s
  {
    hide Text.TrimSpace;
    if s.kind == Mapping {
      forall i | 0 <= i && 2 * i + 1 < |s.content|
        ensures ReflectsKey(s.content, s, path, i)
      {
        OwnKey(s, i);
        ReflectsItself(s.content[2 * i + 1], path + [s.content[2 * i].value]);
      }
    } else if s.kind == Sequence {
      forall i | 0 <= i < |s.content|
        ensures Reflects(s.content[i], s.content[i], path)
      {
        ReflectsItself(s.content[i], path);
      }
    }
  }

  /** Whether pruning keeps the i-th pair of mapping n. */
  predicate KeepsPair(path: Path, n: Y, i: nat)
    requires n != Nil && 2 * i + 1 < |n.content|
  {
    var k, v := n.content[2 * i], n.content[2 * i + 1];
    k != Nil && v != Nil && !IsKnownDefault(path + [k.value], v) && !Emptied(Prune(path + [k.value], v))
  }

  lemma PrunePairsStep(path: Path, n: Y, j: nat)
    requires n != Nil && 2 * j + 1 < |n.content|
    ensures var k, v := n.content[2 * j], n.content[2 * j + 1];
      PrunePairs(path, n, 2 * j) ==
        (if KeepsPair(path, n, j) then [k, Prune(path + [k.value], v)] + PrunePairs(path, n, 2 * j + 2)
         else PrunePairs(path, n, 2 * j + 2))
  {
    hide IsKnownDefault, Prune, Emptied;
  }

  lemma KeysDiffer(n: Y, i: nat, j: nat)
    requires WellFormed(n) && n.kind == Mapping && i < j && 2 * j + 1 < |n.content|
    ensures n.content[2 * i] != Nil && n.content[2 * j] != Nil && n.content[2 * i].value != n.content[2 * j].value
  {
  }

  /** Pruned pairs from pair j on: lookups find exactly the kept pairs. */
  lemma {:induction false} FindInPruned(path: Path, n: Y, j: nat, i: nat)
    requires n != Nil && WellFormed(n) && n.kind == Mapping
    requires j <= i && 2 * i + 1 < |n.content| && n.content[2 * i] != Nil
    ensures LookupInPruned(PrunePairs(path, n, 2 * j), path, n, i)
    decreases |n.content| - 2 * j
  {
    hide KeepsPair, Prune, PrunePairs, WellFormed, LookupInPruned;
    var k, v := n.content[2 * j], n.content[2 * j + 1];
    var rest := PrunePairs(path, n, 2 * j + 2);
    PrunePairsStep(path, n, j);
    NonNilKey(n, j);
    if j < i {
      FindInPruned(path, n, j + 1, i);
      KeysDiffer(n, j, i);
      if KeepsPair(path, n, j) { LookupAfterFront(rest, path, n, i, k, Prune(path + [k.value], v)); }
    } else {
      LaterKeysDiffer(n, j);
      PrunedKeysAreLater(path, n, j + 1, k.value);
      LookupOfFront(rest, path, n, j);
    }
  }

  /** Looking the i-th key of n up in c finds its pruned value if pruning keeps the pair, else nothing. */
  ghost predicate LookupInPruned(c: seq<Y>, path: Path, n: Y, i: nat)
    requires n != Nil && 2 * i + 1 < |n.content| && n.content[2 * i] != Nil
  {
    var k, v := n.content[2 * i], n.content[2 * i + 1];
    && |c| % 2 == 0
    && (if KeepsPair(path, n, i)
        then FindKey(c, k.value) < |c| && c[FindKey(c, k.value) + 1] == Prune(path + [k.value], v)
        else FindKey(c, k.value) == |c|)
  }

  lemma LookupAfterFront(c: seq<Y>, path: Path, n: Y, i: nat, k: Y, w: Y)
    requires n != Nil && 2 * i + 1 < |n.content| && n.content[2 * i] != Nil
    requires k != Nil && k.value != n.content[2 * i].value && LookupInPruned(c, path, n, i)
    ensures LookupInPruned([k, w] + c, path, n, i)
  {
    hide FindKey, KeepsPair, Prune;
    FindAfterFront(c, n.content[2 * i].value, k, w);
  }

  lemma LookupOfFront(c: seq<Y>, path: Path, n: Y, i: nat)
    requires n != Nil && 2 * i + 1 < |n.content| && n.content[2 * i] != Nil
    requires |c| % 2 == 0 && FindKey(c, n.content[2 * i].value) == |c|
    ensures var k, v := n.content[2 * i], n.content[2 * i + 1];
      LookupInPruned(if KeepsPair(path, n, i) then [k, Prune(path + [k.value], v)] + c else c, path, n, i)
  {
    hide FindKey, KeepsPair, Prune;
    var k, v := n.content[2 * i], n.content[2 * i + 1];
    FoundInFront(c, k, Prune(path + [k.value], v));
  }

  lemma NonNilKey(n: Y, j: nat)
    requires WellFormed(n) && n.kind == Mapping && 2 * j + 1 < |n.content|
    ensures n.content[2 * j] != Nil && n.content[2 * j + 1] != Nil
  {
  }

  lemma LaterKeysDiffer(n: Y, j: nat)
    requires WellFormed(n) && n.kind == Mapping && 2 * j + 1 < |n.content|
    ensures n.content[2 * j] != Nil && NoKeyFrom(n.content, j + 1, n.content[2 * j].value)
  {
  }

  lemma FindAfterFront(c: seq<Y>, key: string, k: Y, v: Y)
    requires k != Nil && k.value != key
    ensures FindKey([k, v] + c, key) == FindKey(c, key) + 2
  {
    var e := [k, v] + c;
    FindIsFirst(c, key);
    FindIsFirst(e, key);
    if FindKey(c, key) < |c| {
      FoundAt(e, key, FindKey(c, key) + 2);
    } else {
      forall j | 0 <= j && j + 1 < |e| && j % 2 == 0
        ensures e[j] == Nil || e[j].value != key
      {
        if j >= 2 { assert e[j] == c[j - 2]; }
      }
    }
  }

  lemma FoundInFront(c: seq<Y>, k: Y, v: Y)
    requires k != Nil
    ensures FindKey([k, v] + c, k.value) == 0
  {
    FoundAt([k, v] + c, k.value, 0);
  }

  /** Looking up a key that none of the pairs from j on has. */
  lemma {:induction false} PrunedKeysAreLater(path: Path, n: Y, j: nat, key: string)
    requires n != Nil && WellFormed(n) && n.kind == Mapping && 2 * j <= |n.content|
    requires NoKeyFrom(n.content, j, key)
    ensures var c := PrunePairs(path, n, 2 * j);
      |c| % 2 == 0 && FindKey(c, key) == |c|
    decreases |n.content| - 2 * j
  {
    hide FindKey, KeepsPair, Prune, PrunePairs, WellFormed;
    if 2 * j + 1 < |n.content| {
      var k, v := n.content[2 * j], n.content[2 * j + 1];
      PrunePairsStep(path, n, j);
      NonNilKey(n, j);
      PrunedKeysAreLater(path, n, j + 1, key);
      if KeepsPair(path, n, j) { FindAfterFront(PrunePairs(path, n, 2 * j + 2), key, k, Prune(path + [k.value], v)); }
    } else {
      NothingPruned(path, n, j);
      FindInNothing(key);
    }
  }

  ghost predicate NoKeyFrom(c: seq<Y>, j: nat, key: string) {
    forall i :: j <= i && 2 * i + 1 < |c| ==> c[2 * i] == Nil || c[2 * i].value != key
  }

  lemma NothingPruned(path: Path, n: Y, j: nat)
    requires n != Nil && 2 * j + 1 >= |n.content|
    ensures PrunePairs(path, n, 2 * j) == []
  {
  }

  lemma FindInNothing(key: string)
    ensures FindKey([], key) == 0
  {
  }

  /** A tree that is zero once pruned held nothing worth writing. */
  lemma {:induction false} ZeroOncePruned(path: Path, v: Y)
    requires WellFormed(v) && IsZero(Prune(path, v))
    ensures Defaulty(path, v)
    decreases v
  {
    hide IsKnownDefault;
    if v.kind == Mapping {
      forall i | 0 <= i && 2 * i + 1 < |v.content|
        ensures Defaulty(path + [v.content[2 * i].value], v.content[2 * i + 1])
      {
        PairOncePruned(path, v, i);
      }
    } else if v.kind == Sequence {
      forall i | 0 <= i < |v.content|
        ensures Defaulty(path, v.content[i])
      {
        assert Prune(path, v).content[i] == Prune(path, v.content[i]);
        ZeroOncePruned(path, v.content[i]);
      }
    }
  }

  lemma {:induction false} PairOncePruned(path: Path, v: Y, i: nat)
    requires WellFormed(v) && v.kind == Mapping && IsZero(Prune(path, v))
    requires 2 * i + 1 < |v.content|
    ensures Defaulty(path + [v.content[2 * i].value], v.content[2 * i + 1])
    decreases v, 0
  {
    hide IsKnownDefault, FindKey;
    var k, w := v.content[2 * i], v.content[2 * i + 1];
    var childPath := path + [k.value];
    if KeepsPair(path, v, i) {
      KeptPairIsZero(path, v, i);
      ZeroOncePruned(childPath, w);
    } else if !IsKnownDefault(childPath, w) {
      EmptiedIsZero(Prune(childPath, w));
      ZeroOncePruned(childPath, w);
    }
  }

  /** A value kept in a mapping that pruned to zero is itself zero once pruned. */
  lemma KeptPairIsZero(path: Path, v: Y, i: nat)
    requires v != Nil && WellFormed(v) && v.kind == Mapping && IsZero(Prune(path, v))
    requires 2 * i + 1 < |v.content| && KeepsPair(path, v, i)
    ensures IsZero(Prune(path + [v.content[2 * i].value], v.content[2 * i + 1]))
  {
    hide IsKnownDefault, FindKey, KeepsPair, Prune, PrunePairs, WellFormed;
    PruneOfMapping(path, v);
    NonNilKey(v, i);
    var c, k := Prune(path, v).content, v.content[2 * i];
    FindInPruned(path, v, 0, i);
    ValuesAreOdd(c, k.value);
    assert IsZero(c[FindKey(c, k.value) + 1]);
  }

  lemma PruneOfMapping(path: Path, v: Y)
    requires v != Nil && v.kind == Mapping
    ensures Prune(path, v) == v.(content := PrunePairs(path, v, 0))
  {
  }

  lemma ValuesAreOdd(c: seq<Y>, key: string)
    ensures FindKey(c, key) < |c| ==> FindKey(c, key) % 2 == 0 && FindKey(c, key) + 1 < |c|
  {
  }

  lemma EmptiedIsZero(n: Y)
    requires n != Nil && Emptied(n)
    ensures IsZero(n)
  {
  }

  /** A pruned copy still reflects the original: what is missing was not worth writing. */
  lemma {:induction false} PrunedReflects(path: Path, s: Y)
    requires WellFormed(s)
    ensures Reflects(Prune(path, s), s, path)
    decreases s, 1
  {
    if s.kind == Mapping {
      var c := PrunePairs(path, s, 0);
      if |s.content| > 0 { FindInPruned(path, s, 0, 0); }
      forall i | 0 <= i && 2 * i + 1 < |s.content|
        ensures ReflectsKey(c, s, path, i)
      {
        PrunedPairReflects(path, s, i);
      }
    } else if s.kind == Sequence {
      forall i | 0 <= i < |s.content|
        ensures Reflects(Prune(path, s).content[i], s.content[i], path)
      {
        PrunedReflects(path, s.content[i]);
      }
    }
  }

  lemma {:induction false} PrunedPairReflects(path: Path, s: Y, i: nat)
    requires WellFormed(s) && s.kind == Mapping && 2 * i + 1 < |s.content|
    ensures ReflectsKey(PrunePairs(path, s, 0), s, path, i)
    decreases s, 0
  {
    hide FindKey, IsKnownDefault, Prune, PrunePairs, Reflects;
    var k, v := s.content[2 * i], s.content[2 * i + 1];
    var childPath := path + [k.value];
    FindInPruned(path, s, 0, i);
    if KeepsPair(path, s, i) {
      PrunedReflects(childPath, v);
    } else if !IsKnownDefault(childPath, v) {
      EmptiedIsZero(Prune(childPath, v));
      ZeroOncePruned(childPath, v);
    }
  }

  /** A new key is left out only if its value was not worth writing. */
  lemma LeftOutMeansDefaulty(path: Path, v: Y)
    requires WellFormed(v) && IsKnownDefault(path, Prune(path, v))
    ensures Defaulty(path, v)
  {
    if IsZero(Prune(path, v)) { ZeroOncePruned(path, v); }
  }

  // ----- the merge reflects its source -----------------------------------------------------------------

  lemma WellFormedIsPaired(s: Y)
    requires WellFormed(s)
    ensures Paired(s)
    decreases s
  {
    if s.kind == Mapping {
      forall i | 0 <= i < |s.content| && i % 2 == 1
        ensures s.content[i] != Nil && Paired(s.content[i])
      {
        WellFormedIsPaired(s.content[i]);
      }
    } else if s.kind == Sequence {
      forall i | 0 <= i < |s.content|
        ensures Paired(s.content[i])
      {
        WellFormedIsPaired(s.content[i]);
      }
    }
  }

  /** Content of a mapping: even length, no nil, paired values. */
  ghost predicate PairedContent(c: seq<Y>) {
    && |c| % 2 == 0
    && (forall i :: 0 <= i < |c| ==> c[i] != Nil)
    && (forall i :: 0 <= i < |c| && i % 2 == 1 ==> Paired(c[i]))
  }

  /**
   The first n keys of s are reflected in c. (Pair n + 1 changes only its own key's value or
   adds a key, so this carries over.)
   */
  ghost predicate ReflectsFirst(c: seq<Y>, s: Y, path: Path, n: nat)
    requires s != Nil && 2 * n <= |s.content|
  {
    |c| % 2 == 0 && forall i :: 0 <= i < n ==> ReflectsKey(c, s, path, i)
  }

  /** Merging another key's pair leaves what is found under key i alone. */
  lemma OtherKeyUntouched(c: seq<Y>, s: Y, path: Path, i: nat, k: Y, v: Y, merged: Y)
    requires s != Nil && 2 * i + 1 < |s.content| && k != Nil && |c| % 2 == 0
    requires s.content[2 * i] != Nil && s.content[2 * i].value != k.value
    requires ReflectsKey(c, s, path, i)
    ensures ReflectsKey(MergePair(c, k, v, path, merged), s, path, i)
  {
    hide FindKey, IsKnownDefault, Prune, Reflects, Defaulty;
    var key := s.content[2 * i].value;
    var at := FindKey(c, k.value);
    FindIsFirst(c, key);
    FindIsFirst(c, k.value);
    if at < |c| {
      FindAfterValue(c, key, at + 1, merged);
    } else {
      FindAfterPair(c, key, k, Prune(path + [k.value], v));
    }
  }

  lemma OwnKeyReflected(c: seq<Y>, s: Y, path: Path, i: nat, merged: Y)
    requires s != Nil && 2 * i + 1 < |s.content| && |c| % 2 == 0
    requires s.content[2 * i] != Nil && WellFormed(s.content[2 * i + 1])
    requires FindKey(c, s.content[2 * i].value) < |c| ==>
      Reflects(merged, s.content[2 * i + 1], path + [s.content[2 * i].value])
    ensures ReflectsKey(MergePair(c, s.content[2 * i], s.content[2 * i + 1], path, merged), s, path, i)
  {
    hide FindKey, IsKnownDefault, Prune, Reflects, Defaulty;
    var k, v := s.content[2 * i], s.content[2 * i + 1];
    var childPath := path + [k.value];
    var at := FindKey(c, k.value);
    FindIsFirst(c, k.value);
    if at < |c| {
      FindAfterValue(c, k.value, at + 1, merged);
    } else {
      var candidate := Prune(childPath, v);
      FindAfterPair(c, k.value, k, candidate);
      PrunedReflects(childPath, v);
      if IsKnownDefault(childPath, candidate) { LeftOutMeansDefaulty(childPath, v); }
    }
  }

  /** Merging a well-formed source into any paired destination reflects the source. */
  lemma {:induction false} MergeReflects(d: Y, s: Y, path: Path)
    requires d != Nil && s != Nil && Paired(d) && WellFormed(s)
    ensures Reflects(MergeNode(d, s, path), s, path)
    decreases s, 2
  {
    hide MergeElements, MergePairs, Reorder, Paired, WellFormed;
    match s.kind
    case Mapping =>
      WellFormedIsPaired(s);
      var e := if d.kind != Mapping then CopyShallow(d, s) else d;
      PairedMapping(d);
      PairedMapping(s);
      MergePairsReflects(e.content, s, path, |s.content| / 2);
      MappingReflects(e.(content := MergePairs(e.content, s, path, |s.content| / 2)), s, path);
    case Sequence =>
      if !NullFor(d, s) {
        var e := AsSequence(d);
        PairedSequence(d);
        ReorderPaired(e.content, s.content);
        MergeElementsReflects(Reorder(e.content, s.content), s, path);
        SequenceReflects(e.(content := MergeElements(Reorder(e.content, s.content), s, path)), s, path);
      }
    case _ =>
  }

  lemma PairedMapping(d: Y)
    requires d != Nil && Paired(d)
    ensures d.kind == Mapping ==> PairedContent(d.content)
  {
  }

  lemma PairedSequence(d: Y)
    requires d != Nil && Paired(d)
    ensures forall i :: 0 <= i < |AsSequence(d).content| ==> Paired(AsSequence(d).content[i])
  {
  }

  lemma ReorderPaired(d: seq<Y>, s: seq<Y>)
    requires forall i :: 0 <= i < |d| ==> Paired(d[i])
    ensures forall i :: 0 <= i < |Reorder(d, s)| ==> Paired(Reorder(d, s)[i])
  {
    hide Paired;
    NilIsPaired();
  }

  lemma NilIsPaired()
    ensures Paired(Nil)
  {
  }

  lemma MappingReflects(d: Y, s: Y, path: Path)
    requires d != Nil && d.kind == Mapping && WellFormed(s) && s.kind == Mapping
    requires ReflectsFirst(d.content, s, path, |s.content| / 2)
    ensures Reflects(d, s, path)
  {
    hide ReflectsKey;
  }

  lemma SequenceReflects(d: Y, s: Y, path: Path)
    requires d != Nil && d.kind == Sequence && WellFormed(s) && s.kind == Sequence
    requires |d.content| == |s.content|
    requires forall i :: 0 <= i < |s.content| ==> s.content[i] != Nil && Reflects(d.content[i], s.content[i], path)
    ensures Reflects(d, s, path)
  {
  }

  lemma SourcePair(s: Y, i: nat)
    requires s != Nil && WellFormed(s) && s.kind == Mapping && 2 * i + 1 < |s.content|
    ensures s.content[2 * i] != Nil && s.content[2 * i + 1] != Nil && WellFormed(s.content[2 * i + 1])
  {
  }

  /** The loop over source pairs: content stays paired and reflects every key merged so far. */
  lemma {:induction false} MergePairsReflects(c: seq<Y>, s: Y, path: Path, n: nat)
    requires s != Nil && WellFormed(s) && s.kind == Mapping && 2 * n <= |s.content|
    requires PairedContent(c)
    ensures PairedContent(MergePairs(c, s, path, n))
    ensures ReflectsFirst(MergePairs(c, s, path, n), s, path, n)
    decreases s, 1, n
  {
    hide FindKey, MergeNode, MergePair, ReflectsKey, WellFormed, Existing;
    if n > 0 {
      MergePairsReflects(c, s, path, n - 1);
      var before := MergePairs(c, s, path, n - 1);
      var k, v := s.content[2 * (n - 1)], s.content[2 * (n - 1) + 1];
      SourcePair(s, n - 1);
      var childPath := path + [k.value];
      var old_ := Existing(before, k);
      var merged := MergeNode(old_, v, childPath);
      ExistingIsPaired(before, k);
      if old_ != Nil {
        MergeReflects(old_, v, childPath);
        MergePaired(old_, v, childPath);
      }
      OwnKeyReflected(before, s, path, n - 1, merged);
      forall i | 0 <= i < n - 1
        ensures ReflectsKey(MergePair(before, k, v, path, merged), s, path, i)
      {
        KeysDiffer(s, i, n - 1);
        OtherKeyUntouched(before, s, path, i, k, v, merged);
      }
      MergePairKeepsPaired(before, k, v, path, merged);
    }
  }

  lemma ExistingIsPaired(c: seq<Y>, k: Y)
    requires PairedContent(c) && k != Nil
    ensures Paired(Existing(c, k))
    ensures FindKey(c, k.value) < |c| <==> Existing(c, k) != Nil
  {
    hide Paired;
    FindIsFirst(c, k.value);
    NilIsPaired();
  }

  lemma MergePairKeepsPaired(c: seq<Y>, k: Y, v: Y, path: Path, merged: Y)
    requires PairedContent(c) && k != Nil && WellFormed(v)
    requires FindKey(c, k.value) < |c| ==> merged != Nil && Paired(merged)
    ensures PairedContent(MergePair(c, k, v, path, merged))
  {
    hide Paired, WellFormed, FindKey, IsKnownDefault, Prune;
    FindIsFirst(c, k.value);
    PrunedIsPaired(path + [k.value], v);
    WellFormedNonNil(v);
  }

  lemma WellFormedNonNil(v: Y)
    requires WellFormed(v)
    ensures v != Nil
  {
  }

  lemma {:induction false} PrunedIsPaired(path: Path, v: Y)
    requires WellFormed(v)
    ensures Paired(Prune(path, v))
    decreases v, 1
  {
    if v.kind == Mapping {
      PrunePairsPaired(path, v, 0);
    } else if v.kind == Sequence {
      forall i | 0 <= i < |v.content|
        ensures Paired(Prune(path, v).content[i])
      {
        PrunedIsPaired(path, v.content[i]);
      }
    }
  }

  lemma {:induction false} PrunePairsPaired(path: Path, n: Y, j: nat)
    requires n != Nil && WellFormed(n) && n.kind == Mapping && 2 * j <= |n.content|
    ensures PairedContent(PrunePairs(path, n, 2 * j))
    decreases n, 0, |n.content| - 2 * j
  {
    hide Paired, WellFormed, Prune, KeepsPair, PrunePairs;
    if 2 * j + 1 < |n.content| {
      SourcePair(n, j);
      PrunePairsPaired(path, n, j + 1);
      PrunePairsStep(path, n, j);
      PrunedIsPaired(path + [n.content[2 * j].value], n.content[2 * j + 1]);
    } else {
      NothingPruned(path, n, j);
    }
  }

  /** A merged tree is paired again. */
  lemma {:induction false} MergePaired(d: Y, s: Y, path: Path)
    requires d != Nil && s != Nil && Paired(d) && WellFormed(s)
    ensures Paired(MergeNode(d, s, path))
    decreases s, 2
  {
    hide MergeElements, MergePairs, Reorder, WellFormed;
    match s.kind
    case Mapping =>
      WellFormedIsPaired(s);
      var e := if d.kind != Mapping then CopyShallow(d, s) else d;
      PairedMapping(d);
      PairedMapping(s);
      MergePairsReflects(e.content, s, path, |s.content| / 2);
    case Sequence =>
      if !NullFor(d, s) {
        var e := AsSequence(d);
        PairedSequence(d);
        ReorderPaired(e.content, s.content);
        MergeElementsReflects(Reorder(e.content, s.content), s, path);
      }
    case _ =>
  }

  /** Position by position. */
  lemma {:induction false} MergeElementsReflects(r: seq<Y>, s: Y, path: Path)
    requires s != Nil && WellFormed(s) && s.kind == Sequence
    requires forall i :: 0 <= i < |r| ==> Paired(r[i])
    ensures forall i :: 0 <= i < |s.content| ==>
      && s.content[i] != Nil && Reflects(MergeElements(r, s, path)[i], s.content[i], path)
      && Paired(MergeElements(r, s, path)[i])
    decreases s, 1
  {
    forall i | 0 <= i < |s.content|
      ensures s.content[i] != Nil && Reflects(MergeElements(r, s, path)[i], s.content[i], path)
      ensures Paired(MergeElements(r, s, path)[i])
    {
      MergeElementReflects(r, s, path, i);
    }
  }

  lemma {:induction false} MergeElementReflects(r: seq<Y>, s: Y, path: Path, i: nat)
    requires s != Nil && WellFormed(s) && s.kind == Sequence && i < |s.content|
    requires forall i :: 0 <= i < |r| ==> Paired(r[i])
    ensures s.content[i] != Nil && Reflects(MergeElement(r, s, path, i), s.content[i], path)
    ensures Paired(MergeElement(r, s, path, i))
    decreases s, 0
  {
    hide MergeNode, Reflects, PruneMissing, Paired;
    var e := s.content[i];
    if i >= |r| || r[i] == Nil {
      ReflectsItself(e, path);
      WellFormedIsPaired(e);
    } else {
      MergeReflects(r[i], e, path);
      MergePaired(r[i], e, path);
      PruneMissingReflects(MergeNode(r[i], e, path), e, path);
    }
  }

  // ----- one pair at a time ----------------------------------------------------------------------------

  lemma NoPairsMerged(c: seq<Y>, s: Y, path: Path)
    requires s != Nil
    ensures MergePairs(c, s, path, 0) == c
  {
  }

  lemma MergePairsNext(c: seq<Y>, s: Y, path: Path, j: nat)
    requires s != Nil && 2 * j + 1 < |s.content|
    ensures var before, k, v := MergePairs(c, s, path, j), s.content[2 * j], s.content[2 * j + 1];
      MergePairs(c, s, path, j + 1)
        == if k == Nil then before
          else MergePair(before, k, v, path, MergeNode(Existing(before, k), v, path + [k.value]))
  {
    hide MergePair, MergeNode, Existing;
  }

  // ----- removing keys the source lacks -------------------------------------------------------------------

  lemma {:induction false} KeepPairsPaired(c: seq<Y>, keep: set<string>)
    requires PairedContent(c)
    ensures PairedContent(KeepPairs(c, keep))
  {
    hide Paired, KeepPair;
    if |c| >= 2 {
      var rest := c[2..];
      forall i | 0 <= i < |rest|
        ensures rest[i] != Nil && (i % 2 == 1 ==> Paired(rest[i]))
      {
        assert rest[i] == c[i + 2];
      }
      KeepPairsPaired(rest, keep);
    }
  }

  /** A key is found in e as it is in c, with the same value. */
  ghost predicate FoundAlike(c: seq<Y>, e: seq<Y>, key: string) {
    && |e| % 2 == 0 && (forall i :: 0 <= i < |e| ==> e[i] != Nil)
    && (FindKey(e, key) < |e| <==> FindKey(c, key) < |c|)
    && (FindKey(c, key) < |c| ==> e[FindKey(e, key) + 1] == c[FindKey(c, key) + 1])
  }

  lemma AlikeInFront(c: seq<Y>, e: seq<Y>, k: Y, v: Y, key: string, kept: bool)
    requires FoundAlike(c, e, key) && k != Nil && v != Nil && (kept || k.value != key)
    ensures FoundAlike([k, v] + c, if kept then [k, v] + e else e, key)
  {
    hide FindKey;
    if k.value == key {
      FoundInFront(c, k, v);
      FoundInFront(e, k, v);
    } else {
      FindAfterFront(c, key, k, v);
      FindAfterFront(e, key, k, v);
    }
  }

  /** A kept key is found with the same value after the others are removed; nothing new is found. */
  lemma {:induction false} FindInKept(c: seq<Y>, keep: set<string>, key: string)
    requires |c| % 2 == 0 && Text.TrimSpace(key) in keep
    requires forall i :: 0 <= i < |c| ==> c[i] != Nil
    ensures FoundAlike(c, KeepPairs(c, keep), key)
    decreases |c|
  {
    hide FindKey, Text.TrimSpace;
    if |c| >= 2 {
      FindInKept(c[2..], keep, key);
      AlikeInFront(c[2..], KeepPairs(c[2..], keep), c[0], c[1], key, KeepPair(c[0], keep));
      assert c == [c[0], c[1]] + c[2..] && c[..2] == [c[0], c[1]];
    }
  }

  lemma PruneMissingReflects(d: Y, s: Y, path: Path)
    requires d != Nil && s != Nil && Paired(d) && WellFormed(s) && Reflects(d, s, path)
    ensures Reflects(PruneMissing(d, s), s, path) && Paired(PruneMissing(d, s))
  {
    hide WellFormed, Paired, FindKey, KeepPairs, KeysOf;
    if d.kind == Mapping && s.kind == Mapping {
      var keep := KeysOf(s.content);
      PairedMapping(d);
      KeepPairsPaired(d.content, keep);
      PairedFromContent(PruneMissing(d, s));
      forall i | 0 <= i && 2 * i + 1 < |s.content|
        ensures ReflectsKey(KeepPairs(d.content, keep), s, path, i)
      {
        SourcePair(s, i);
        KeyIsKept(s, i);
        assert ReflectsKey(d.content, s, path, i);
        FindInKept(d.content, keep, s.content[2 * i].value);
      }
    }
  }

  lemma PairedFromContent(d: Y)
    requires d != Nil && d.kind == Mapping && PairedContent(d.content)
    ensures Paired(d)
  {
  }

  lemma KeyIsKept(s: Y, i: nat)
    requires s != Nil && WellFormed(s) && s.kind == Mapping && 2 * i + 1 < |s.content|
    ensures s.content[2 * i] != Nil && Text.TrimSpace(s.content[2 * i].value) in KeysOf(s.content)
  {
  }

  // ----- what the merge leaves where it was -------------------------------------------------------------

  /** The old content is still there: keys untouched, values in their own nodes, additions at the end. */
  ghost predicate OldKeysFirst(before: seq<Y>, after: seq<Y>) {
    && |before| <= |after|
    && (forall i :: 0 <= i < |before| && i % 2 == 0 ==> after[i] == before[i])
    && (forall i :: 0 <= i < |before| && before[i] != Nil ==> after[i] != Nil && after[i].note == before[i].note)
  }

  lemma {:induction false} MergePairsKeepsOldKeys(c: seq<Y>, s: Y, path: Path, n: nat)
    requires s != Nil && 2 * n <= |s.content|
    ensures OldKeysFirst(c, MergePairs(c, s, path, n))
  {
    hide FindKey, IsKnownDefault, Prune;
    if n > 0 {
      MergePairsKeepsOldKeys(c, s, path, n - 1);
      var before := MergePairs(c, s, path, n - 1);
      var k := s.content[2 * n - 2];
      if k != Nil { FindIsFirst(before, k.value); }
    }
  }

  /**
   Merging two mappings, of any shape: the old keys with their comments stay, in order, as
   a prefix of the new keys, and every old value keeps its own node and comments.
   */
  lemma OldKeysStayInOrder(d: Y, s: Y, path: Path)
    requires d != Nil && s != Nil && d.kind == Mapping && s.kind == Mapping
    ensures OldKeysFirst(d.content, MergeNode(d, s, path).content)
  {
    MergePairsKeepsOldKeys(d.content, s, path, |s.content| / 2);
  }

  // ----- sequence matching uses each old node at most once ---------------------------------------------------

  /** No old position is taken twice. */
  ghost predicate TakenOnce(picks: seq<nat>, n: nat) {
    forall i, j :: 0 <= i < j < |picks| && picks[i] < n ==> picks[i] != picks[j]
  }

  lemma {:induction false} AssignIsInjective(original: seq<Y>, src: seq<Y>)
    ensures TakenOnce(Assign(original, src), |original|)
  {
    if src != [] {
      var before := Assign(original, src[..|src| - 1]);
      AssignIsInjective(original, src[..|src| - 1]);
      OneMorePick(before, |original|, MatchElement(original, Taken(before), src[|src| - 1]));
    }
  }

  lemma OneMorePick(before: seq<nat>, n: nat, m: nat)
    requires TakenOnce(before, n) && (m < n ==> m !in Taken(before))
    ensures TakenOnce(before + [m], n)
  {
    forall p | p in before
      ensures p in Taken(before)
    {
    }
  }
}
