/**
 The comment-preserving YAML merge on trees. `note` stands for a node's comments and
 style, which belong to the node and not to its value. Mapping content alternates keys
 and values, as in yaml.Node.
 */
module YamlSpec {
  import Text

  datatype Kind = Zero | Document | Sequence | Mapping | Scalar | Alias

  /** `Nil` is a nil node pointer. */
  datatype Y = Nil | Node(kind: Kind, tag: string, value: string, note: string, content: seq<Y>)

  type Path = seq<string>

  function Join(path: Path): string {
    if path == [] then ""
    else if |path| == 1 then path[0]
    else path[0] + "." + Join(path[1..])
  }

  // ----- keys ---------------------------------------------------------------------------

  /** findMapKeyIndex on a mapping's content: the first pair with this key, or the length. */
  function FindKey(c: seq<Y>, key: string): (i: nat)
    ensures i <= |c|
    ensures i < |c| ==> i + 1 < |c| && i % 2 == 0 && c[i] != Nil && c[i].value == key
  {
    FindKeyFrom(c, key, 0)
  }

  function FindKeyFrom(c: seq<Y>, key: string, i: nat): (r: nat)
    requires i % 2 == 0
    ensures r <= |c|
    ensures r < |c| ==> i <= r && r + 1 < |c| && r % 2 == 0 && c[r] != Nil && c[r].value == key
    ensures forall j :: i <= j && j + 1 < |c| && j % 2 == 0 && (r == |c| || j < r) ==> c[j] == Nil || c[j].value != key
    decreases |c| - i
  {
    if i + 1 >= |c| then |c|
    else if c[i] != Nil && c[i].value == key then i
    else FindKeyFrom(c, key, i + 2)
  }

  // ----- defaults --------------------------------------------------------------------------

  /** isZeroValueNode */
  predicate IsZero(n: Y) {
    if n == Nil then true
    else
      match n.kind
      case Scalar =>
        if n.tag == "!!bool" then n.value == "false"
        else if n.tag == "!!int" || n.tag == "!!float" then n.value == "0" || n.value == "0.0"
        else if n.tag == "!!str" then n.value == ""
        else n.tag == "!!null"
      case Sequence => forall i :: 0 <= i < |n.content| ==> IsZero(n.content[i])
      case Mapping => forall i :: 0 <= i < |n.content| && i % 2 == 1 ==> IsZero(n.content[i])
      case _ => false
  }

  const PPROF_ADDR := "127.0.0.1:8316"
  const PANEL_REPOSITORY := "https://github.com/zsecducna/" + "Cli-Proxy-API-Management-Center"

  /** isKnownDefaultValue */
  predicate IsKnownDefault(path: Path, n: Y) {
    var full := Join(path);
    if full == "openai-compatibility." + "append-reasoning-effort-to-model" then false
    else if IsZero(n) then true
    else if path == [] then false
    else if n.kind == Scalar && n.tag == "!!str" then
      if full == "pprof.addr" then n.value == PPROF_ADDR
      else if full == "remote-management.panel-github-repository" then n.value == PANEL_REPOSITORY
      else full == "routing.strategy" && n.value == "round-robin"
    else n.kind == Scalar && n.tag == "!!int" && full == "error-logs-max-files" && n.value == "10"
  }

  /** pruneKnownDefaultsInNewNode */
  function Prune(path: Path, n: Y): (r: Y)
    ensures n == Nil <==> r == Nil
    ensures n != Nil ==> r.kind == n.kind && r.tag == n.tag && r.value == n.value && r.note == n.note
    decreases n, 1
  {
    if n == Nil then Nil
    else
      match n.kind
      case Mapping => n.(content := PrunePairs(path, n, 0))
      case Sequence => n.(content := seq(|n.content|, i requires 0 <= i < |n.content| => Prune(path, n.content[i])))
      case _ => n
  }

  predicate Emptied(n: Y)
    requires n != Nil
  {
    (n.kind == Mapping || n.kind == Sequence) && n.content == []
  }

  /** The pairs of mapping n from position i on that pruning keeps. */
  function PrunePairs(path: Path, n: Y, i: nat): seq<Y>
    requires n != Nil
    decreases n, 0, |n.content| - i
  {
    if i + 1 >= |n.content| then []
    else
      var k, v := n.content[i], n.content[i + 1];
      var rest := PrunePairs(path, n, i + 2);
      if k == Nil || v == Nil || IsKnownDefault(path + [k.value], v) || Emptied(Prune(path + [k.value], v)) then rest
      else [k, Prune(path + [k.value], v)] + rest
  }

  /** pruneMissingMapKeys: pairs whose (trimmed) key no source key has are removed. */
  function PruneMissing(d: Y, s: Y): Y {
    if d == Nil || s == Nil || d.kind != Mapping || s.kind != Mapping then d
    else d.(content := KeepPairs(d.content, KeysOf(s.content)))
  }

  function KeysOf(c: seq<Y>): set<string> {
    set i | 0 <= i && i + 1 < |c| && i % 2 == 0 && c[i] != Nil && Text.TrimSpace(c[i].value) != ""
      :: Text.TrimSpace(c[i].value)
  }

  predicate KeepPair(k: Y, keep: set<string>) {
    k == Nil || Text.TrimSpace(k.value) in keep
  }

  function KeepPairs(c: seq<Y>, keep: set<string>): (r: seq<Y>)
    ensures |r| <= |c|
  {
    if |c| < 2 then c
    else if KeepPair(c[0], keep) then c[..2] + KeepPairs(c[2..], keep)
    else KeepPairs(c[2..], keep)
  }

  // ----- matching sequence elements -----------------------------------------------------------

  /** mappingScalarValue */
  function ScalarUnder(c: seq<Y>, key: string, i: nat): string
    decreases |c| - i
  {
    if i + 1 >= |c| then ""
    else if c[i] != Nil && c[i + 1] != Nil && c[i + 1].kind == Scalar
            && Text.ToLower(Text.TrimSpace(c[i].value)) == Text.ToLower(key)
    then Text.TrimSpace(c[i + 1].value)
    else ScalarUnder(c, key, i + 2)
  }

  const IDENTITY_KEYS: seq<string> := ["id", "name", "alias", "api-key", "api_key", "apikey", "key",
                                      "provider", "model"]

  function NamedIdentity(c: seq<Y>, keys: seq<string>): string {
    if keys == [] then ""
    else if ScalarUnder(c, keys[0], 0) != "" then keys[0] + "=" + ScalarUnder(c, keys[0], 0)
    else NamedIdentity(c, keys[1..])
  }

  function FirstScalar(c: seq<Y>, i: nat): string
    decreases |c| - i
  {
    if i + 1 >= |c| then ""
    else if c[i] != Nil && c[i + 1] != Nil && c[i + 1].kind == Scalar && Text.TrimSpace(c[i + 1].value) != ""
    then Text.ToLower(Text.TrimSpace(c[i].value)) + "=" + Text.TrimSpace(c[i + 1].value)
    else FirstScalar(c, i + 2)
  }

  /** sequenceElementIdentity */
  function Identity(n: Y): string {
    if n == Nil || n.kind != Mapping then ""
    else if NamedIdentity(n.content, IDENTITY_KEYS) != "" then NamedIdentity(n.content, IDENTITY_KEYS)
    else FirstScalar(n.content, 0)
  }

  /** nodesStructurallyEqual; alias targets are not modelled and compare as absent. */
  predicate SameStructure(a: Y, b: Y)
    decreases a
  {
    if a == Nil || b == Nil then a == b
    else if a.kind != b.kind then false
    else
      match a.kind
      case Mapping =>
        |a.content| == |b.content|
        && forall i :: 0 <= i < |a.content| && (i % 2 == 1 || i + 1 < |a.content|) ==>
          SameStructure(a.content[i], b.content[i])
      case Sequence =>
        |a.content| == |b.content| && forall i :: 0 <= i < |a.content| ==> SameStructure(a.content[i], b.content[i])
      case Alias => true
      case _ => Text.TrimSpace(a.value) == Text.TrimSpace(b.value)
  }

  /** Whether an old element is accepted for a target in the identity pass. */
  predicate SameIdentity(old_: Y, target: Y)
    requires target != Nil
  {
    && old_ != Nil && old_.kind == target.kind
    && (if target.kind == Mapping then Identity(target) != "" && Identity(old_) == Identity(target)
        else
          && target.kind == Scalar && Text.TrimSpace(target.value) != ""
          && Text.TrimSpace(old_.value) == Text.TrimSpace(target.value))
  }

  function FirstUnused(original: seq<Y>, used: set<nat>, target: Y, byIdentity: bool, i: nat): (r: nat)
    requires target != Nil && i <= |original|
    ensures i <= r <= |original|
    ensures r < |original| ==> r !in used && original[r] != Nil
    decreases |original| - i
  {
    if i == |original| then i
    else if i !in used && original[i] != Nil
            && (if byIdentity then SameIdentity(original[i], target) else SameStructure(original[i], target))
    then i
    else FirstUnused(original, used, target, byIdentity, i + 1)
  }

  /** matchSequenceElement: by identity first, then by structure; the length means no match. */
  function MatchElement(original: seq<Y>, used: set<nat>, target: Y): (r: nat)
    ensures r <= |original|
    ensures r < |original| ==> r !in used && original[r] != Nil
  {
    if target == Nil then |original|
    else
      var r := FirstUnused(original, used, target, true, 0);
      if r < |original| then r else FirstUnused(original, used, target, false, 0)
  }

  /** For each source element the old position it takes over, or the number of old elements. */
  function Assign(original: seq<Y>, src: seq<Y>): (r: seq<nat>)
    ensures |r| == |src|
    ensures forall i :: 0 <= i < |r| ==> r[i] <= |original|
    ensures forall i :: 0 <= i < |r| && r[i] < |original| ==> original[r[i]] != Nil
  {
    if src == [] then []
    else
      var before := Assign(original, src[..|src| - 1]);
      before + [MatchElement(original, Taken(before), src[|src| - 1])]
  }

  function Taken(picks: seq<nat>): set<nat> {
    set p | p in picks
  }

  function Pick(original: seq<Y>, picks: seq<nat>): (r: seq<Y>)
    ensures |r| == |picks|
  {
    seq(|picks|, i requires 0 <= i < |picks| => if picks[i] < |original| then original[picks[i]] else Nil)
  }

  /** reorderSequenceForMerge */
  function Reorder(d: seq<Y>, s: seq<Y>): seq<Y> {
    if d == [] || s == [] then d else Pick(d, Assign(d, s))
  }

  // ----- the merge -----------------------------------------------------------------------------

  /** copyNodeShallow: the source's value in the destination's node. */
  function CopyShallow(d: Y, s: Y): (r: Y)
    requires d != Nil && s != Nil
    ensures r != Nil && r.note == d.note
  {
    Node(s.kind, s.tag, s.value, d.note, s.content)
  }

  /** A destination about to receive a sequence. */
  function AsSequence(d: Y): (r: Y)
    requires d != Nil
    ensures r != Nil && r.kind == Sequence && r.note == d.note
  {
    if d.kind == Sequence then d else Node(Sequence, "!!seq", d.value, d.note, [])
  }

  predicate NullFor(d: Y, s: Y)
    requires d != Nil && s != Nil
  {
    d.kind == Scalar && d.tag == "!!null" && s.content == []
  }

  /** mergeNodePreserve */
  function MergeNode(d: Y, s: Y, path: Path): (r: Y)
    ensures d != Nil ==> r != Nil && r.note == d.note
    decreases s, 2
  {
    if d == Nil || s == Nil then d
    else
      match s.kind
      case Mapping => MergeMapping(if d.kind != Mapping then CopyShallow(d, s) else d, s, path)
      case Sequence =>
        if NullFor(d, s) then d
        else
          var e := AsSequence(d);
          e.(content := MergeElements(Reorder(e.content, s.content), s, path))
      case Scalar => Node(s.kind, s.tag, s.value, d.note, d.content)
      case Alias => Node(s.kind, s.tag, s.value, d.note, d.content)
      case Zero => d
      case Document => CopyShallow(d, s)
  }

  /** mergeMappingPreserve */
  function MergeMapping(d: Y, s: Y, path: Path): (r: Y)
    requires d != Nil && s != Nil
    ensures r != Nil && r.note == d.note
    decreases s, 1
  {
    if d.kind != Mapping || s.kind != Mapping then CopyShallow(d, s)
    else d.(content := MergePairs(d.content, s, path, |s.content| / 2))
  }

  /** The destination's content after the first n pairs of s. */
  function MergePairs(c: seq<Y>, s: Y, path: Path, n: nat): seq<Y>
    requires s != Nil && 2 * n <= |s.content|
    decreases s, 0, n
  {
    if n == 0 then c
    else
      var before := MergePairs(c, s, path, n - 1);
      var k, v := s.content[2 * n - 2], s.content[2 * n - 1];
      if k == Nil then before else MergePair(before, k, v, path, MergeNode(Existing(before, k), v, path + [k.value]))
  }

  /** The value already under a key, if any. */
  function Existing(c: seq<Y>, k: Y): Y
    requires k != Nil
  {
    if FindKey(c, k.value) < |c| then c[FindKey(c, k.value) + 1] else Nil
  }

  /** One pair: an existing value is replaced by its merge; a new key is added unless it is a default. */
  function MergePair(c: seq<Y>, k: Y, v: Y, path: Path, merged: Y): seq<Y>
    requires k != Nil
  {
    var i := FindKey(c, k.value);
    if i < |c| then c[i + 1 := merged]
    else
      var candidate := Prune(path + [k.value], v);
      if IsKnownDefault(path + [k.value], candidate) then c else c + [k, candidate]
  }

  /** Position i of a merged sequence, given the reordered destination. */
  function MergeElement(r: seq<Y>, s: Y, path: Path, i: nat): Y
    requires s != Nil && i < |s.content|
    decreases s, 0
  {
    if i >= |r| || r[i] == Nil then s.content[i]
    else PruneMissing(MergeNode(r[i], s.content[i], path), s.content[i])
  }

  function MergeElements(r: seq<Y>, s: Y, path: Path): (m: seq<Y>)
    requires s != Nil
    ensures |m| == |s.content|
    decreases s, 1
  {
    seq(|s.content|, i requires 0 <= i < |s.content| => MergeElement(r, s, path, i))
  }
}
