/**
 Heap nodes that form a tree, and the in-place edits the merge is made of. `Is(n, y)` says
 node n and everything below it reads as y, shares no node between two positions, and
 lives inside n.repr.
 */
module YamlTree {
  import opened YamlSpec

  class YamlNode {
    var kind: Kind
    var tag: string
    var value: string
    const note: string
    var content: seq<YamlNode?>
    ghost var repr: set<YamlNode>

    constructor (kind: Kind, tag: string, value: string, note: string)
      ensures Is(this, Node(kind, tag, value, note, [])) && fresh(repr)
    {
      this.kind, this.tag, this.value, this.note, content := kind, tag, value, note, [];
      repr := {this};
    }
  }

  /** Distinct children live apart, inside the parent's footprint and not on the parent. */
  ghost predicate Housed(n: YamlNode)
    reads n, n.repr
  {
    && n in n.repr
    && (forall i :: 0 <= i < |n.content| && n.content[i] != null ==>
          n.content[i] in n.repr && n.content[i].repr <= n.repr && n !in n.content[i].repr)
    && (forall i, j :: 0 <= i < j < |n.content| && n.content[i] != null && n.content[j] != null ==>
          n.content[i].repr !! n.content[j].repr)
  }

  ghost predicate Is(n: YamlNode, y: Y)
    reads n, n.repr
    decreases y
  {
    && y != Nil && n.kind == y.kind && n.tag == y.tag && n.value == y.value && n.note == y.note
    && |n.content| == |y.content|
    && Housed(n)
    && (forall i :: 0 <= i < |n.content| ==>
          if n.content[i] == null then y.content[i] == Nil else Is(n.content[i], y.content[i]))
  }

  /** A possibly nil pointer. */
  ghost predicate Slot(c: YamlNode?, y: Y)
    reads c, if c == null then {} else c.repr
  {
    if c == null then y == Nil else Is(c, y)
  }

  // ----- editing one node --------------------------------------------------------------------

  /** Kind, tag and value of a node; its children stay. */
  method SetScalar(n: YamlNode, kind: Kind, tag: string, value: string, ghost y: Y)
    requires Is(n, y)
    modifies n
    ensures Is(n, Node(kind, tag, value, y.note, y.content)) && n.repr == old(n.repr) && n.content == old(n.content)
  {
    n.kind, n.tag, n.value := kind, tag, value;
    ChildrenElsewhere(n);
  }

  lemma ChildrenElsewhere(n: YamlNode)
    requires Housed(n)
    ensures forall i :: 0 <= i < |n.content| && n.content[i] != null ==> n.content[i] != n && n !in n.content[i].repr
  {
  }

  /** Forgets all children. */
  method Clear(n: YamlNode, ghost y: Y)
    requires Is(n, y)
    modifies n
    ensures Is(n, y.(content := [])) && n.repr == old(n.repr) && n.content == []
  {
    n.content := [];
  }

  /** Adds a separate tree as last child. */
  method Append(n: YamlNode, c: YamlNode, ghost y: Y, ghost yc: Y)
    requires Is(n, y) && Is(c, yc) && n.repr !! c.repr
    modifies n
    ensures Is(n, y.(content := y.content + [yc])) && n.repr == old(n.repr) + c.repr
    ensures n.content == old(n.content) + [c]
  {
    n.content := n.content + [c];
    n.repr := n.repr + c.repr;
  }

  /** Puts a separate tree into an empty slot. */
  method Fill(n: YamlNode, k: nat, c: YamlNode, ghost y: Y, ghost yc: Y)
    requires Is(n, y) && Is(c, yc) && n.repr !! c.repr
    requires k < |n.content| && n.content[k] == null
    modifies n
    ensures Is(n, y.(content := y.content[k := yc])) && n.repr == old(n.repr) + c.repr
    ensures n.content == old(n.content)[k := c]
  {
    n.content := n.content[k := c];
    n.repr := n.repr + c.repr;
  }

  /** Rearranges children: position i takes over old child picks[i], or nothing past the end. */
  method Rearrange(n: YamlNode, picks: seq<nat>, ghost y: Y)
    requires Is(n, y)
    requires forall i, j :: 0 <= i < j < |picks| && picks[i] < |n.content| ==> picks[i] != picks[j]
    modifies n
    ensures Is(n, y.(content := Pick(y.content, picks))) && n.repr == old(n.repr)
    ensures n.content == seq(|picks|, i requires 0 <= i < |picks| =>
      if picks[i] < |old(n.content)| then old(n.content)[picks[i]] else null)
  {
    var before := n.content;
    n.content := seq(|picks|, i requires 0 <= i < |picks| => if picks[i] < |before| then before[picks[i]] else null);
  }

  // ----- copies and snapshots -------------------------------------------------------------------

  /** The value a tree stands for; what the read-only checks of the merge look at. */
  method Value(n: YamlNode, ghost y: Y) returns (v: Y)
    requires Is(n, y)
    ensures v == y
    decreases y
  {
    var vs := [];
    for i := 0 to |n.content|
      invariant vs == y.content[..i]
    {
      if n.content[i] == null {
        vs := vs + [Nil];
      } else {
        var c := Value(n.content[i], y.content[i]);
        vs := vs + [c];
      }
    }
    v := Node(n.kind, n.tag, n.value, n.note, vs);
  }

  /** deepCopyNode */
  method DeepCopy(n: YamlNode, ghost y: Y) returns (c: YamlNode)
    requires Is(n, y)
    ensures Is(c, y) && fresh(c.repr)
    decreases y, 1
  {
    c := new YamlNode(n.kind, n.tag, n.value, n.note);
    CopyChildren(n, c, y, Node(n.kind, n.tag, n.value, n.note, []));
    assert [] + y.content == y.content;
  }

  /** Appends copies of all of n's children to a separate node c. */
  method CopyChildren(n: YamlNode, c: YamlNode, ghost y: Y, ghost yc: Y)
    requires Is(n, y) && Is(c, yc) && n.repr !! c.repr
    modifies c
    ensures Is(c, yc.(content := yc.content + y.content)) && fresh(c.repr - old(c.repr)) && old(c.repr) <= c.repr
    ensures c.content[..|old(c.content)|] == old(c.content)
    decreases y, 0
  {
    for i := 0 to |n.content|
      invariant Is(n, y) && n.repr == old(n.repr) && n.content == old(n.content)
      invariant n.repr !! c.repr
      invariant Is(c, yc.(content := yc.content + y.content[..i]))
      invariant fresh(c.repr - old(c.repr)) && old(c.repr) <= c.repr
      invariant |c.content| >= |old(c.content)| && c.content[..|old(c.content)|] == old(c.content)
    {
      ghost var now := yc.(content := yc.content + y.content[..i]);
      assert now.content + [y.content[i]] == yc.content + y.content[..i + 1];
      if n.content[i] == null {
        AppendNil(c, now);
      } else {
        var child := DeepCopy(n.content[i], y.content[i]);
        Append(c, child, now, y.content[i]);
      }
    }
    assert y.content[..|n.content|] == y.content;
  }

  method AppendNil(n: YamlNode, ghost y: Y)
    requires Is(n, y)
    modifies n
    ensures Is(n, y.(content := y.content + [Nil])) && n.repr == old(n.repr)
    ensures n.content == old(n.content) + [null]
  {
    n.content := n.content + [null];
  }
}
