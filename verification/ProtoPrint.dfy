/** Printing the wire format (Protocol Buffers Encoding), and what reading makes of the print. */
module ProtoPrint {
  import opened Prelude
  import opened Bytes
  import opened ProtoWire

  /** What a varint may still hold from its i-th byte on: 64 bits in all. */
  function Room(i: nat): nat
    requires i <= 9
    decreases 9 - i
  {
    if i == 9 then 2 else 128 * Room(i + 1)
  }

  function PrintVarint(n: nat): (b: Bytes)
    ensures b != []
    ensures n < 128 ==> b == [n]
  {
    if n < 128 then [n] else [n % 128 + 128] + PrintVarint(n / 128)
  }

  lemma {:induction false} VarintReadBack(n: nat, i: nat, rest: Bytes)
    requires i <= 9 && n < Room(i)
    ensures VarintFrom(PrintVarint(n) + rest, i) == Some(Taken(n, |PrintVarint(n)|))
  {
    var b := PrintVarint(n) + rest;
    if n >= 128 {
      VarintReadBack(n / 128, i + 1, rest);
      assert b[1..] == PrintVarint(n / 128) + rest;
    }
  }

  lemma RoomIs64Bits()
    ensures Room(0) == 0x1_0000_0000_0000_0000
  {
    assert Room(9) == 2 && Room(8) == 256 && Room(7) == 0x8000 && Room(6) == 0x40_0000 && Room(5) == 0x2000_0000;
    assert Room(4) == 0x10_0000_0000 && Room(3) == 0x800_0000_0000 && Room(2) == 0x4_0000_0000_0000;
  }

  /** One field of a message as its sender sees it. */
  datatype Part = Number(num: nat, value: nat) | Content(num: nat, bytes: Bytes)

  /** Field numbers and sizes the format allows. */
  predicate Legal(p: Part) {
    && 1 <= p.num <= MAX_FIELD
    && (if p.Number? then p.value else |p.bytes|) < 0x1_0000_0000_0000_0000
  }

  predicate AllLegal(parts: seq<Part>) {
    forall i :: 0 <= i < |parts| ==> Legal(parts[i])
  }

  /** The value after the tag. */
  function RawOf(p: Part): Bytes {
    match p
    case Number(_, value) => PrintVarint(value)
    case Content(_, bytes) => PrintVarint(|bytes|) + bytes
  }

  function TagOf(p: Part): Tag {
    Tag(p.num, if p.Number? then VARINT else BYTES)
  }

  function PrintPart(p: Part): Bytes {
    PrintVarint(8 * p.num + TagOf(p).typ) + RawOf(p)
  }

  function Print(parts: seq<Part>): Bytes {
    if parts == [] then [] else PrintPart(parts[0]) + Print(parts[1..])
  }

  function FieldsOf(parts: seq<Part>): (r: seq<Field>)
    ensures |r| == |parts|
  {
    seq(|parts|, i requires 0 <= i < |parts| => Field(TagOf(parts[i]), RawOf(parts[i])))
  }

  lemma TagReadBack(p: Part, rest: Bytes)
    requires Legal(p)
    ensures var t := PrintVarint(8 * p.num + TagOf(p).typ);
      ConsumeTag(t + rest) == Some(Taken(TagOf(p), |t|))
  {
    hide PrintVarint;
    RoomIs64Bits();
    VarintReadBack(8 * p.num + TagOf(p).typ, 0, rest);
  }

  lemma RawReadBack(p: Part, rest: Bytes)
    requires Legal(p)
    ensures ValueSize(TagOf(p), RawOf(p) + rest, RECURSION_LIMIT) == Some(|RawOf(p)|)
    ensures p.Number? ==> ConsumeVarint(RawOf(p)) == Some(Taken(p.value, |RawOf(p)|))
    ensures p.Content? ==> ConsumeBytes(RawOf(p)) == Some(Taken(p.bytes, |RawOf(p)|))
  {
    hide PrintVarint, VarintFrom;
    RoomIs64Bits();
    match p
    case Number(_, value) =>
      VarintReadBack(value, 0, rest);
      VarintReadBack(value, 0, []);
      assert PrintVarint(value) + [] == PrintVarint(value);
    case Content(_, bytes) =>
      VarintReadBack(|bytes|, 0, bytes + rest);
      VarintReadBack(|bytes|, 0, bytes);
      var l := PrintVarint(|bytes|);
      assert RawOf(p) + rest == l + (bytes + rest) && (l + bytes)[|l|..|l| + |bytes|] == bytes;
  }

  /** A printed message reads back field by field. */
  lemma {:induction false} FieldsReadBack(parts: seq<Part>)
    requires AllLegal(parts)
    ensures Fields(Print(parts)) == Some(FieldsOf(parts))
  {
    hide PrintVarint, RawOf, ConsumeTag, ValueSize;
    if parts != [] {
      var p, rest := parts[0], Print(parts[1..]);
      FieldsReadBack(parts[1..]);
      var t := PrintVarint(8 * p.num + TagOf(p).typ);
      var b := Print(parts);
      assert b == t + (RawOf(p) + rest);
      TagReadBack(p, RawOf(p) + rest);
      RawReadBack(p, rest);
      assert b[|t|..] == RawOf(p) + rest && b[|t| + |RawOf(p)|..] == rest;
      assert b[|t|..|t| + |RawOf(p)|] == RawOf(p);
      assert FieldsOf(parts) == [Field(TagOf(p), RawOf(p))] + FieldsOf(parts[1..]);
    }
  }
}
