/**
 The protobuf wire format as protowire consumes it (Protocol Buffers Encoding, sections
 "Base 128 Varints" and "Message Structure").
 */
module ProtoWire {
  import opened Prelude
  import opened Bytes

  const VARINT := 0
  const FIXED64 := 1
  const BYTES := 2
  const START_GROUP := 3
  const END_GROUP := 4
  const FIXED32 := 5

  const MAX_FIELD := 0x7FFF_FFFF
  const RECURSION_LIMIT := 10000

  /** A value and the number of bytes it took. */
  datatype Taken<+T> = Taken(value: T, size: nat)

  /** ConsumeVarint from its i-th byte on: at most ten bytes, 64 bits. */
  function VarintFrom(b: Bytes, i: nat): (r: Option<Taken<nat>>)
    ensures r.Some? ==> 0 < r.value.size <= |b|
    decreases 10 - i
  {
    if b == [] || i > 9 then None
    else if b[0] < 128 then (if i == 9 && b[0] >= 2 then None else Some(Taken(b[0], 1)))
    else if i == 9 then None
    else
      match VarintFrom(b[1..], i + 1)
      case None => None
      case Some(t) => Some(Taken(b[0] - 128 + 128 * t.value, t.size + 1))
  }

  function ConsumeVarint(b: Bytes): (r: Option<Taken<nat>>)
    ensures r.Some? ==> 0 < r.value.size <= |b|
  {
    VarintFrom(b, 0)
  }

  /** ConsumeBytes: a length and that many bytes. */
  function ConsumeBytes(b: Bytes): (r: Option<Taken<Bytes>>)
    ensures r.Some? ==> 0 < r.value.size <= |b|
  {
    match ConsumeVarint(b)
    case None => None
    case Some(len) =>
      if len.value > |b| - len.size then None
      else Some(Taken(b[len.size..len.size + len.value], len.size + len.value))
  }

  datatype Tag = Tag(num: nat, typ: nat)

  /** ConsumeTag: a field number between 1 and 2^31 - 1 and a wire type. */
  function ConsumeTag(b: Bytes): (r: Option<Taken<Tag>>)
    ensures r.Some? ==> 0 < r.value.size <= |b| && 1 <= r.value.value.num <= MAX_FIELD
  {
    match ConsumeVarint(b)
    case None => None
    case Some(v) =>
      if v.value / 8 > MAX_FIELD || v.value / 8 < 1 then None
      else Some(Taken(Tag(v.value / 8, v.value % 8), v.size))
  }

  /** The size of a field's value, given its tag. Groups nest to a limited depth. */
  function ValueSize(tag: Tag, b: Bytes, depth: int): (r: Option<nat>)
    ensures r.Some? ==> r.value <= |b|
    decreases |b|, 1
  {
    if tag.typ == VARINT then (match ConsumeVarint(b) case None => None case Some(v) => Some(v.size))
    else if tag.typ == FIXED32 then (if |b| < 4 then None else Some(4))
    else if tag.typ == FIXED64 then (if |b| < 8 then None else Some(8))
    else if tag.typ == BYTES then (match ConsumeBytes(b) case None => None case Some(v) => Some(v.size))
    else if tag.typ == START_GROUP then (if depth < 0 then None else GroupSize(tag.num, b, depth))
    else None
  }

  /** Fields up to and including the matching end-group tag. */
  function GroupSize(num: nat, b: Bytes, depth: int): (r: Option<nat>)
    ensures r.Some? ==> r.value <= |b|
    decreases |b|, 0
  {
    match ConsumeTag(b)
    case None => None
    case Some(t) =>
      if t.value.typ == END_GROUP then (if t.value.num == num then Some(t.size) else None)
      else
        match ValueSize(t.value, b[t.size..], depth - 1)
        case None => None
        case Some(n) =>
          match GroupSize(num, b[t.size + n..], depth)
          case None => None
          case Some(rest) => Some(t.size + n + rest)
  }

  datatype Field = Field(tag: Tag, raw: Bytes)

  /** All fields of a message in order, or nothing if any part is malformed. */
  function Fields(msg: Bytes): (r: Option<seq<Field>>)
    ensures r.Some? && msg != [] ==> r.value != []
    decreases |msg|
  {
    if msg == [] then Some([])
    else
      match ConsumeTag(msg)
      case None => None
      case Some(t) =>
        match ValueSize(t.value, msg[t.size..], RECURSION_LIMIT)
        case None => None
        case Some(n) =>
          match Fields(msg[t.size + n..])
          case None => None
          case Some(rest) => Some([Field(t.value, msg[t.size..t.size + n])] + rest)
  }

  /** A one-byte tag. */
  lemma SmallTag(b: Bytes)
    requires b != [] && 8 <= b[0] < 128
    ensures ConsumeTag(b) == Some(Taken(Tag(b[0] / 8, b[0] % 8), 1))
  {
  }

  lemma ZeroTagIsIllegal(b: Bytes)
    requires b != [] && b[0] < 8
    ensures ConsumeTag(b) == None
  {
  }
}
