/**
 RESP2 as this proxy prints and reads it (Redis serialization protocol specification,
 sections "Bulk strings" and "Arrays"), on byte strings.
 */
module RespSpec {
  import opened Prelude
  import opened Bytes

  const STAR: Byte := 42
  const DOLLAR: Byte := 36
  const COLON: Byte := 58
  const CRLF: Bytes := [CR, LF]

  /** `Panic` is an allocation the runtime refuses: the source's reader does not return. */
  datatype ReadError = EOF | UnexpectedEOF | ProtocolError | Panic

  /** The largest allocation Go's runtime grants on a 64-bit platform, in bytes; a string header takes 16. */
  const MAX_ALLOC := 0x1_0000_0000_0000
  const STRING_HEADER := 16

  /** A value read and what is left of the stream, or the error that ended the reading. */
  datatype Read<+T> = Got(value: T, rest: Bytes) | Bad(error: ReadError)

  // ----- printing ---------------------------------------------------------------------

  /** writeRedisBulkString; nil prints as the null bulk string. */
  function PrintBulk(payload: Option<Bytes>): Bytes {
    if payload.None? then [DOLLAR, MINUS, 49] + CRLF
    else [DOLLAR] + Itoa(|payload.value|) + CRLF + payload.value + CRLF
  }

  function PrintBulks(items: seq<Option<Bytes>>): Bytes {
    if items == [] then [] else PrintBulks(items[..|items| - 1]) + PrintBulk(items[|items| - 1])
  }

  /** writeRedisArrayOfBulkStrings */
  function PrintArray(items: seq<Option<Bytes>>): Bytes {
    [STAR] + Itoa(|items|) + CRLF + PrintBulks(items)
  }

  // ----- reading ------------------------------------------------------------------------

  /** Position of the first line feed, or the length. */
  function LineEnd(s: Bytes): (n: nat)
    ensures n <= |s|
    ensures forall i :: 0 <= i < n ==> s[i] != LF
    ensures n < |s| ==> s[n] == LF
  {
    if s == [] || s[0] == LF then 0 else 1 + LineEnd(s[1..])
  }

  /** readRESPLine */
  function ReadLine(s: Bytes): Read<Bytes> {
    var n := LineEnd(s);
    if n == |s| then Bad(EOF)
    else Got(if n > 0 && s[n - 1] == CR then s[..n - 1] else s[..n], s[n + 1..])
  }

  /** readRESPBulkString */
  function ReadBulk(s: Bytes): Read<Bytes> {
    var line := ReadLine(s);
    if line.Bad? then Bad(line.error)
    else
      var length := Atoi(line.value);
      if length.None? then Bad(ProtocolError)
      else if length.value < 0 then Got([], line.rest)
      else if length.value + 2 > MAX_ALLOC then Bad(Panic)
      else TakeBulk(line.rest, length.value)
  }

  /** io.ReadFull of the payload and its line ending. */
  function TakeBulk(s: Bytes, n: nat): Read<Bytes> {
    if |s| < n + 2 then Bad(if s == [] then EOF else UnexpectedEOF)
    else if s[n] != CR || s[n + 1] != LF then Bad(ProtocolError)
    else Got(s[..n], s[n + 2..])
  }

  /** readRESPString */
  function ReadString(s: Bytes): Read<Bytes> {
    if s == [] then Bad(EOF)
    else if s[0] == DOLLAR then ReadBulk(s[1..])
    else if s[0] == PLUS || s[0] == COLON then ReadLine(s[1..])
    else Bad(ProtocolError)
  }

  /** The element loop of readRESPArray: `count` more strings after those in `args`. */
  function ReadStrings(count: nat, args: seq<Bytes>, s: Bytes): Read<seq<Bytes>>
    decreases count
  {
    if count == 0 then Got(args, s)
    else
      match ReadString(s)
      case Bad(e) => Bad(e)
      case Got(v, rest) => ReadStrings(count - 1, args + [v], rest)
  }

  /** readRESPArray */
  function ReadArray(s: Bytes): Read<seq<Bytes>> {
    if s == [] then Bad(EOF)
    else if s[0] != STAR then Bad(ProtocolError)
    else
      var line := ReadLine(s[1..]);
      if line.Bad? then Bad(line.error)
      else
        var count := Atoi(line.value);
        if count.None? || count.value < 0 then Bad(ProtocolError)
        else if count.value * STRING_HEADER > MAX_ALLOC then Bad(Panic)
        else ReadStrings(count.value, [], line.rest)
  }

  // ----- what is printed is read back ---------------------------------------------------------

  /** Lists a reader can allocate: no program holds a larger one. */
  predicate Addressable(items: seq<Option<Bytes>>) {
    && |items| * STRING_HEADER <= MAX_ALLOC
    && forall i :: 0 <= i < |items| && items[i].Some? ==> |items[i].value| + 2 <= MAX_ALLOC
  }

  /** What a reader makes of each printed item: null and empty bulk strings both read as "". */
  function Readings(items: seq<Option<Bytes>>): seq<Bytes> {
    seq(|items|, i requires 0 <= i < |items| => if items[i].Some? then items[i].value else [])
  }

  lemma {:induction false} LineEndAt(text: Bytes, rest: Bytes)
    requires forall i :: 0 <= i < |text| ==> text[i] != LF
    ensures LineEnd(text + [LF] + rest) == |text|
  {
    var s := text + [LF] + rest;
    if text != [] {
      assert s[1..] == text[1..] + [LF] + rest;
      LineEndAt(text[1..], rest);
    }
  }

  lemma LineAt(text: Bytes, rest: Bytes)
    requires forall i :: 0 <= i < |text| ==> text[i] != LF
    requires text != [] && text[|text| - 1] == CR
    ensures ReadLine(text + [LF] + rest) == Got(text[..|text| - 1], rest)
  {
    var s := text + [LF] + rest;
    LineEndAt(text, rest);
    assert s[|text| + 1..] == rest;
    assert s[..|text| - 1] == text[..|text| - 1];
  }

  lemma ReadNumberLine(n: nat, rest: Bytes)
    requires n <= MAX_INT
    ensures ReadLine(Itoa(n) + CRLF + rest) == Got(Itoa(n), rest)
    ensures Atoi(Itoa(n)) == Some(n)
  {
    AtoiItoa(n);
    var text := Itoa(n) + [CR];
    assert Itoa(n) + CRLF + rest == text + [LF] + rest;
    LineAt(text, rest);
    assert text[..|text| - 1] == Itoa(n);
  }

  lemma ReadNullLine(rest: Bytes)
    ensures ReadLine([MINUS, 49] + CRLF + rest) == Got([MINUS, 49], rest)
    ensures Atoi([MINUS, 49]) == Some(-1)
  {
    var text: Bytes := [MINUS, 49, CR];
    assert [MINUS, 49] + CRLF + rest == text + [LF] + rest;
    LineAt(text, rest);
    assert text[..2] == [MINUS, 49];
    var one: Bytes := [49];
    assert [MINUS, 49][1..] == one;
    assert Value(one) == 10 * Value(one[..0]) + 1;
  }

  lemma ReadPrintedBulk(payload: Option<Bytes>, rest: Bytes)
    requires payload.Some? ==> |payload.value| + 2 <= MAX_ALLOC
    ensures ReadString(PrintBulk(payload) + rest) == Got(if payload.Some? then payload.value else [], rest)
  {
    if payload.None? {
      assert (PrintBulk(payload) + rest)[1..] == [MINUS, 49] + CRLF + rest;
      ReadNullLine(rest);
    } else {
      var p := payload.value;
      assert (PrintBulk(payload) + rest)[1..] == Itoa(|p|) + CRLF + (p + CRLF + rest);
      ReadNumberLine(|p|, p + CRLF + rest);
      TakePrinted(p, rest);
    }
  }

  lemma TakePrinted(p: Bytes, rest: Bytes)
    ensures TakeBulk(p + CRLF + rest, |p|) == Got(p, rest)
  {
    var tail := p + CRLF + rest;
    assert tail[..|p|] == p;
    assert tail[|p| + 2..] == rest;
  }

  lemma ReadStringsStep(count: nat, args: seq<Bytes>, s: Bytes, v: Bytes, rest: Bytes)
    requires count > 0 && ReadString(s) == Got(v, rest)
    ensures ReadStrings(count, args, s) == ReadStrings(count - 1, args + [v], rest)
  {
  }

  lemma {:induction false} ReadPrintedBulks(items: seq<Option<Bytes>>, args: seq<Bytes>, rest: Bytes)
    requires forall i :: 0 <= i < |items| && items[i].Some? ==> |items[i].value| + 2 <= MAX_ALLOC
    ensures ReadStrings(|items|, args, PrintBulks(items) + rest) == Got(args + Readings(items), rest)
    decreases |items|
  {
    hide ReadString, PrintBulk, Readings;
    if items == [] {
      assert Readings(items) == [] by { NoReadings(); }
      assert args + [] == args && PrintBulks(items) + rest == rest;
    } else {
      hide PrintBulks;
      var first, tail := if items[0].Some? then items[0].value else [], PrintBulks(items[1..]) + rest;
      PrintBulksFirst(items);
      assert PrintBulks(items) + rest == PrintBulk(items[0]) + tail;
      ReadPrintedBulk(items[0], tail);
      ReadStringsStep(|items|, args, PrintBulks(items) + rest, first, tail);
      ReadPrintedBulks(items[1..], args + [first], rest);
      FirstReading(items);
      assert args + [first] + Readings(items[1..]) == args + ([first] + Readings(items[1..]));
    }
  }

  lemma NoReadings()
    ensures Readings([]) == []
  {
  }

  lemma FirstReading(items: seq<Option<Bytes>>)
    requires items != []
    ensures Readings(items) == [if items[0].Some? then items[0].value else []] + Readings(items[1..])
  {
  }

  lemma {:induction false} PrintBulksFirst(items: seq<Option<Bytes>>)
    requires items != []
    ensures PrintBulks(items) == PrintBulk(items[0]) + PrintBulks(items[1..])
  {
    var n := |items| - 1;
    if n > 0 {
      PrintBulksFirst(items[..n]);
      assert items[..n][1..] == items[1..][..n - 1];
    }
  }

  /**
   Reading any printed array, whatever follows it on the stream, returns one string per item
   and leaves exactly what follows.
   */
  lemma ReadPrintedArray(items: seq<Option<Bytes>>, rest: Bytes)
    requires Addressable(items)
    ensures ReadArray(PrintArray(items) + rest) == Got(Readings(items), rest)
  {
    hide ReadArray, ReadLine, ReadStrings, PrintBulks, Atoi, Itoa;
    var tail := PrintBulks(items) + rest;
    assert (PrintArray(items) + rest)[1..] == Itoa(|items|) + CRLF + tail;
    ReadNumberLine(|items|, tail);
    ReadPrintedBulks(items, [], rest);
    ReadArrayStep(PrintArray(items) + rest, Itoa(|items|), |items|, tail);
    assert [] + Readings(items) == Readings(items);
  }

  lemma ReadArrayStep(s: Bytes, line: Bytes, count: nat, tail: Bytes)
    requires s != [] && s[0] == STAR && ReadLine(s[1..]) == Got(line, tail) && Atoi(line) == Some(count)
    requires count * STRING_HEADER <= MAX_ALLOC
    ensures ReadArray(s) == ReadStrings(count, [], tail)
  {
  }

  /** The argument list of a command, which never holds a nil. */
  function Full(args: seq<Bytes>): (r: seq<Option<Bytes>>)
    ensures |r| == |args|
  {
    seq(|args|, i requires 0 <= i < |args| => Some(args[i]))
  }

  /** encodeRESPArray */
  function PrintCommand(args: seq<Bytes>): Bytes {
    PrintArray(Full(args))
  }

  lemma CommandRoundTrip(args: seq<Bytes>, rest: Bytes)
    requires Addressable(Full(args))
    ensures ReadArray(PrintCommand(args) + rest) == Got(args, rest)
  {
    ReadPrintedArray(Full(args), rest);
    assert Readings(Full(args)) == args;
  }

  /** A payload list survives printing and reading if and only if no nil reads as something it was not. */
  lemma ArrayRoundTripExactly(items: seq<Option<Bytes>>, rest: Bytes)
    requires Addressable(items)
    ensures (exists args :: Full(args) == items && ReadArray(PrintArray(items) + rest) == Got(args, rest))
      <==> None !in items
  {
    ReadPrintedArray(items, rest);
    if None !in items {
      assert Full(Readings(items)) == items;
    }
  }

  // ----- pipelines -----------------------------------------------------------------------------

  function PrintPipeline(commands: seq<seq<Bytes>>): Bytes {
    if commands == [] then [] else PrintCommand(commands[0]) + PrintPipeline(commands[1..])
  }

  /** The connection loop: arrays are read until the stream ends, which is an EOF on an array prefix. */
  function ReadPipeline(s: Bytes): (seq<seq<Bytes>>, ReadError)
    decreases |s|
  {
    match ReadArray(s)
    case Bad(e) => ([], e)
    case Got(v, rest) =>
      ReadArrayConsumes(s);
      var tail := ReadPipeline(rest);
      ([v] + tail.0, tail.1)
  }

  /** Any number of commands written back to back are read as that list of commands, ending in a clean EOF. */
  lemma {:induction false} PipelineRoundTrip(commands: seq<seq<Bytes>>)
    requires forall i :: 0 <= i < |commands| ==> Addressable(Full(commands[i]))
    ensures ReadPipeline(PrintPipeline(commands)) == (commands, ReadError.EOF)
  {
    hide ReadArray, PrintCommand;
    if commands == [] {
      assert PrintPipeline(commands) == [];
      ReadEndOfStream();
    } else {
      CommandRoundTrip(commands[0], PrintPipeline(commands[1..]));
      PipelineRoundTrip(commands[1..]);
      ReadPipelineStep(PrintPipeline(commands), commands[0], PrintPipeline(commands[1..]));
      assert [commands[0]] + commands[1..] == commands;
    }
  }

  lemma ReadEndOfStream()
    ensures ReadPipeline([]) == ([], ReadError.EOF)
  {
  }

  lemma ReadPipelineStep(s: Bytes, command: seq<Bytes>, rest: Bytes)
    requires ReadArray(s) == Got(command, rest)
    ensures |rest| < |s|
    ensures ReadPipeline(s) == ([command] + ReadPipeline(rest).0, ReadPipeline(rest).1)
  {
    ReadArrayConsumes(s);
  }

  // ----- reading depends only on what it consumes ----------------------------------------------------

  /** `rest` is a proper suffix of s. */
  ghost predicate Consumed(s: Bytes, rest: Bytes) {
    |rest| < |s| && s[|s| - |rest|..] == rest
  }

  lemma ReadLineConsumes(s: Bytes)
    ensures ReadLine(s).Got? ==> Consumed(s, ReadLine(s).rest)
  {
  }

  lemma ReadStringConsumes(s: Bytes)
    ensures ReadString(s).Got? ==> Consumed(s, ReadString(s).rest)
  {
    if s != [] { ReadLineConsumes(s[1..]); }
  }

  lemma {:induction false} ReadStringsConsumes(count: nat, args: seq<Bytes>, s: Bytes)
    ensures var r := ReadStrings(count, args, s);
      r.Got? ==> |r.rest| <= |s| && s[|s| - |r.rest|..] == r.rest
    decreases count
  {
    if count > 0 && ReadString(s).Got? {
      ReadStringConsumes(s);
      ReadStringsConsumes(count - 1, args + [ReadString(s).value], ReadString(s).rest);
    }
  }

  lemma ReadArrayConsumes(s: Bytes)
    ensures ReadArray(s).Got? ==> Consumed(s, ReadArray(s).rest)
  {
    if ReadArray(s).Got? {
      var line := ReadLine(s[1..]);
      ReadLineConsumes(s[1..]);
      ReadStringsConsumes(Atoi(line.value).value, [], line.rest);
    }
  }

  lemma {:induction false} LineEndStable(s: Bytes, more: Bytes)
    requires LineEnd(s) < |s|
    ensures LineEnd(s + more) == LineEnd(s)
  {
    if s[0] != LF {
      assert (s + more)[1..] == s[1..] + more;
      LineEndStable(s[1..], more);
    }
  }

  lemma ReadLineStable(s: Bytes, more: Bytes)
    requires ReadLine(s).Got?
    ensures ReadLine(s + more) == Got(ReadLine(s).value, ReadLine(s).rest + more)
  {
    LineEndStable(s, more);
    var n := LineEnd(s);
    assert (s + more)[n + 1..] == s[n + 1..] + more;
    assert (s + more)[..n] == s[..n];
    if n > 0 { assert (s + more)[..n - 1] == s[..n - 1]; }
  }

  lemma TakeBulkStable(s: Bytes, n: nat, more: Bytes)
    requires TakeBulk(s, n).Got?
    ensures TakeBulk(s + more, n) == Got(TakeBulk(s, n).value, TakeBulk(s, n).rest + more)
  {
    assert (s + more)[..n] == s[..n];
    assert (s + more)[n + 2..] == s[n + 2..] + more;
  }

  lemma ReadStringStable(s: Bytes, more: Bytes)
    requires ReadString(s).Got?
    ensures ReadString(s + more) == Got(ReadString(s).value, ReadString(s).rest + more)
  {
    assert (s + more)[1..] == s[1..] + more;
    ReadLineStable(s[1..], more);
    if s[0] == DOLLAR {
      var line := ReadLine(s[1..]);
      var length := Atoi(line.value);
      if length.value >= 0 { TakeBulkStable(line.rest, length.value, more); }
    }
  }

  lemma {:induction false} ReadStringsStable(count: nat, args: seq<Bytes>, s: Bytes, more: Bytes)
    requires ReadStrings(count, args, s).Got?
    ensures ReadStrings(count, args, s + more)
      == Got(ReadStrings(count, args, s).value, ReadStrings(count, args, s).rest + more)
    decreases count
  {
    if count > 0 {
      ReadStringStable(s, more);
      ReadStringsStable(count - 1, args + [ReadString(s).value], ReadString(s).rest, more);
    }
  }

  /** A command already readable is read the same however much more of the stream has arrived. */
  lemma ReadArrayStable(s: Bytes, more: Bytes)
    requires ReadArray(s).Got?
    ensures ReadArray(s + more) == Got(ReadArray(s).value, ReadArray(s).rest + more)
  {
    assert (s + more)[1..] == s[1..] + more;
    ReadLineStable(s[1..], more);
    var line := ReadLine(s[1..]);
    ReadStringsStable(Atoi(line.value).value, [], line.rest, more);
  }

  // ----- when the reader returns at all ---------------------------------------------------------------

  /** The stream announces a bulk string too long to allocate. */
  predicate Oversized(s: Bytes) {
    && s != [] && s[0] == DOLLAR && ReadLine(s[1..]).Got?
    && Atoi(ReadLine(s[1..]).value).Some? && Atoi(ReadLine(s[1..]).value).value + 2 > MAX_ALLOC
  }

  /** After j strings the reader comes to such a bulk string. */
  predicate OversizedAfter(j: nat, args: seq<Bytes>, s: Bytes) {
    ReadStrings(j, args, s).Got? && Oversized(ReadStrings(j, args, s).rest)
  }

  lemma TakeBulkReturns(s: Bytes, n: nat)
    ensures TakeBulk(s, n) != Bad(Panic)
  {
  }

  lemma ReadStringPanicsExactly(s: Bytes)
    ensures ReadString(s) == Bad(Panic) <==> Oversized(s)
  {
    hide Atoi;
  }

  lemma {:induction false} ReadStringsPanicExactly(count: nat, args: seq<Bytes>, s: Bytes)
    ensures ReadStrings(count, args, s) == Bad(Panic) <==> exists j: nat :: j < count && OversizedAfter(j, args, s)
    decreases count
  {
    hide ReadString, Oversized;
    if count > 0 {
      ReadStringPanicsExactly(s);
      assert OversizedAfter(0, args, s) <==> Oversized(s);
      match ReadString(s) {
        case Bad(_) =>
          forall j: nat | 0 < j < count
            ensures !OversizedAfter(j, args, s)
          {
          }
        case Got(v, rest) =>
          ReadStringsPanicExactly(count - 1, args + [v], rest);
          ReadStringIsNotOversized(s);
          forall j: nat | j + 1 < count
            ensures OversizedAfter(j + 1, args, s) <==> OversizedAfter(j, args + [v], rest)
          {
            ReadStringsStep(j + 1, args, s, v, rest);
          }
          if exists j: nat :: j < count && OversizedAfter(j, args, s) {
            var j: nat :| j < count && OversizedAfter(j, args, s);
            assert j > 0 && OversizedAfter(j - 1, args + [v], rest);
          }
          if exists j: nat :: j < count - 1 && OversizedAfter(j, args + [v], rest) {
            var j: nat :| j < count - 1 && OversizedAfter(j, args + [v], rest);
            assert OversizedAfter(j + 1, args, s);
          }
      }
    }
  }

  lemma ReadStringIsNotOversized(s: Bytes)
    requires ReadString(s).Got?
    ensures !Oversized(s)
  {
    ReadStringPanicsExactly(s);
  }

  /** The number of strings the stream announces, if it announces an array. */
  function AnnouncedCount(s: Bytes): Option<int> {
    if s != [] && s[0] == STAR && ReadLine(s[1..]).Got? then Atoi(ReadLine(s[1..]).value) else None
  }

  /**
   The source's reader returns on exactly the streams that neither announce more strings
   than can be allocated, nor, where it comes to read one, a string longer than that.
   */
  lemma ReadArrayReturnsExactly(s: Bytes)
    ensures ReadArray(s) == Bad(Panic) <==>
      && AnnouncedCount(s) != None && AnnouncedCount(s).value >= 0
      && var count, tail := AnnouncedCount(s).value, ReadLine(s[1..]).rest;
         count * STRING_HEADER > MAX_ALLOC || exists j: nat :: j < count && OversizedAfter(j, [], tail)
  {
    hide ReadStrings, OversizedAfter, Atoi;
    if AnnouncedCount(s) != None && AnnouncedCount(s).value >= 0 {
      ReadStringsPanicExactly(AnnouncedCount(s).value, [], ReadLine(s[1..]).rest);
    }
  }

  // ----- the wire, in characters ----------------------------------------------------------------------------

  /** ASCII text as bytes. */
  function Octets(s: string): (b: Bytes)
    requires forall i :: 0 <= i < |s| ==> s[i] as int < 128
    ensures |b| == |s|
  {
    seq(|s|, i requires 0 <= i < |s| => s[i] as int)
  }

  /** What goes over the wire for a payload, for nil, and for a list of payloads. */
  lemma OnTheWire(p: Bytes, items: seq<Option<Bytes>>)
    ensures PrintBulk(Some(p)) == Octets("$") + Itoa(|p|) + Octets("\r\n") + p + Octets("\r\n")
    ensures PrintBulk(None) == Octets("$-1\r\n")
    ensures PrintArray(items) == Octets("*") + Itoa(|items|) + Octets("\r\n") + PrintBulks(items)
    ensures Itoa(0) == Octets("0") && Itoa(10) == Octets("10")
  {
    assert Octets("$") == [36] && Octets("*") == [42] && Octets("\r\n") == [13, 10];
    assert Octets("$-1\r\n") == [36, 45, 49, 13, 10];
    assert Itoa(10) == Itoa(1) + [48] && Itoa(1) == [49] && Octets("10") == [49, 48] && Octets("0") == [48];
  }

  /** A simple string or an integer in place of a bulk string is read as the rest of its line. */
  lemma SimpleIsRead(mark: char, text: Bytes, rest: Bytes)
    requires mark == '+' || mark == ':'
    requires (forall i :: 0 <= i < |text| ==> text[i] != 10) && (text == [] || text[|text| - 1] != 13)
    ensures ReadString([mark as int] + text + Octets("\r\n") + rest) == Got(text, rest)
    ensures ReadString([mark as int] + text + Octets("\n") + rest) == Got(text, rest)
  {
    hide ReadLine;
    assert Octets("\r\n") == [13, 10] && Octets("\n") == [10];
    var s, t := [mark as int] + text + [13, 10] + rest, [mark as int] + text + [10] + rest;
    assert s[1..] == (text + [13]) + [10] + rest && t[1..] == text + [10] + rest;
    assert (text + [13])[..|text|] == text;
    LineAt(text + [13], rest);
    BareLineAt(text, rest);
  }

  /** A line may end without the carriage return. */
  lemma BareLineAt(text: Bytes, rest: Bytes)
    requires (forall i :: 0 <= i < |text| ==> text[i] != 10) && (text == [] || text[|text| - 1] != 13)
    ensures ReadLine(text + [10] + rest) == Got(text, rest)
  {
    var s := text + [10] + rest;
    LineEndAt(text, rest);
    assert s[..|text|] == text && s[|text| + 1..] == rest;
  }
}
