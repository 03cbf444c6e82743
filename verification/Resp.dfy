/** The RESP reader and writer as they run: a reader that is consumed, a writer that is appended to. */
module Resp {
  import opened Prelude
  import opened Bytes
  import opened RespSpec

  class Writer {
    var out: Bytes

    constructor ()
      ensures out == []
    {
      out := [];
    }

    method Write(text: Bytes)
      modifies this
      ensures out == old(out) + text
    {
      out := out + text;
    }
  }

  /** writeRedisBulkString; a nil writer is a closed connection. */
  method WriteBulkString(writer: Writer?, payload: Option<Bytes>) returns (closed: bool)
    modifies writer
    ensures closed <==> writer == null
    ensures !closed ==> writer.out == old(writer.out) + PrintBulk(payload)
  {
    if writer == null { return true; }
    if payload.None? {
      writer.Write([DOLLAR, MINUS, 49] + CRLF);
      return false;
    }
    writer.Write([DOLLAR] + Itoa(|payload.value|) + CRLF);
    writer.Write(payload.value);
    writer.Write(CRLF);
    closed := false;
  }

  /** writeRedisArrayOfBulkStrings */
  method WriteArrayOfBulkStrings(writer: Writer?, items: seq<Option<Bytes>>) returns (closed: bool)
    modifies writer
    ensures closed <==> writer == null
    ensures !closed ==> writer.out == old(writer.out) + PrintArray(items)
  {
    hide PrintBulk;
    if writer == null { return true; }
    writer.Write([STAR] + Itoa(|items|) + CRLF);
    ghost var start := writer.out;
    closed := false;
    for i := 0 to |items|
      invariant !closed && writer.out == start + PrintBulks(items[..i])
    {
      PrintBulksNext(items, i);
      closed := WriteBulkString(writer, items[i]);
    }
    assert items[..|items|] == items;
  }

  lemma PrintBulksNext(items: seq<Option<Bytes>>, i: nat)
    requires i < |items|
    ensures PrintBulks(items[..i + 1]) == PrintBulks(items[..i]) + PrintBulk(items[i])
  {
    assert items[..i + 1][..i] == items[..i];
  }

  /** encodeRESPArray */
  method EncodeArray(args: seq<Bytes>) returns (text: Bytes)
    ensures text == PrintCommand(args)
  {
    hide PrintBulk;
    text := [STAR] + Itoa(|args|) + CRLF;
    ghost var head, items := text, Full(args);
    for i := 0 to |args|
      invariant text == head + PrintBulks(items[..i])
    {
      PrintBulksNext(items, i);
      text := AppendBulk(text, args[i]);
    }
    assert items[..|args|] == items;
  }

  method AppendBulk(text: Bytes, arg: Bytes) returns (longer: Bytes)
    ensures longer == text + PrintBulk(Some(arg))
  {
    longer := text + [DOLLAR];
    longer := longer + Itoa(|arg|) + CRLF;
    longer := longer + arg + CRLF;
    assert longer == text + ([DOLLAR] + Itoa(|arg|) + CRLF + arg + CRLF);
  }

  class Reader {
    var rest: Bytes

    constructor (input: Bytes)
      ensures rest == input
    {
      rest := input;
    }

    /** readRESPLine */
    method Line() returns (r: Result<Bytes, ReadError>)
      modifies this
      ensures Tells(ReadLine(old(rest)), r, rest)
    {
      var n := LineEnd(rest);
      if n == |rest| {
        rest := [];
        return Err(ReadError.EOF);
      }
      var line := rest[..n];
      rest := rest[n + 1..];
      if line != [] && line[|line| - 1] == CR {
        line := line[..n - 1];
        assert line == old(rest)[..n - 1];
      }
      return Ok(line);
    }

    /** readRESPBulkString */
    method BulkString() returns (r: Result<Bytes, ReadError>)
      modifies this
      ensures Tells(ReadBulk(old(rest)), r, rest)
    {
      var line := Line();
      if line.Err? { return line; }
      var length := Atoi(line.value);
      if length.None? { return Err(ProtocolError); }
      if length.value < 0 { return Ok([]); }
      if length.value + 2 > MAX_ALLOC { return Err(Panic); }
      var n := length.value;
      if |rest| < n + 2 {
        r := Err(if rest == [] then ReadError.EOF else UnexpectedEOF);
        rest := [];
        return;
      }
      ghost var payload := rest[..n];
      var buf := rest[..n + 2];
      rest := rest[n + 2..];
      if buf[n] != CR || buf[n + 1] != LF { return Err(ProtocolError); }
      assert buf[..n] == payload;
      return Ok(buf[..n]);
    }

    /** readRESPString */
    method String() returns (r: Result<Bytes, ReadError>)
      modifies this
      ensures Tells(ReadString(old(rest)), r, rest)
    {
      if rest == [] { return Err(ReadError.EOF); }
      var prefix := rest[0];
      rest := rest[1..];
      if prefix == DOLLAR {
        r := BulkString();
      } else if prefix == PLUS || prefix == COLON {
        r := Line();
      } else {
        r := Err(ProtocolError);
      }
    }

    /** readRESPArray */
    method Array() returns (r: Result<seq<Bytes>, ReadError>)
      modifies this
      ensures Tells(ReadArray(old(rest)), r, rest)
    {
      if rest == [] { return Err(ReadError.EOF); }
      var prefix := rest[0];
      rest := rest[1..];
      if prefix != STAR { return Err(ProtocolError); }
      var line := Line();
      if line.Err? { return Err(line.error); }
      var count := Atoi(line.value);
      if count.None? || count.value < 0 { return Err(ProtocolError); }
      if count.value * STRING_HEADER > MAX_ALLOC { return Err(Panic); }
      r := Strings(count.value);
    }

    /** The element loop of readRESPArray. */
    method Strings(count: nat) returns (r: Result<seq<Bytes>, ReadError>)
      modifies this
      ensures Tells(ReadStrings(count, [], old(rest)), r, rest)
    {
      var args := [];
      for i := 0 to count
        invariant ReadStrings(count, [], old(rest)) == ReadStrings(count - i, args, rest)
      {
        ghost var s := rest;
        var value := String();
        if value.Err? {
          return Err(value.error);
        }
        ReadStringsStep(count - i, args, s, value.value, rest);
        args := args + [value.value];
      }
      r := Ok(args);
    }
  }

  /** A method outcome reports a specified read; what is left after an error is not relied on. */
  ghost predicate Tells<T>(read: Read<T>, r: Result<T, ReadError>, rest: Bytes) {
    match read
    case Got(v, left) => r == Ok(v) && rest == left
    case Bad(e) => r == Err(e)
  }
}
