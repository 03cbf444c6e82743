/** The reply to a certificate request: one bulk string or an error line. */
module RespReply {
  import opened Prelude
  import opened Bytes
  import opened RespSpec

  datatype Refusal = Truncated | NotANumber | NilReply | Panicked | ServerError(text: Bytes) | Unsupported(prefix: Byte)

  datatype Reply = Payload(value: Bytes, rest: Bytes) | Refused(why: Refusal)

  predicate IsBlank(b: Byte) {
    9 <= b <= 13 || b == 32
  }

  function TrimFront(s: Bytes): Bytes {
    if s != [] && IsBlank(s[0]) then TrimFront(s[1..]) else s
  }

  function TrimBack(s: Bytes): Bytes {
    if s != [] && IsBlank(s[|s| - 1]) then TrimBack(s[..|s| - 1]) else s
  }

  /** strings.TrimSpace on a line of ASCII text. */
  function Trim(s: Bytes): Bytes {
    TrimBack(TrimFront(s))
  }

  /** readRESPBulk */
  function ReadReply(s: Bytes): Reply {
    if s == [] then Refused(Truncated)
    else if s[0] != DOLLAR && s[0] != MINUS then Refused(Unsupported(s[0]))
    else
      var n := LineEnd(s[1..]);
      if n == |s| - 1 then Refused(Truncated)
      else
        var line, rest := Trim(s[1..][..n]), s[1..][n + 1..];
        if s[0] == MINUS then Refused(ServerError(line))
        else
          match Atoi(line)
          case None => Refused(NotANumber)
          case Some(size) =>
            if size < 0 then Refused(NilReply)
            else if size + 2 > MAX_ALLOC then Refused(Panicked)
            else if |rest| < size + 2 then Refused(Truncated)
            else Payload(rest[..size], rest[size + 2..])
  }

  method ReadBulkReply(s: Bytes) returns (r: Reply)
    ensures r == ReadReply(s)
  {
    var rest := s;
    if rest == [] { return Refused(Truncated); }
    var prefix := rest[0];
    rest := rest[1..];
    if prefix != DOLLAR && prefix != MINUS { return Refused(Unsupported(prefix)); }
    var n := LineEnd(rest);
    if n == |rest| { return Refused(Truncated); }
    var line := Trim(rest[..n]);
    rest := rest[n + 1..];
    if prefix == MINUS { return Refused(ServerError(line)); }
    var size := Atoi(line);
    if size == None { return Refused(NotANumber); }
    if size.value < 0 { return Refused(NilReply); }
    if size.value + 2 > MAX_ALLOC { return Refused(Panicked); }
    if |rest| < size.value + 2 { return Refused(Truncated); }
    r := Payload(rest[..size.value], rest[size.value + 2..]);
  }

  // ----- against what is printed, and against the other reader ------------------------------------

  lemma {:induction false} TrimNumber(digits: Bytes, line: Bytes)
    requires digits != [] && !IsBlank(digits[0]) && !IsBlank(digits[|digits| - 1])
    requires line == digits || line == digits + [CR]
    ensures Trim(line) == digits
  {
    assert line[0] == digits[0] && TrimFront(line) == line && TrimBack(digits) == digits;
    if line != digits { assert line[..|line| - 1] == digits; }
  }

  /** A number's text starts and ends with something other than white space. */
  lemma NumberHasNoBlanks(s: Bytes)
    requires Atoi(s) != None
    ensures s != [] && !IsBlank(s[0]) && !IsBlank(s[|s| - 1])
  {
    var d := if s != [] && (s[0] == PLUS || s[0] == MINUS) then s[1..] else s;
    assert AllDigits(d) && d != [];
    assert IsDigit(d[|d| - 1]) && IsDigit(d[0]);
  }

  /** A printed payload is read back, whatever follows it. */
  lemma ReplyRoundTrip(p: Bytes, rest: Bytes)
    requires |p| + 2 <= MAX_ALLOC
    ensures ReadReply(PrintBulk(Some(p)) + rest) == Payload(p, rest)
  {
    hide ReadReply, ReadString, ReadLine, Atoi, Itoa;
    var s := PrintBulk(Some(p)) + rest;
    assert s[0] == DOLLAR;
    assert s[1..] == Itoa(|p|) + CRLF + (p + CRLF + rest);
    ReadNumberLine(|p|, p + CRLF + rest);
    ReadPrintedBulk(Some(p), rest);
    AgreesWhereStrict(s);
  }

  /** A printed nil is refused as nil, where the server's own reader takes it for an empty string. */
  lemma NilIsRefused(rest: Bytes)
    ensures ReadReply(PrintBulk(None) + rest) == Refused(NilReply)
    ensures ReadString(PrintBulk(None) + rest) == Got([], rest)
  {
    hide ReadString, Atoi, Trim;
    var s := PrintBulk(None) + rest;
    assert s[1..] == [MINUS, 49] + CRLF + rest;
    ReadNullLine(rest);
    LenientLine(s);
    ReadPrintedBulk(None, rest);
  }

  /** Both readers see the same number in a length line the strict one accepts. */
  lemma LenientLine(s: Bytes)
    requires s != [] && ReadLine(s[1..]).Got? && Atoi(ReadLine(s[1..]).value) != None
    ensures var n := LineEnd(s[1..]);
      Trim(s[1..][..n]) == ReadLine(s[1..]).value && s[1..][n + 1..] == ReadLine(s[1..]).rest
  {
    var t := s[1..];
    var n := LineEnd(t);
    var v := ReadLine(t).value;
    NumberHasNoBlanks(v);
    if n > 0 && t[n - 1] == CR { assert t[..n] == v + [CR]; }
    TrimNumber(v, t[..n]);
  }

  /** The number on the length line as the server's own reader takes it, and as this one does. */
  function StrictLength(s: Bytes): Option<int>
    requires s != []
  {
    if ReadLine(s[1..]).Got? then Atoi(ReadLine(s[1..]).value) else None
  }

  function LenientLength(s: Bytes): Option<int>
    requires s != []
  {
    if ReadLine(s[1..]).Got? then Atoi(Trim(s[1..][..LineEnd(s[1..])])) else None
  }

  /**
   Whatever the server's own reader accepts, this one refuses if it is no bulk string or nil, and reads the
   same otherwise.
   */
  lemma AgreesWhereStrict(s: Bytes)
    requires ReadString(s).Got?
    ensures ReadReply(s) ==
      if s[0] != DOLLAR then Refused(Unsupported(s[0]))
      else if StrictLength(s).value < 0 then Refused(NilReply)
      else Payload(ReadString(s).value, ReadString(s).rest)
  {
    hide Atoi, Trim;
    if s[0] == DOLLAR { LenientLine(s); }
  }

  lemma LineOf(t: Bytes)
    ensures LineEnd(t) <= |t| && (ReadLine(t).Got? <==> LineEnd(t) < |t|)
    ensures ReadLine(t).Got? ==> ReadLine(t).rest == t[LineEnd(t) + 1..]
  {
    hide LineEnd;
  }

  /**
   It goes further exactly on a bulk string long enough for its length, when the length
   is a number only after trimming, or the two bytes after the payload are no line ending.
   */
  lemma GoesFurtherExactly(s: Bytes)
    ensures ReadReply(s).Payload? && ReadString(s).Bad? <==>
      && s != [] && s[0] == DOLLAR && LenientLength(s) != None && LenientLength(s).value >= 0
      && var n, rest := LenientLength(s).value, ReadLine(s[1..]).rest;
         n + 2 <= MAX_ALLOC && |rest| >= n + 2 && (StrictLength(s) == None || rest[n..n + 2] != CRLF)
  {
    hide Atoi, Trim, ReadLine, LineEnd;
    if s != [] { LineOf(s[1..]); }
    if s != [] && s[0] == DOLLAR && LenientLength(s) != None && LenientLength(s).value >= 0 {
      if StrictLength(s) != None { LenientLine(s); }
      var n, rest := LenientLength(s).value, ReadLine(s[1..]).rest;
      if |rest| >= n + 2 { assert rest[n..n + 2] == [rest[n], rest[n + 1]]; }
    }
  }

  /** An error line is reported with its text, trimmed. */
  lemma ServerErrorIsReported(text: Bytes, rest: Bytes)
    requires forall i :: 0 <= i < |text| ==> text[i] != 10
    ensures ReadReply([45] + text + [13, 10] + rest) == Refused(ServerError(Trim(text + [13])))
  {
    hide Trim;
    var s := [45] + text + [13, 10] + rest;
    assert s[1..] == (text + [13]) + [10] + rest;
    LineEndAt(text + [13], rest);
    assert s[1..][..|text| + 1] == text + [13];
  }
}
