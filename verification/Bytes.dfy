/** Byte strings, and the decimal numbers written in them. */
module Bytes {
  import opened Prelude

  type Byte = x: int | 0 <= x < 256
  type Bytes = seq<Byte>

  const CR: Byte := 13
  const LF: Byte := 10
  const PLUS: Byte := 43
  const MINUS: Byte := 45

  const MAX_INT := 0x7FFF_FFFF_FFFF_FFFF

  predicate IsDigit(b: Byte) {
    48 <= b <= 57
  }

  predicate AllDigits(s: Bytes) {
    s != [] && forall i :: 0 <= i < |s| ==> IsDigit(s[i])
  }

  function Value(s: Bytes): nat
    requires forall i :: 0 <= i < |s| ==> IsDigit(s[i])
  {
    if s == [] then 0
    else
      assert IsDigit(s[|s| - 1]);
      10 * Value(s[..|s| - 1]) + ((s[|s| - 1] as int) - 48)
  }

  /** strconv.Itoa for the non-negative numbers printed here. */
  function Itoa(n: nat): (s: Bytes)
    ensures AllDigits(s) && Value(s) == n
  {
    if n < 10 then [48 + n]
    else
      var init := Itoa(n / 10);
      var s := init + [48 + n % 10];
      assert s[..|s| - 1] == init;
      s
  }

  /** strconv.Atoi on a 64-bit platform: an optional sign, digits, and a range check. */
  function Atoi(s: Bytes): (r: Option<int>)
    ensures r.Some? ==> -MAX_INT - 1 <= r.value <= MAX_INT
  {
    if s != [] && (s[0] == PLUS || s[0] == MINUS) then
      if !AllDigits(s[1..]) then None
      else if s[0] == PLUS then (if Value(s[1..]) <= MAX_INT then Some(Value(s[1..])) else None)
      else if Value(s[1..]) <= MAX_INT + 1 then Some(-(Value(s[1..]) as int)) else None
    else if AllDigits(s) && Value(s) <= MAX_INT then Some(Value(s))
    else None
  }

  lemma AtoiItoa(n: nat)
    requires n <= MAX_INT
    ensures Atoi(Itoa(n)) == Some(n)
  {
    assert IsDigit(Itoa(n)[0]);
  }
}
