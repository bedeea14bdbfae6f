/**
 * The client's field codec (sp/client/ups_net/serde.go): fixed-width
 * decimal integers of two ("small") and four ("big") digits, strings
 * prefixed by a big int length, and "var ints" prefixed by a small int
 * digit count. Every reader looks only at the front of its slice and
 * ignores what follows, so the round trips hold for any trailing bytes.
 */
module ClientSerde {
  import opened Wrappers
  import opened DecimalText

  /** The first `width` bytes as a decimal number, if they are all digits. */
  function ReadFixed(slice: string, width: nat): (r: Option<nat>)
    ensures r.Some? <==> |slice| >= width && AllDigits(slice[..width])
    ensures r.Some? ==> r.value < Pow10(width)
  {
    if |slice| < width || !AllDigits(slice[..width]) then None
    else
      DigitsValueBound(slice[..width]);
      Some(DigitsValue(slice[..width]))
  }

  /** `ReadSmallInt`: two leading digits, nothing else is looked at. */
  function ReadSmallInt(slice: string): (r: Option<nat>)
    ensures r.Some? <==> |slice| >= 2 && IsDigit(slice[0]) && IsDigit(slice[1])
    ensures r.Some? ==> r.value == 10 * DigitValue(slice[0]) + DigitValue(slice[1])
    ensures r.Some? ==> r.value <= 99
  {
    var r := ReadFixed(slice, 2);
    if r.Some? then
      DigitsValue2(slice[..2]);
      r
    else r
  }

  /** `ReadBigInt`: four leading digits. */
  function ReadBigInt(slice: string): (r: Option<nat>)
    ensures r.Some? <==> |slice| >= 4 && IsDigit(slice[0]) && IsDigit(slice[1]) && IsDigit(slice[2]) && IsDigit(slice[3])
    ensures r.Some? ==> r.value == 1000 * DigitValue(slice[0]) + 100 * DigitValue(slice[1]) + 10 * DigitValue(slice[2]) + DigitValue(slice[3])
    ensures r.Some? ==> r.value <= 9999
  {
    var r := ReadFixed(slice, 4);
    if r.Some? then
      DigitsValue4(slice[..4]);
      r
    else r
  }

  /** `ReadString`: a big int length followed by that many bytes. */
  function ReadString(slice: string): (r: Option<string>)
    ensures r.Some? <==> ReadBigInt(slice).Some? && |slice| >= 4 + ReadBigInt(slice).value
    ensures r.Some? ==> |r.value| == ReadBigInt(slice).value && slice[4..4 + |r.value|] == r.value
  {
    var len :- ReadBigInt(slice);
    if |slice| < 4 + len then None
    else Some(slice[4..4 + len])
  }

  /**
   * `ReadVarInt`: a small int digit count `k` followed by `k` bytes that
   * `strconv.ParseInt` must accept as a 64-bit integer.
   */
  function ReadVarInt(slice: string): (r: Option<Int64>)
    ensures r.Some? ==> ReadSmallInt(slice).Some? && |slice| >= 3 + ReadSmallInt(slice).value - 1
    ensures r.Some? ==> ReadSmallInt(slice).value >= 1
    ensures r.Some? <==>
      && ReadSmallInt(slice).Some?
      && |slice| >= 2 + ReadSmallInt(slice).value
      && ParseInt64(slice[2..2 + ReadSmallInt(slice).value]).Some?
    ensures r.Some? ==> r == ParseInt64(slice[2..2 + ReadSmallInt(slice).value])
  {
    var len :- ReadSmallInt(slice);
    if |slice| < 2 + len then None
    else ParseInt64(slice[2..2 + len])
  }

  /** `WriteSmallInt`: `%02d` of a value in 0..99. */
  function WriteSmallInt(num: int): (r: Option<string>)
    ensures r.Some? <==> 0 <= num <= 99
    ensures r.Some? ==> |r.value| == 2 && AllDigits(r.value) && DigitsValue(r.value) == num
  {
    if num > 99 || num < 0 then None
    else Some(ZeroPad(num, 2))
  }

  /** `WriteBigInt`: `%04d` of a value in 0..9999. */
  function WriteBigInt(num: int): (r: Option<string>)
    ensures r.Some? <==> 0 <= num <= 9999
    ensures r.Some? ==> |r.value| == 4 && AllDigits(r.value) && DigitsValue(r.value) == num
  {
    if num > 9999 || num < 0 then None
    else
      assert Pow10(4) == 10000;
      NumDigitsAtMost(num, 4);
      Some(ZeroPad(num, 4))
  }

  /**
   * The digit count `WriteVarInt` computes, with `floor(log10(|n|)) + 1`
   * done on integers and one more for `n < 1` (which, `n == 0` aside,
   * means the minus sign).
   */
  function VarIntDigitCount(num: int): (k: nat)
    ensures k == DecimalLength(num)
  {
    if num == 0 then 1
    else
      var absNum := if num < 0 then -num else num;
      var count := NumDigits(absNum);
      if num < 1 then count + 1 else count
  }

  /** `WriteVarInt`: the digit count as a small int, then `%d` of the value. */
  function WriteVarInt(num: Int64): (r: Option<string>)
    ensures r.Some? <==> VarIntDigitCount(num) <= 99
    ensures r.Some? ==> |r.value| == 2 + DecimalLength(num) && r.value[2..] == GoItoa(num)
  {
    var digitCountStr :- WriteSmallInt(VarIntDigitCount(num));
    Some(digitCountStr + GoItoa(num))
  }

  /** `WriteString`: the length as a big int, then the bytes. */
  function WriteString(str: string): (r: Option<string>)
    ensures r.Some? <==> |str| <= 9999
    ensures r.Some? ==> |r.value| == 4 + |str| && r.value[4..] == str
  {
    var lenStr :- WriteBigInt(|str|);
    Some(lenStr + str)
  }

  /** A 64-bit value never needs more than 20 characters, so `WriteVarInt` never fails. */
  lemma {:induction false} WriteVarIntTotal(num: Int64)
    ensures WriteVarInt(num).Some?
    ensures |WriteVarInt(num).value| == 2 + DecimalLength(num)
  {
    Int64DecimalLength(num);
  }

  lemma SmallIntRoundTrip(n: int, rest: string)
    requires 0 <= n <= 99
    ensures ReadSmallInt(WriteSmallInt(n).value + rest) == Some(n)
  {
    var w := WriteSmallInt(n).value;
    assert (w + rest)[..2] == w;
  }

  lemma BigIntRoundTrip(n: int, rest: string)
    requires 0 <= n <= 9999
    ensures ReadBigInt(WriteBigInt(n).value + rest) == Some(n)
  {
    var w := WriteBigInt(n).value;
    assert (w + rest)[..4] == w;
  }

  /** `ReadString(WriteString(s) + rest) == s` for every string that `WriteString` accepts. */
  lemma StringRoundTrip(s: string, rest: string)
    requires |s| <= 9999
    ensures ReadString(WriteString(s).value + rest) == Some(s)
  {
    var w := WriteString(s).value;
    BigIntRoundTrip(|s|, s + rest);
    assert w + rest == WriteBigInt(|s|).value + (s + rest);
    assert (w + rest)[4..4 + |s|] == s;
  }

  /** The var int prefix is the length of the decimal rendering that follows it. */
  lemma VarIntPrefixIsLength(n: Int64, rest: string)
    ensures WriteVarInt(n).Some?
    ensures ReadSmallInt(WriteVarInt(n).value + rest) == Some(|GoItoa(n)|)
  {
    WriteVarIntTotal(n);
    var w := WriteVarInt(n).value;
    SmallIntRoundTrip(VarIntDigitCount(n), GoItoa(n) + rest);
    assert w + rest == WriteSmallInt(VarIntDigitCount(n)).value + (GoItoa(n) + rest);
  }

  /** `ReadVarInt(WriteVarInt(n) + rest) == n` for every 64-bit value. */
  lemma VarIntRoundTrip(n: Int64, rest: string)
    ensures WriteVarInt(n).Some?
    ensures ReadVarInt(WriteVarInt(n).value + rest) == Some(n)
  {
    WriteVarIntTotal(n);
    VarIntPrefixIsLength(n, rest);
    var w := WriteVarInt(n).value;
    var k := |GoItoa(n)|;
    assert (w + rest)[2..2 + k] == GoItoa(n);
    ParseItoaRoundTrip(n);
  }
}
