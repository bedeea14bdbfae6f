/**
 * The server's payload field codec `Net::Serde::write_sm_int`,
 * `write_bg_int`, `write_net_str` and `read_bg_int`. They are defined
 * outside RoomThread.hpp, RoomThread.cpp and MainThread.hpp, which call
 * them (all under sp/server/src/); these definitions follow their call
 * sites and are the server-side twins of the client's codec in
 * sp/client/ups_net/serde.go: two- and four-digit zero-padded decimals and
 * a four-digit length before a string. Each writer is related to its
 * client counterpart, which the client decodes with.
 */
module ServerWire {
  import opened Wrappers
  import opened DecimalText
  import ClientSerde

  /** `write_sm_int`: `{:02}`. */
  function WriteSmInt(n: nat): (s: string)
    ensures AllDigits(s) && DigitsValue(s) == n
    ensures n <= 99 ==> Some(s) == ClientSerde.WriteSmallInt(n)
  {
    ZeroPad(n, 2)
  }

  /** `write_bg_int`: `{:04}`. */
  function WriteBgInt(n: nat): (s: string)
    ensures AllDigits(s) && DigitsValue(s) == n
    ensures n <= 9999 ==> Some(s) == ClientSerde.WriteBigInt(n)
  {
    ZeroPad(n, 4)
  }

  /** `write_net_str`: the length as a big int, then the bytes. */
  function WriteNetStr(str: string): (s: string)
    ensures |str| <= 9999 ==> Some(s) == ClientSerde.WriteString(str)
    ensures |s| >= |str| && s[|s| - |str|..] == str
  {
    WriteBgInt(|str|) + str
  }

  /** `read_bg_int`: four leading digits; the second half of the returned pair is never used and is not modelled. */
  function ReadBgInt(s: string): (r: Option<nat>)
    ensures r.Some? <==> |s| >= 4 && AllDigits(s[..4])
    ensures r.Some? ==> r.value == DigitsValue(s[..4])
  {
    if |s| >= 4 && AllDigits(s[..4]) then Some(DigitsValue(s[..4])) else None
  }

  /** The server reads back what it writes, whatever follows. */
  lemma BgIntRoundTrip(n: nat, rest: string)
    requires n <= 9999
    ensures ReadBgInt(WriteBgInt(n) + rest) == Some(n)
  {
    assert Pow10(4) == 10000;
    NumDigitsAtMost(n, 4);
    assert (WriteBgInt(n) + rest)[..4] == WriteBgInt(n);
  }

  /** The server's `read_bg_int` accepts exactly what the client's `ReadBigInt` accepts, with the same value. */
  lemma ReadBgIntAgrees(s: string)
    ensures ReadBgInt(s) == ClientSerde.ReadBigInt(s)
  {
    if |s| >= 4 && AllDigits(s[..4]) {
      DigitsValue4(s[..4]);
    }
  }

  /** `{:02}` of a card stored in a `u8`: two decimal digits for every card, three for the empty-deck marker. */
  function CardText(c: int): (s: string)
    ensures AllDigits(s) && DigitsValue(s) == c % 256
  {
    ZeroPad(c % 256, 2)
  }
}
