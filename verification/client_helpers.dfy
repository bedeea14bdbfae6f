/**
 * The client's small helpers (sp/client/src/Helpers.go and the card
 * naming of sp/client/src/StateMachine.go): action numbers to action
 * codes, the digit count of a var int's value, and card ids to names.
 */
module ClientHelpers {
  import opened DecimalText
  import ClientSerde

  /** The action codes, indexed by the number the server sends for them. */
  const ACTION_CODES: seq<string> := ["NONE", "CHCK", "CALL", "FOLD", "BETT", "LEFT"]

  /** `actionIntToString`: the action code numbered `action`, `UNKNOWN` for any other number. */
  function ActionIntToString(action: int): (s: string)
    ensures 0 <= action < |ACTION_CODES| ==> s == ACTION_CODES[action]
    ensures !(0 <= action < |ACTION_CODES|) ==> s == "UNKNOWN"
  {
    match action
    case 0 => "NONE"
    case 1 => "CHCK"
    case 2 => "CALL"
    case 3 => "FOLD"
    case 4 => "BETT"
    case 5 => "LEFT"
    case _ => "UNKNOWN"
  }

  /** The number an action code stands for; `-1` for a code that is none of them. */
  function ActionNumber(code: string): (n: int)
    ensures n == -1 <==> code !in ACTION_CODES
    ensures n != -1 ==> 0 <= n < |ACTION_CODES| && ACTION_CODES[n] == code
  {
    if code == "NONE" then 0
    else if code == "CHCK" then 1
    else if code == "CALL" then 2
    else if code == "FOLD" then 3
    else if code == "BETT" then 4
    else if code == "LEFT" then 5
    else -1
  }

  /** Action numbers and codes are inverse: no two numbers share a code, and `UNKNOWN` is no action's code. */
  lemma ActionNamesInvert(action: int)
    ensures 0 <= action < |ACTION_CODES| ==> ActionNumber(ActionIntToString(action)) == action
    ensures !(0 <= action < |ACTION_CODES|) ==> ActionNumber(ActionIntToString(action)) == -1
  {
  }

  /**
   * `countDigits`: `floor(log10(|n|)) + 1` on integers, one for zero, and
   * one more for a negative number; that is the length of `%d` of `n`.
   */
  function CountDigits(n: int): (k: nat)
    ensures k == |GoItoa(n)| && k >= 1
    ensures n < 0 ==> k == |GoItoa(-n)| + 1
  {
    if n == 0 then 1
    else
      var absNum := if n < 0 then -n else n;
      NumDigitsBounds(absNum);
      var digitCount := NumDigits(absNum);
      if n < 1 then digitCount + 1 else digitCount
  }

  /** `countDigits` agrees with the prefix `WriteVarInt` writes: the offset `2 + countDigits(v)` is the length of `WriteVarInt(v)`. */
  lemma CountDigitsIsVarIntPrefix(n: Int64)
    ensures ClientSerde.WriteVarInt(n).Some?
    ensures |ClientSerde.WriteVarInt(n).value| == 2 + CountDigits(n)
    ensures CountDigits(n) == ClientSerde.VarIntDigitCount(n)
  {
    ClientSerde.WriteVarIntTotal(n);
  }

  /** The names of the thirteen ranks, deuce first. */
  const RANKS: seq<string> := ["2", "3", "4", "5", "6", "7", "8", "9", "10", "Jack", "Queen", "King", "Ace"]
  /** The names of the four suits, in card-id order. */
  const SUITS: seq<string> := ["Hearts", "Diamonds", "Clubs", "Spades"]
  /** What an id outside the deck is shown as. */
  const UNKNOWN_CARD: string := "??"

  /** `TranslateCardID`: `"??"` outside `0..51`, otherwise rank `id % 13` of suit `id / 13`. */
  function TranslateCardID(id: int): (s: string)
    ensures !(0 <= id <= 51) ==> s == UNKNOWN_CARD
    ensures 0 <= id <= 51 ==> s == RANKS[id % 13] + " of " + SUITS[id / 13]
  {
    if id < 0 || id > 51 then UNKNOWN_CARD
    else RANKS[id % 13] + " of " + SUITS[id / 13]
  }

  /** The rank whose name starts with `c`; the first letters tell the ranks apart. */
  function MarkRank(c: char): int {
    if c == '2' then 0 else if c == '3' then 1 else if c == '4' then 2 else if c == '5' then 3
    else if c == '6' then 4 else if c == '7' then 5 else if c == '8' then 6 else if c == '9' then 7
    else if c == '1' then 8 else if c == 'J' then 9 else if c == 'Q' then 10 else if c == 'K' then 11
    else if c == 'A' then 12 else -1
  }

  /** The suit whose name has `c` second to last; those letters tell the suits apart. */
  function MarkSuit(c: char): int {
    if c == 't' then 0 else if c == 'd' then 1 else if c == 'b' then 2 else if c == 'e' then 3 else -1
  }

  lemma RankMark(k: nat)
    requires k < 13
    ensures |RANKS[k]| >= 1 && MarkRank(RANKS[k][0]) == k
  {
  }

  lemma SuitMark(k: nat)
    requires k < 4
    ensures |SUITS[k]| >= 2 && MarkSuit(SUITS[k][|SUITS[k]| - 2]) == k
  {
  }

  /**
   * Every card of the deck has a name of its own, and none of them is
   * `"??"`: the first letter gives the rank, the second-to-last the suit.
   */
  lemma CardNamesDistinct(a: int, b: int)
    requires 0 <= a <= 51 && 0 <= b <= 51
    ensures TranslateCardID(a) != UNKNOWN_CARD
    ensures a != b ==> TranslateCardID(a) != TranslateCardID(b)
  {
    var sa, sb := TranslateCardID(a), TranslateCardID(b);
    RankMark(a % 13);
    RankMark(b % 13);
    SuitMark(a / 13);
    SuitMark(b / 13);
    assert MarkRank(sa[0]) == a % 13 && MarkSuit(sa[|sa| - 2]) == a / 13;
    assert MarkRank(sb[0]) == b % 13 && MarkSuit(sb[|sb| - 2]) == b / 13;
    assert a == 13 * (a / 13) + a % 13 && b == 13 * (b / 13) + b % 13;
  }
}
