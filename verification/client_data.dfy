/**
 * The client's game data (the records of sp/client/src/Data.go, with the
 * fields sp/client/src/StateMachine.go uses but Data.go does not declare:
 * the table's own nickname, round bet and current bet). Go's zero values
 * are spelled out; a table whose player map was never made is marked by
 * `hasMap == false`.
 */
module ClientData {
  import ClientHelpers

  /** `Room`: one entry of the room list. */
  datatype RoomInfo = RoomInfo(id: int, name: string, currentPlayers: int, maxPlayers: int)

  /** `Card`: an id and the name shown for it. */
  datatype Card = Card(id: int, symbol: string)

  /** `PlayerData`, without the `TotalBet` no handler touches. */
  datatype PlayerData = PlayerData(
    chips: int,
    roundBet: int,
    cards: seq<Card>,
    myTurn: bool,
    folded: bool,
    ready: bool,
    actionTaken: string,
    actionAmount: int)

  /** Go's zero `PlayerData`, which a lookup of a missing nickname yields. */
  const ZERO_PLAYER: PlayerData := PlayerData(0, 0, [], false, false, false, "", 0)

  /** `PokerTable` as the state machine uses it. */
  datatype Table = Table(
    players: map<string, PlayerData>,
    hasMap: bool,
    community: seq<Card>,
    pot: int,
    roundBet: int,
    currentBet: int,
    phase: string,
    myNickname: string)

  /** Go's zero `PokerTable`: no player map at all. */
  const ZERO_TABLE: Table := Table(map[], false, [], 0, 0, 0, "", "")

  /** `data, _ := players[name]`: the entry, or the zero value when there is none. */
  function Lookup(players: map<string, PlayerData>, name: string): (d: PlayerData)
    ensures name in players ==> d == players[name]
    ensures name !in players ==> d == ZERO_PLAYER
  {
    if name in players then players[name] else ZERO_PLAYER
  }

  /** `Card{ID: id, Symbol: TranslateCardID(id)}`. */
  function CardOf(id: int): (c: Card)
    ensures c.id == id && c.symbol == ClientHelpers.TranslateCardID(id)
  {
    Card(id, ClientHelpers.TranslateCardID(id))
  }
}
