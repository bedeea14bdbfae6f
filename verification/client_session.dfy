/**
 * The client's session automaton: the `State*` types of
 * sp/client/src/StateMachine.go, each handler a pure function from the
 * state data and one event to the new state data, what the handler did
 * outside its state (messages sent, disconnects, redraw requests) and the
 * state to move to, and the `gameThread` loop of sp/client/src/Gamethread.go
 * that runs `Exit`/swap/`Enter` on every transition. Popups and logging
 * are dropped; a Go panic is the outcome `Panic`.
 */
module ClientSession {
  import opened Wrappers
  import opened DecimalText
  import opened ClientSerde
  import opened ClientHelpers
  import opened ClientData
  import ClientRoomCodec
  import FrameWriter

  type NetMsg = FrameWriter.NetMsg

  /** `UIScreen`. */
  datatype Screen = ScreenMainMenu | ScreenConnecting | ScreenReconnecting | ScreenWaitingForRooms | ScreenRoomSelect | ScreenInGame

  /** `PlayerConfig`: the nickname and the chips the player brings. */
  datatype PlayerConfig = PlayerConfig(nickName: string, startingChips: Int64)

  /** The parts of `GameState` the automaton reads and writes. */
  datatype GameState = GameState(
    screen: Screen,
    rooms: map<int, RoomInfo>,
    isConnecting: bool,
    reconnected: bool,
    cfg: PlayerConfig,
    table: Table)

  /** One value per `State*` type. */
  datatype LogicState = MainMenu | Connecting | Reconnecting | SendingInfo | RequestingRooms | Lobby | JoiningRoom | InGame

  /** The user input events; `EvtRefreshRooms` is one that no state handles. */
  datatype UserInput =
    | EvtConnect(host: string, port: string)
    | EvtCancelConnect
    | EvtAcceptReconnect
    | EvtDeclineReconnect
    | EvtRoomJoin(roomId: string)
    | EvtBackToMain
    | EvtGameAction(action: string, amount: string)
    | EvtRefreshRooms
    | EvtQuit

  /**
   * What a handler does outside the state data: a message put on
   * `NetMsgOutChan`, `NetHandler.Disconnect()`, the `startConnection`
   * goroutine, `UI.SetDirty()`, and the driver's `NetShutdown` command and
   * `DoneChan` signal.
   */
  datatype Effect = Send(msg: NetMsg) | Disconnect | StartConnection(host: string, port: string) | Redraw | NetShutdown | SignalDone

  /** A handler's outcome; `next == None` is Go's `nil` (no transition). `Panic` is a Go runtime panic. */
  datatype Handled = Handled(gs: GameState, out: seq<Effect>, next: Option<LogicState>) | Panic

  function Bare(code: string): NetMsg {
    FrameWriter.NetMsg(code, "")
  }

  // ---------------------------------------------------------------------------
  // The player map, with Go's nil map

  /** `_, exists := table.Players[name]`: a map that was never made has no entries. */
  predicate Has(t: Table, name: string) {
    t.hasMap && name in t.players
  }

  /** `data, _ := table.Players[name]`: the entry, or the zero `PlayerData`. */
  function Get(t: Table, name: string): (d: PlayerData)
    ensures Has(t, name) ==> d == t.players[name]
    ensures !Has(t, name) ==> d == ZERO_PLAYER
  {
    if Has(t, name) then t.players[name] else ZERO_PLAYER
  }

  /** `table.Players[name] = data`; Go panics on a write to a map that was never made. */
  function Put(t: Table, name: string, data: PlayerData): (r: Option<Table>)
    ensures r.Some? <==> t.hasMap
    ensures r.Some? ==> r.value == t.(players := t.players[name := data])
  {
    if t.hasMap then Some(t.(players := t.players[name := data])) else None
  }

  /** The own player's entry, as the handlers of `InGame` rely on it. */
  predicate OwnSeated(t: Table) {
    Has(t, t.myNickname)
  }

  // ---------------------------------------------------------------------------
  // Enter

  /** The fresh own entry `StateInGame.Enter` writes. */
  function FreshOwn(cfg: PlayerConfig): PlayerData {
    PlayerData(cfg.startingChips, 0, [], false, false, false, "NONE", 0)
  }

  /**
   * `StateInGame.Enter`: a table whose player map was never made becomes
   * an empty table for the configured nickname; then the own entry is
   * (re)written with the configured chips and nothing else.
   */
  function InGameEnter(gs: GameState): (r: GameState)
    ensures r == gs.(screen := ScreenInGame, table := r.table)
    ensures r.table.hasMap && OwnSeated(r.table)
    ensures r.table.players[r.table.myNickname] == FreshOwn(gs.cfg)
    ensures gs.table.hasMap ==>
      && r.table == gs.table.(players := r.table.players)
      && r.table.players.Keys == gs.table.players.Keys + {gs.table.myNickname}
      && forall n | n in gs.table.players && n != gs.table.myNickname :: r.table.players[n] == gs.table.players[n]
    ensures !gs.table.hasMap ==>
      r.table == Table(map[gs.cfg.nickName := FreshOwn(gs.cfg)], true, [], 0, 0, 0, "", gs.cfg.nickName)
  {
    var t := if gs.table.hasMap then gs.table else Table(map[], true, [], 0, 0, 0, "", gs.cfg.nickName);
    gs.(screen := ScreenInGame, table := t.(players := t.players[t.myNickname := FreshOwn(gs.cfg)]))
  }

  /**
   * `Enter` of each state: the screen it shows, the `PINF` with the
   * starting chips as a var int on entering `SendingInfo`, an emptied
   * room list on entering `RequestingRooms`, and the redraws `Lobby` and
   * `InGame` ask for.
   */
  function Enter(s: LogicState, gs: GameState): (r: (GameState, seq<Effect>))
    ensures s == SendingInfo ==>
      && WriteVarInt(gs.cfg.startingChips).Some?
      && r.0 == gs && r.1 == [Send(FrameWriter.NetMsg("PINF", WriteVarInt(gs.cfg.startingChips).value))]
    ensures s == JoiningRoom ==> r == (gs, [])
    ensures s == RequestingRooms ==> r.0 == gs.(screen := ScreenWaitingForRooms, rooms := map[]) && r.1 == []
    ensures s == InGame ==> r.0 == InGameEnter(gs) && r.1 == [Redraw]
    ensures s != InGame ==> r.0.table == gs.table
  {
    match s
    case MainMenu => (gs.(screen := ScreenMainMenu), [])
    case Connecting => (gs.(screen := ScreenConnecting), [])
    case Reconnecting => (gs.(screen := ScreenReconnecting), [])
    case SendingInfo =>
      WriteVarIntTotal(gs.cfg.startingChips);
      (gs, [Send(FrameWriter.NetMsg("PINF", WriteVarInt(gs.cfg.startingChips).value))])
    case RequestingRooms => (gs.(screen := ScreenWaitingForRooms, rooms := map[]), [])
    case Lobby => (gs.(screen := ScreenRoomSelect), [Redraw])
    case JoiningRoom => (gs, [])
    case InGame => (InGameEnter(gs), [Redraw])
  }

  /** The screen a state's `Enter` shows; `SendingInfo` and `JoiningRoom` leave the previous one. */
  function ScreenOf(s: LogicState): Option<Screen> {
    match s
    case MainMenu => Some(ScreenMainMenu)
    case Connecting => Some(ScreenConnecting)
    case Reconnecting => Some(ScreenReconnecting)
    case RequestingRooms => Some(ScreenWaitingForRooms)
    case Lobby => Some(ScreenRoomSelect)
    case InGame => Some(ScreenInGame)
    case _ => None
  }

  // ---------------------------------------------------------------------------
  // HandleInput

  /**
   * `validateGameAction`: `RDY1` and `GMLV` always pass; every other
   * action needs the own entry and the own turn, then `BETT` an amount
   * that `strconv.Atoi` reads as positive, within the chips and at least
   * the current bet, `CALL` a non-zero current bet within the chips, and
   * `FOLD`/`CHCK` nothing more; any other action fails.
   */
  function ValidateGameAction(t: Table, action: string, amount: string): (ok: bool)
    ensures ok <==>
      || action == "RDY1" || action == "GMLV"
      || (OwnSeated(t) && Get(t, t.myNickname).myTurn && Allowed(action, amount, Get(t, t.myNickname).chips, t.currentBet))
  {
    if action == "RDY1" || action == "GMLV" then true
    else if !Has(t, t.myNickname) then false
    else
      var myData := t.players[t.myNickname];
      if !myData.myTurn then false
      else if action == "BETT" then
        var betAmt := ParseInt64(amount);
        if betAmt.None? || betAmt.value <= 0 then false
        else if betAmt.value > myData.chips then false
        else if betAmt.value < t.currentBet then false
        else true
      else if action == "CALL" then
        if t.currentBet == 0 then false
        else if t.currentBet > myData.chips then false
        else true
      else if action == "FOLD" || action == "CHCK" then true
      else false
  }

  /** What a turn action needs on the player's own turn: a bet within the stack and at least the current bet, a call of a non-zero bet within the stack, or a fold or check. */
  predicate Allowed(action: string, amount: string, chips: int, currentBet: int) {
    || (action == "BETT" && exists b: Int64 | ParseInt64(amount) == Some(b) :: 0 < b <= chips && b >= currentBet)
    || (action == "CALL" && currentBet != 0 && currentBet <= chips)
    || action == "FOLD" || action == "CHCK"
  }

  /**
   * An accepted `BETT` or `CALL` commits no more than the own chips: the
   * amount sent, read back as the server reads it, is positive and
   * covered; a call covers the current bet.
   */
  lemma AcceptedActionIsCovered(t: Table, action: string, amount: string)
    requires ValidateGameAction(t, action, amount) && (action == "BETT" || action == "CALL")
    ensures OwnSeated(t) && Get(t, t.myNickname).myTurn
    ensures action == "BETT" ==>
      ParseInt64(amount).Some? && 0 < ParseInt64(amount).value <= Get(t, t.myNickname).chips
    ensures action == "CALL" ==> t.currentBet != 0 && t.currentBet <= Get(t, t.myNickname).chips
  {
  }

  /**
   * `StateInGame.HandleInput`: a game action that validates is sent as
   * given (an `RDY1` first marks the own entry ready); `EvtBackToMain`
   * sends `GMLV` and goes to the lobby.
   */
  function InGameInput(gs: GameState, input: UserInput): (h: Handled)
    ensures input.EvtGameAction? && !ValidateGameAction(gs.table, input.action, input.amount) ==> h == Handled(gs, [], None)
    ensures input.EvtGameAction? && ValidateGameAction(gs.table, input.action, input.amount) && input.action != "RDY1" ==>
      h == Handled(gs, [Send(FrameWriter.NetMsg(input.action, input.amount))], None)
    ensures input.EvtGameAction? && input.action == "RDY1" ==>
      && (h.Panic? <==> !gs.table.hasMap)
      && (h.Handled? ==>
            && h.gs.table.players == gs.table.players[gs.table.myNickname := Get(gs.table, gs.table.myNickname).(ready := true)]
            && h.out == [Send(FrameWriter.NetMsg("RDY1", input.amount))] && h.next == None)
    ensures input.EvtBackToMain? ==> h == Handled(gs, [Send(Bare("GMLV"))], Some(Lobby))
    ensures h.Handled? ==> h.gs == gs.(table := h.gs.table) && h.gs.table == gs.table.(players := h.gs.table.players)
  {
    match input
    case EvtGameAction(action, amount) =>
      if !ValidateGameAction(gs.table, action, amount) then Handled(gs, [], None)
      else if action == "RDY1" then
        var me := Get(gs.table, gs.table.myNickname).(ready := true);
        match Put(gs.table, gs.table.myNickname, me)
        case None => Panic
        case Some(t) => Handled(gs.(table := t), [Send(FrameWriter.NetMsg(action, amount))], None)
      else Handled(gs, [Send(FrameWriter.NetMsg(action, amount))], None)
    case EvtBackToMain => Handled(gs, [Send(Bare("GMLV"))], Some(Lobby))
    case _ => Handled(gs, [], None)
  }

  /** `StateLobby.HandleInput`: `JOIN` with `%04d` of the id (whatever `Atoi` gives with its error dropped: 0 on a syntax error, the 64-bit bound when the digits run past it), or back to the menu. */
  function LobbyInput(gs: GameState, input: UserInput): (h: Handled)
    ensures input.EvtRoomJoin? ==>
      h == Handled(gs, [Send(FrameWriter.NetMsg("JOIN", GoPadded(GoAtoi(input.roomId), 4)))], Some(JoiningRoom))
    ensures input.EvtBackToMain? ==> h == Handled(gs, [Disconnect], Some(MainMenu))
    ensures !input.EvtRoomJoin? && !input.EvtBackToMain? ==> h == Handled(gs, [], None)
  {
    match input
    case EvtRoomJoin(roomId) => Handled(gs, [Send(FrameWriter.NetMsg("JOIN", GoPadded(GoAtoi(roomId), 4)))], Some(JoiningRoom))
    case EvtBackToMain => Handled(gs, [Disconnect], Some(MainMenu))
    case _ => Handled(gs, [], None)
  }

  /** `HandleInput` of each state. */
  function HandleInput(s: LogicState, gs: GameState, input: UserInput): (h: Handled)
    ensures s == MainMenu ==>
      h == (if input.EvtConnect? then Handled(gs.(isConnecting := true), [StartConnection(input.host, input.port)], Some(Connecting))
            else Handled(gs, [], None))
    ensures s == Connecting ==>
      h == (if input.EvtCancelConnect? then Handled(gs, [Disconnect], Some(MainMenu)) else Handled(gs, [], None))
    ensures s == Reconnecting && input.EvtAcceptReconnect? ==>
      h == Handled(gs.(reconnected := true), [Send(Bare("RCON"))], Some(JoiningRoom))
    ensures s == Reconnecting && input.EvtDeclineReconnect? ==>
      h == Handled(gs.(reconnected := false), [], Some(SendingInfo))
    ensures s in {SendingInfo, RequestingRooms, JoiningRoom} ==> h == Handled(gs, [], None)
    ensures h.Panic? ==> s == InGame
  {
    match s
    case MainMenu =>
      if input.EvtConnect? then Handled(gs.(isConnecting := true), [StartConnection(input.host, input.port)], Some(Connecting))
      else Handled(gs, [], None)
    case Connecting =>
      if input.EvtCancelConnect? then Handled(gs, [Disconnect], Some(MainMenu)) else Handled(gs, [], None)
    case Reconnecting =>
      if input.EvtAcceptReconnect? then Handled(gs.(reconnected := true), [Send(Bare("RCON"))], Some(JoiningRoom))
      else if input.EvtDeclineReconnect? then Handled(gs.(reconnected := false), [], Some(SendingInfo))
      else Handled(gs, [], None)
    case Lobby => LobbyInput(gs, input)
    case InGame => InGameInput(gs, input)
    case _ => Handled(gs, [], None)
  }

  // ---------------------------------------------------------------------------
  // HandleNetwork outside the game

  /** `StateConnecting.HandleNetwork`: `PNOK` goes on to the player info, `FAIL` disconnects, `RCON` offers a reconnect. */
  function ConnectingNetwork(gs: GameState, msg: NetMsg): (h: Handled)
    ensures h.Handled? && h.gs == gs
    ensures msg.code == "PNOK" ==> h.next == Some(SendingInfo) && h.out == []
    ensures msg.code == "FAIL" ==> h.next == Some(MainMenu) && h.out == [Disconnect]
    ensures msg.code == "RCON" ==> h.next == Some(Reconnecting) && h.out == []
    ensures msg.code !in {"PNOK", "FAIL", "RCON"} ==> h.next == None && h.out == []
  {
    if msg.code == "PNOK" then Handled(gs, [], Some(SendingInfo))
    else if msg.code == "FAIL" then Handled(gs, [Disconnect], Some(MainMenu))
    else if msg.code == "RCON" then Handled(gs, [], Some(Reconnecting))
    else Handled(gs, [], None)
  }

  /** `StateSendingInfo.HandleNetwork`: `PIOK` requests the rooms, `FAIL` disconnects. */
  function SendingInfoNetwork(gs: GameState, msg: NetMsg): (h: Handled)
    ensures h.Handled? && h.gs == gs
    ensures msg.code == "PIOK" ==> h.next == Some(RequestingRooms) && h.out == [Send(Bare("RMRQ"))]
    ensures msg.code == "FAIL" ==> h.next == Some(MainMenu) && h.out == [Disconnect]
    ensures msg.code !in {"PIOK", "FAIL"} ==> h.next == None && h.out == []
  {
    if msg.code == "PIOK" then Handled(gs, [Send(Bare("RMRQ"))], Some(RequestingRooms))
    else if msg.code == "FAIL" then Handled(gs, [Disconnect], Some(MainMenu))
    else Handled(gs, [], None)
  }

  /**
   * `StateRequestingRooms.HandleNetwork` with `handleRoomData`: every
   * `ROOM` gets exactly one reply, `RMOK` when the entry decodes (and is
   * then stored under its id) and `RMFL` otherwise, and the state stays;
   * `DONE` moves to the lobby and sends nothing.
   */
  function RequestingRoomsNetwork(gs: GameState, msg: NetMsg): (h: Handled)
    ensures h.Handled?
    ensures msg.code == "ROOM" ==>
      var room := ClientRoomCodec.DeserializeRoom(msg.payload);
      && h.next == None
      && (room.id != -1 ==> h.out == [Send(Bare("RMOK"))] && h.gs == gs.(rooms := gs.rooms[room.id := room]))
      && (room.id == -1 ==> h.out == [Send(Bare("RMFL"))] && h.gs == gs)
    ensures msg.code == "DONE" ==> h == Handled(gs, [], Some(Lobby))
    ensures msg.code != "ROOM" && msg.code != "DONE" ==> h == Handled(gs, [], None)
  {
    if msg.code == "ROOM" then
      var room := ClientRoomCodec.DeserializeRoom(msg.payload);
      if room.id == -1 then Handled(gs, [Send(Bare("RMFL"))], None)
      else Handled(gs.(rooms := gs.rooms[room.id := room]), [Send(Bare("RMOK"))], None)
    else if msg.code == "DONE" then Handled(gs, [], Some(Lobby))
    else Handled(gs, [], None)
  }

  /**
   * `StateJoiningRoom.HandleNetwork`: an `RMST` that decodes becomes the
   * table, is acknowledged with `STOK` and enters the game; one that does
   * not is refused with `STFL` and returns to the lobby; `JNFL` returns
   * to the lobby; `JNOK` and anything else keep waiting.
   */
  function JoiningRoomNetwork(gs: GameState, msg: NetMsg): (h: Handled)
    ensures h.Handled?
    ensures msg.code == "RMST" ==>
      var t := ClientRoomCodec.DeserializeRoomState(msg.payload, gs.reconnected, gs.cfg.nickName);
      && (t.Some? ==> h == Handled(gs.(table := t.value), [Send(Bare("STOK"))], Some(InGame)))
      && (t.None? ==> h == Handled(gs, [Send(Bare("STFL"))], Some(Lobby)))
    ensures msg.code == "JNFL" ==> h == Handled(gs, [], Some(Lobby))
    ensures msg.code != "RMST" && msg.code != "JNFL" ==> h == Handled(gs, [], None)
  {
    if msg.code == "JNOK" then Handled(gs, [], None)
    else if msg.code == "RMST" then
      match ClientRoomCodec.DeserializeRoomState(msg.payload, gs.reconnected, gs.cfg.nickName)
      case None => Handled(gs, [Send(Bare("STFL"))], Some(Lobby))
      case Some(t) => Handled(gs.(table := t), [Send(Bare("STOK"))], Some(InGame))
    else if msg.code == "JNFL" then Handled(gs, [], Some(Lobby))
    else Handled(gs, [], None)
  }

  // ---------------------------------------------------------------------------
  // HandleNetwork in the game

  /**
   * `handlePlayerJoined`: the nickname as a string (empty when it cannot
   * be read), then the chips as a var int after it (zero when they cannot
   * be read), stored as a fresh entry. Slicing past the end panics, which
   * happens exactly when no nickname could be read from fewer than four
   * bytes.
   */
  function PlayerJoined(t: Table, payload: string): (r: Option<Table>)
    ensures var name := ReadString(payload).GetOr("");
      && (r.Some? <==> t.hasMap && 4 + |name| <= |payload|)
      && (r.Some? ==>
            && r.value == t.(players := r.value.players)
            && r.value.players.Keys == t.players.Keys + {name}
            && r.value.players[name] == PlayerData(ReadVarInt(payload[4 + |name|..]).GetOr(0), 0, [], false, false, false, "NONE", 0)
            && forall n | n in t.players && n != name :: r.value.players[n] == t.players[n])
  {
    var playerName := ReadString(payload).GetOr("");
    if 4 + |playerName| > |payload| then None
    else
      var playerChips := ReadVarInt(payload[4 + |playerName|..]).GetOr(0);
      Put(t, playerName, PlayerData(playerChips, 0, [], false, false, false, "NONE", 0))
  }

  /** The number of `':'` in `s`; `strings.Split` on it yields one more part. */
  function Colons(s: string): nat {
    if |s| == 0 then 0 else (if s[0] == ':' then 1 else 0) + Colons(s[1..])
  }

  /** The acting player's entry after a `PACT`: the action and amount, and what the action does to the round bet and the fold flag. */
  function Acted(p: PlayerData, action: string, amount: int, currentBet: int): (q: PlayerData)
    ensures q.chips == p.chips && q.cards == p.cards && q.myTurn == p.myTurn && q.ready == p.ready
    ensures q.actionTaken == action && q.actionAmount == amount
    ensures q.roundBet == (if action == "BETT" then p.roundBet + amount else if action == "CALL" then currentBet else p.roundBet)
    ensures q.folded == (p.folded || action == "FOLD")
  {
    var player := p.(actionTaken := action, actionAmount := amount);
    if action == "BETT" then player.(roundBet := player.roundBet + amount)
    else if action == "CALL" then player.(roundBet := currentBet)
    else if action == "FOLD" then player.(folded := true)
    else player
  }

  /**
   * `handlePlayerAction`: a payload with fewer than two `':'` is ignored;
   * otherwise the nickname (a string), the action number (a small int)
   * and the amount (a var int) are read one after the other, zero values
   * standing in for what cannot be read. Slicing past the end panics.
   * An unknown nickname changes nothing; a known one gets the action,
   * and a `BETT` also makes its new round bet the table's current bet.
   */
  function PlayerAction(t: Table, payload: string): (r: Option<Table>)
    ensures var nick := ReadString(payload).GetOr("");
      r.None? <==> Colons(payload) >= 2 && |nick| + 6 > |payload|
    ensures r.Some? && (Colons(payload) < 2 || !Has(t, ReadString(payload).GetOr(""))) ==> r.value == t
    ensures r.Some? ==>
      var nick := ReadString(payload).GetOr("");
      && r.value == t.(players := r.value.players, currentBet := r.value.currentBet)
      && r.value.players.Keys == t.players.Keys
      && (forall n | n in t.players && n != nick :: r.value.players[n] == t.players[n])
      && (r.value.currentBet != t.currentBet ==> Has(t, nick) && r.value.players[nick].actionTaken == "BETT")
  {
    if Colons(payload) < 2 then Some(t)
    else
      var nickname := ReadString(payload).GetOr("");
      if |nickname| + 6 > |payload| then None
      else
        var action := ReadSmallInt(payload[|nickname| + 4..]).GetOr(0);
        var amount := ReadVarInt(payload[|nickname| + 6..]).GetOr(0);
        if !Has(t, nickname) then Some(t)
        else
          var player := Acted(t.players[nickname], ActionIntToString(action), amount, t.currentBet);
          var t1 := if player.actionTaken == "BETT" then t.(currentBet := player.roundBet) else t;
          Some(t1.(players := t1.players[nickname := player]))
  }

  /**
   * The `PACT` of a known player, in full: the entry gets the action named
   * by the number and the amount, its round bet and fold flag move as the
   * action says, and the current bet follows a bet.
   */
  lemma PlayerActionOfKnownPlayer(t: Table, payload: string)
    requires Colons(payload) >= 2
    requires var nick := ReadString(payload).GetOr(""); |nick| + 6 <= |payload| && Has(t, nick)
    ensures var nick := ReadString(payload).GetOr("");
      var action := ActionIntToString(ReadSmallInt(payload[|nick| + 4..]).GetOr(0));
      var amount := ReadVarInt(payload[|nick| + 6..]).GetOr(0);
      var q := Acted(t.players[nick], action, amount, t.currentBet);
      && PlayerAction(t, payload) == Some(t.(players := t.players[nick := q], currentBet := if action == "BETT" then q.roundBet else t.currentBet))
  {
  }

  /** The two cards of a `CDTP`, each a small int; the second only when four bytes are there. */
  function DealtCards(payload: string): (cs: seq<Card>)
    ensures |cs| <= 2
    ensures ReadSmallInt(payload).None? ==> cs == []
    ensures ReadSmallInt(payload).Some? ==> |cs| >= 1 && cs[0] == CardOf(ReadSmallInt(payload).value)
    ensures |cs| == 2 <==> ReadSmallInt(payload).Some? && |payload| >= 4 && ReadSmallInt(payload[2..]).Some?
    ensures |cs| == 2 ==> cs[1] == CardOf(ReadSmallInt(payload[2..]).value)
  {
    match ReadSmallInt(payload)
    case None => []
    case Some(v1) =>
      if |payload| >= 4 && ReadSmallInt(payload[2..]).Some? then [CardOf(v1), CardOf(ReadSmallInt(payload[2..]).value)]
      else [CardOf(v1)]
  }

  /** `PTRN`: the turn flag of every entry, set for the named player only. */
  function TurnTo(players: map<string, PlayerData>, name: string): (r: map<string, PlayerData>)
    ensures r.Keys == players.Keys
    ensures forall n | n in r :: r[n] == players[n].(myTurn := n == name)
  {
    map n | n in players :: players[n].(myTurn := n == name)
  }

  /** The per-round fields of every entry, cleared as at `GMDN`. */
  function RoundCleared(players: map<string, PlayerData>): (r: map<string, PlayerData>)
    ensures r.Keys == players.Keys
    ensures forall n | n in r :: r[n] == players[n].(roundBet := 0, actionTaken := "NONE", actionAmount := 0)
  {
    map n | n in players :: players[n].(roundBet := 0, actionTaken := "NONE", actionAmount := 0)
  }

  /**
   * `GMDN`: no community cards and no own cards, pot, round bet and
   * current bet zero, and every entry's round bet, action and amount
   * cleared; everything else stays.
   */
  function GameDone(t: Table): (r: Option<Table>)
    ensures r.Some? <==> t.hasMap
    ensures r.Some? ==>
      && r.value == t.(community := [], pot := 0, roundBet := 0, currentBet := 0, players := r.value.players)
      && r.value.players.Keys == t.players.Keys + {t.myNickname}
      && r.value.players[t.myNickname] == Get(t, t.myNickname).(cards := [], roundBet := 0, actionTaken := "NONE", actionAmount := 0)
      && forall n | n in t.players && n != t.myNickname ::
           r.value.players[n] == t.players[n].(roundBet := 0, actionTaken := "NONE", actionAmount := 0)
  {
    var t1 := t.(community := []);
    var myData := Get(t1, t1.myNickname).(cards := []);
    var t2 :- Put(t1, t1.myNickname, myData);
    var t3 := t2.(pot := 0, roundBet := 0, currentBet := 0);
    Some(t3.(players := RoundCleared(t3.players)))
  }

  /** `GMST`: the phase is `PreFlop`, the own cards and the board are empty, and pot and bets are zero. */
  function GameStart(t: Table): (r: Option<Table>)
    ensures r.Some? <==> t.hasMap
    ensures r.Some? ==>
      r.value == t.(phase := "PreFlop", community := [], pot := 0, roundBet := 0, currentBet := 0,
                    players := t.players[t.myNickname := Get(t, t.myNickname).(cards := [])])
  {
    var t1 := t.(phase := "PreFlop");
    var myData := Get(t1, t1.myNickname).(cards := []);
    var t2 :- Put(t1, t1.myNickname, myData);
    Some(t2.(community := [], pot := 0, roundBet := 0, currentBet := 0))
  }

  /** A table change that may panic, as a handler outcome with the given messages and a redraw. */
  function Updated(gs: GameState, t: Option<Table>, sent: seq<Effect>): (h: Handled)
    ensures t.None? <==> h.Panic?
    ensures t.Some? ==> h == Handled(gs.(table := t.value), sent + [Redraw], None)
  {
    match t
    case None => Panic
    case Some(t') => Handled(gs.(table := t'), sent + [Redraw], None)
  }

  /** The messages `StateInGame.HandleNetwork` answers: `CDTP` with `CDOK`, `SDWN` with `SDOK`, `GMDN` with `DNOK`. */
  function Replies(code: string): (out: seq<Effect>)
    ensures |out| <= 1
    ensures out != [] <==> code in {"CDTP", "SDWN", "GMDN"}
  {
    if code == "CDTP" then [Send(Bare("CDOK"))]
    else if code == "SDWN" then [Send(Bare("SDOK"))]
    else if code == "GMDN" then [Send(Bare("DNOK"))]
    else []
  }

  /**
   * What a message does to the table in the game (`None` where the
   * handler panics): `PJIN` adds a player, `PRDY` marks one ready, `GMST`
   * and `GMDN` start and end a game, `CDTP` deals the own cards, `CRVR`
   * reveals a board card numbered in decimal, `PTRN` hands the turn and
   * `PACT` records an action; everything else leaves the table alone.
   */
  function TableUpdate(t: Table, msg: NetMsg): (r: Option<Table>)
    ensures msg.code == "PJIN" ==> r == PlayerJoined(t, msg.payload)
    ensures msg.code == "PACT" ==> r == PlayerAction(t, msg.payload)
    ensures msg.code == "GMST" ==> r == GameStart(t)
    ensures msg.code == "GMDN" ==> r == GameDone(t)
    ensures msg.code == "PRDY" ==>
      var nick := ReadString(msg.payload).GetOr("");
      && (r.Some? <==> t.hasMap)
      && (r.Some? ==> r.value == t.(players := t.players[nick := Get(t, nick).(ready := true)]))
    ensures msg.code == "CDTP" ==>
      && (r.Some? <==> t.hasMap)
      && (r.Some? ==> r.value == t.(players := t.players[t.myNickname := Get(t, t.myNickname).(cards := DealtCards(msg.payload))]))
    ensures msg.code == "CRVR" ==> r == Some(t.(community := t.community + [CardOf(GoAtoi(msg.payload))]))
    ensures msg.code == "PTRN" ==>
      r == Some(t.(players := if t.hasMap then TurnTo(t.players, ReadString(msg.payload).GetOr("")) else t.players))
    ensures msg.code !in {"PJIN", "PRDY", "GMST", "CDTP", "CRVR", "PTRN", "PACT", "GMDN"} ==> r == Some(t)
  {
    if msg.code == "PJIN" then PlayerJoined(t, msg.payload)
    else if msg.code == "PRDY" then
      var nick := ReadString(msg.payload).GetOr("");
      Put(t, nick, Get(t, nick).(ready := true))
    else if msg.code == "GMST" then GameStart(t)
    else if msg.code == "CDTP" then Put(t, t.myNickname, Get(t, t.myNickname).(cards := DealtCards(msg.payload)))
    else if msg.code == "CRVR" then Some(t.(community := t.community + [CardOf(GoAtoi(msg.payload))]))
    else if msg.code == "PTRN" then
      var name := ReadString(msg.payload).GetOr("");
      Some(t.(players := if t.hasMap then TurnTo(t.players, name) else t.players))
    else if msg.code == "PACT" then PlayerAction(t, msg.payload)
    else if msg.code == "GMDN" then GameDone(t)
    else Some(t)
  }

  /**
   * `StateInGame.HandleNetwork`: the table is updated in place, the
   * replies are sent after the update, the deferred `SetDirty` asks for a
   * redraw last, and the state never changes.
   */
  function InGameNetwork(gs: GameState, msg: NetMsg): (h: Handled)
    ensures h.Panic? <==> TableUpdate(gs.table, msg).None?
    ensures h.Handled? ==>
      && h.next == None
      && h.gs == gs.(table := TableUpdate(gs.table, msg).value)
      && h.out == Replies(msg.code) + [Redraw]
  {
    Updated(gs, TableUpdate(gs.table, msg), Replies(msg.code))
  }

  /** `PTRN` hands the turn to exactly the named player: every entry stays, and only the named one holds the turn. */
  lemma TurnHandOff(gs: GameState, payload: string)
    requires gs.table.hasMap
    ensures var h := InGameNetwork(gs, FrameWriter.NetMsg("PTRN", payload));
      var name := ReadString(payload).GetOr("");
      && h.Handled? && h.next == None
      && h.gs.table.players.Keys == gs.table.players.Keys
      && forall n | n in h.gs.table.players ::
           && (h.gs.table.players[n].myTurn <==> n == name)
           && h.gs.table.players[n] == gs.table.players[n].(myTurn := n == name)
  {
  }

  /** `HandleNetwork` of each state; `MainMenu`, `Reconnecting` and `Lobby` (but for `RMUP`, answered `UPOK`) ignore the network. */
  function HandleNetwork(s: LogicState, gs: GameState, msg: NetMsg): (h: Handled)
    ensures s in {MainMenu, Reconnecting} ==> h == Handled(gs, [], None)
    ensures s == Lobby ==> h == Handled(gs, if msg.code == "RMUP" then [Send(Bare("UPOK"))] else [], None)
    ensures s == Connecting ==> h == ConnectingNetwork(gs, msg)
    ensures s == SendingInfo ==> h == SendingInfoNetwork(gs, msg)
    ensures s == RequestingRooms ==> h == RequestingRoomsNetwork(gs, msg)
    ensures s == JoiningRoom ==> h == JoiningRoomNetwork(gs, msg)
    ensures s == InGame ==> h == InGameNetwork(gs, msg)
  {
    match s
    case MainMenu => Handled(gs, [], None)
    case Connecting => ConnectingNetwork(gs, msg)
    case Reconnecting => Handled(gs, [], None)
    case SendingInfo => SendingInfoNetwork(gs, msg)
    case RequestingRooms => RequestingRoomsNetwork(gs, msg)
    case Lobby => Handled(gs, if msg.code == "RMUP" then [Send(Bare("UPOK"))] else [], None)
    case JoiningRoom => JoiningRoomNetwork(gs, msg)
    case InGame => InGameNetwork(gs, msg)
  }

  // ---------------------------------------------------------------------------
  // The game thread

  /** One turn of the loop's `select`: user input, a network message, or neither (the `default` sleep). */
  datatype Event = Input(input: UserInput) | Network(msg: NetMsg) | Idle

  /**
   * The game thread: the current state, its data, `ShouldClose`, and
   * everything done outside so far; `Crashed` once a handler panicked,
   * which ends the program.
   */
  datatype Driver = Running(state: LogicState, gs: GameState, shouldClose: bool, out: seq<Effect>) | Crashed(out: seq<Effect>)

  /** The state entered first, `MainMenu`, with its `Enter` run once before the loop. */
  function Start(gs: GameState): (d: Driver)
    ensures d == Running(MainMenu, gs.(screen := ScreenMainMenu), false, [])
  {
    var (gs', out) := Enter(MainMenu, gs);
    Running(MainMenu, gs', false, out)
  }

  /**
   * The transition step: no next state keeps the current one and runs
   * neither `Exit` nor `Enter`; a next state runs `Exit` of the old one
   * (which does nothing in every state), swaps, runs `Enter` of the new
   * one and asks for a redraw, in that order.
   */
  function Apply(d: Driver, h: Handled): (r: Driver)
    requires d.Running?
    ensures h.Panic? ==> r == Crashed(d.out)
    ensures h.Handled? && h.next.None? ==> r == d.(gs := h.gs, out := d.out + h.out)
    ensures h.Handled? && h.next.Some? ==>
      var entered := Enter(h.next.value, h.gs);
      r == Running(h.next.value, entered.0, d.shouldClose, d.out + h.out + entered.1 + [Redraw])
  {
    match h
    case Panic => Crashed(d.out)
    case Handled(gs, out, next) =>
      match next
      case None => d.(gs := gs, out := d.out + out)
      case Some(n) =>
        var (gs', entered) := Enter(n, gs);
        Running(n, gs', d.shouldClose, d.out + out + entered + [Redraw])
  }

  /**
   * One turn of the loop. `EvtQuit` sets `ShouldClose` and reaches no
   * state; the loop then ends, sending `NetShutdown` and signalling
   * `DoneChan`. Input goes to `HandleInput`, messages to `HandleNetwork`.
   */
  function Step(d: Driver, e: Event): (r: Driver)
    requires d.Running? && !d.shouldClose
    ensures e == Input(EvtQuit) ==> r == d.(shouldClose := true, out := d.out + [NetShutdown, SignalDone])
    ensures e.Idle? ==> r == d
    ensures e.Input? && e.input != EvtQuit ==> r == Apply(d, HandleInput(d.state, d.gs, e.input))
    ensures e.Network? ==> r == Apply(d, HandleNetwork(d.state, d.gs, e.msg))
  {
    match e
    case Input(input) =>
      if input == EvtQuit then d.(shouldClose := true, out := d.out + [NetShutdown, SignalDone])
      else Apply(d, HandleInput(d.state, d.gs, input))
    case Network(msg) => Apply(d, HandleNetwork(d.state, d.gs, msg))
    case Idle => d
  }

  /** `for !ctx.ShouldClose`: events are taken one at a time until the loop ends or the program crashes. */
  function Loop(d: Driver, events: seq<Event>): (r: Driver)
    decreases |events|
  {
    if |events| == 0 || d.Crashed? || d.shouldClose then d
    else Loop(Step(d, events[0]), events[1..])
  }

  /** Once `ShouldClose` is set, the loop takes no more events: nothing else reaches a state and nothing more is done. */
  lemma {:induction false} NothingAfterQuit(d: Driver, events: seq<Event>)
    requires d.Running? && !d.shouldClose
    ensures var q := Step(d, Input(EvtQuit));
      && Loop(d, [Input(EvtQuit)] + events) == q
      && q.state == d.state && q.gs == d.gs
      && q.out == d.out + [NetShutdown, SignalDone]
  {
    assert ([Input(EvtQuit)] + events)[1..] == events;
  }

  /** The effects only grow: what the thread did is never undone, whatever the events. */
  lemma {:induction false} LoopExtendsOut(d: Driver, events: seq<Event>)
    ensures |Loop(d, events).out| >= |d.out| && Loop(d, events).out[..|d.out|] == d.out
    decreases |events|
  {
    if |events| > 0 && !d.Crashed? && !d.shouldClose {
      var d1 := Step(d, events[0]);
      assert |d1.out| >= |d.out| && d1.out[..|d.out|] == d.out;
      LoopExtendsOut(d1, events[1..]);
    }
  }

  // ---------------------------------------------------------------------------
  // The invariant the thread keeps

  /**
   * What holds between turns of the loop: the screen is the one the last
   * `Enter` showed, and in the game the player map exists and holds the
   * own entry.
   */
  predicate Wf(d: Driver) {
    d.Running? ==>
      && (ScreenOf(d.state).Some? ==> d.gs.screen == ScreenOf(d.state).value)
      && (d.state == InGame ==> d.gs.table.hasMap && OwnSeated(d.gs.table))
  }

  /** Every `Enter` establishes the invariant for the state it enters. */
  lemma EnterWf(d: Driver, n: LogicState, gs: GameState)
    requires d.Running? && (ScreenOf(n).None? ==> ScreenOf(d.state).Some? ==> gs.screen == ScreenOf(d.state).value)
    ensures var entered := Enter(n, gs);
      ScreenOf(n).Some? ==> entered.0.screen == ScreenOf(n).value
    ensures n == InGame ==> Enter(n, gs).0.table.hasMap && OwnSeated(Enter(n, gs).0.table)
  {
  }

  /** Inside the game, a handler keeps the player map and the own entry (entries are only ever added). */
  lemma InGameKeepsOwn(gs: GameState, msg: NetMsg)
    requires gs.table.hasMap && OwnSeated(gs.table)
    ensures var h := InGameNetwork(gs, msg);
      h.Handled? ==> h.gs.table.hasMap && h.gs.table.myNickname == gs.table.myNickname && gs.table.players.Keys <= h.gs.table.players.Keys
  {
  }

  /** Game input keeps the player map and the own entry too. */
  lemma InGameInputKeepsOwn(gs: GameState, input: UserInput)
    requires gs.table.hasMap && OwnSeated(gs.table)
    ensures var h := InGameInput(gs, input);
      h.Handled? && h.next.None? ==> h.gs.table.hasMap && OwnSeated(h.gs.table) && h.gs.screen == gs.screen
  {
  }

  /** A handler that does not move changes no screen. */
  lemma StayKeepsScreen(s: LogicState, gs: GameState, e: Event)
    requires e.Input? || e.Network?
    ensures var h := if e.Input? then HandleInput(s, gs, e.input) else HandleNetwork(s, gs, e.msg);
      h.Handled? && h.next.None? ==> h.gs.screen == gs.screen
  {
  }

  /** Every turn of the loop keeps the invariant. */
  lemma StepKeepsWf(d: Driver, e: Event)
    requires d.Running? && !d.shouldClose && Wf(d)
    ensures Wf(Step(d, e))
  {
    if e.Input? && e.input != EvtQuit {
      var h := HandleInput(d.state, d.gs, e.input);
      StayKeepsScreen(d.state, d.gs, e);
      if d.state == InGame {
        InGameInputKeepsOwn(d.gs, e.input);
      }
      if h.Handled? && h.next.Some? {
        EnterWf(d, h.next.value, h.gs);
      }
    } else if e.Network? {
      var h := HandleNetwork(d.state, d.gs, e.msg);
      StayKeepsScreen(d.state, d.gs, e);
      if d.state == InGame {
        InGameKeepsOwn(d.gs, e.msg);
      }
      if h.Handled? && h.next.Some? {
        EnterWf(d, h.next.value, h.gs);
      }
    }
  }

  /** The invariant holds from the start and through any run of the loop. */
  lemma {:induction false} LoopKeepsWf(gs: GameState, events: seq<Event>)
    ensures Wf(Start(gs))
    ensures Wf(Loop(Start(gs), events))
  {
    LoopFromWf(Start(gs), events);
  }

  lemma {:induction false} LoopFromWf(d: Driver, events: seq<Event>)
    requires Wf(d)
    ensures Wf(Loop(d, events))
    decreases |events|
  {
    if |events| > 0 && !d.Crashed? && !d.shouldClose {
      StepKeepsWf(d, events[0]);
      LoopFromWf(Step(d, events[0]), events[1..]);
    }
  }

  /**
   * In the game, only a short `PJIN` or `PACT` payload can crash the
   * client: every other message and every input is handled, because the
   * player map exists there.
   */
  lemma OnlyShortPayloadsPanic(d: Driver, e: Event)
    requires d.Running? && !d.shouldClose && Wf(d) && d.state == InGame
    requires e.Network? ==> e.msg.code != "PJIN" && e.msg.code != "PACT"
    ensures Step(d, e).Running?
  {
  }

  /** A `PJIN` whose nickname cannot be read from fewer than four bytes crashes the client. */
  lemma ShortJoinPanics(d: Driver, payload: string)
    requires d.Running? && !d.shouldClose && d.state == InGame && d.gs.table.hasMap && |payload| < 4
    ensures Step(d, Network(FrameWriter.NetMsg("PJIN", payload))).Crashed?
  {
    assert ReadBigInt(payload).None?;
  }
}
